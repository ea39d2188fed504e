/**
  Saving verified metadata: rows that turn out to hold the same bytes under two identities are
  merged, the row takes its canonical hash, and both swarm keys are linked to it.
 */
module IdentityStore {
  import opened Common
  import opened Orders
  import opened MetadataDb
  import Hints

  /** Digests and the verdicts of the metainfo checker, as functions of the raw bytes. */
  datatype Env = Env(
    sha1: Name -> Name,
    sha256: Name -> Name,
    isV2: Name -> bool,
    validHybrid: Name -> bool,
    completeDictionary: Name -> bool,
    searchIncomplete: Name -> bool)

  ghost predicate DigestLengths(env: Env) {
    forall b :: |env.sha1(b)| == 20 && |env.sha256(b)| == 32
  }

  function Digest(env: Env, kind: Kind, info: Name): Identity {
    Identity(kind, if kind.KindV1? then env.sha1(info) else env.sha256(info))
  }

  function SwarmKey(a: Identity): Name { if |a.hash| < 20 then a.hash else a.hash[..20] }

  /** The full identity behind a 20-byte key; a v2 key only promises the first 20 bytes. */
  function MatchIdentity(env: Env, info: Name, key: Name): (r: Option<Identity>)
    ensures r.Some? ==> r.value == Digest(env, r.value.kind, info)
  {
    if env.sha1(info) == key then Some(Digest(env, KindV1, info))
    else if env.isV2(info) && SwarmKey(Digest(env, KindV2, info)) == key then Some(Digest(env, KindV2, info))
    else None
  }

  /** The match is an identity with that swarm key, and there is none exactly when no digest of the bytes has it. */
  lemma MatchIsByKey(env: Env, info: Name, key: Name)
    requires DigestLengths(env)
    ensures var r := MatchIdentity(env, info, key);
      && (r.Some? ==> Genuine(env, r.value, info) && SwarmKey(r.value) == key && (r.value.kind.KindV2? ==> env.isV2(info)))
      && (r.None? <==> forall k: Kind :: (k.KindV2? ==> env.isV2(info)) ==> SwarmKey(Digest(env, k, info)) != key)
  {
    var one := Digest(env, KindV1, info);
    assert SwarmKey(one) == one.hash;
    if MatchIdentity(env, info, key).None? {
      forall k: Kind | k.KindV2? ==> env.isV2(info) ensures SwarmKey(Digest(env, k, info)) != key {
        if k.KindV1? { assert Digest(env, k, info) == one; }
      }
    }
  }

  function Identities(env: Env, info: Name, source: Identity): (ids: seq<Identity>)
    requires source == Digest(env, source.kind, info)
    ensures 1 <= |ids| <= 2 && source in ids
    ensures forall a :: a in ids ==> a == Digest(env, a.kind, info)
    ensures |ids| == 2 ==> ids[0].kind.KindV1? && ids[1].kind.KindV2?
  {
    if env.validHybrid(info) then [Digest(env, KindV1, info), Digest(env, KindV2, info)] else [source]
  }

  function SourceLabel(source: Identity): Label { if source.kind.KindV1? then V1Full else V2Prefix }

  // ---- the identity invariants

  predicate Genuine(env: Env, a: Identity, info: Name) { a == Digest(env, a.kind, info) }

  ghost predicate AliasesAreDigests(metadata: map<nat, Row>, aliases: map<Identity, nat>, env: Env) {
    forall a :: a in aliases ==> aliases[a] in metadata && Genuine(env, a, metadata[aliases[a]].info)
  }

  /** A damaged row, which an upgrade copied unchecked: its only alias is the v1 hash that it carries. */
  ghost predicate Orphan(metadata: map<nat, Row>, aliases: map<Identity, nat>, a: Identity)
    requires a in aliases && aliases[a] in metadata
  {
    && a == Identity(KindV1, metadata[aliases[a]].hash)
    && forall b :: b in aliases && aliases[b] == aliases[a] ==> b == a
  }

  /** Every alias is that digest of its row's bytes, or the only alias of a damaged row. */
  ghost predicate AliasesAreSound(metadata: map<nat, Row>, aliases: map<Identity, nat>, env: Env) {
    forall a :: a in aliases ==>
      aliases[a] in metadata && (Genuine(env, a, metadata[aliases[a]].info) || Orphan(metadata, aliases, a))
  }

  ghost predicate GenuineRow(aliases: map<Identity, nat>, env: Env, id: nat, info: Name) {
    forall a :: a in aliases && aliases[a] == id ==> Genuine(env, a, info)
  }

  ghost predicate CanonicalIsAlias(metadata: map<nat, Row>, aliases: map<Identity, nat>) {
    forall a, i :: a in aliases && i in metadata && metadata[i].hash == a.hash ==> aliases[a] == i
  }

  /** The identity under which a row is stored. */
  function Canonical(hash: Name): Identity { Identity(if |hash| == 20 then KindV1 else KindV2, hash) }

  ghost predicate HashesAreAliases(metadata: map<nat, Row>, aliases: map<Identity, nat>) {
    forall i :: i in metadata ==> Canonical(metadata[i].hash) in aliases && aliases[Canonical(metadata[i].hash)] == i
  }

  /** What holds throughout a transaction. */
  ghost predicate Core(db: Db, env: Env) {
    && Consistent(db)
    && AliasesAreSound(db.metadata, db.aliases, env) && CanonicalIsAlias(db.metadata, db.aliases)
  }

  /** What holds between transactions: also every row is an alias under its own hash. */
  ghost predicate Inv(db: Db, env: Env) {
    Core(db, env) && HashesAreAliases(db.metadata, db.aliases)
  }

  // ---- finding the row of an identity

  predicate IsRowOf(db: Db, a: Identity, i: nat) {
    i in db.metadata && ((a in db.aliases && db.aliases[a] == i) || db.metadata[i].hash == a.hash)
  }

  /** The rows the lookup query can return; the invariants leave at most one. */
  function RowsOf(db: Db, a: Identity): set<nat> {
    set i | i in db.metadata && IsRowOf(db, a, i)
  }

  lemma AtMostOneRow(db: Db, a: Identity, i: nat, j: nat)
    requires UniqueHashes(db.metadata) && CanonicalIsAlias(db.metadata, db.aliases)
    requires i in RowsOf(db, a) && j in RowsOf(db, a)
    ensures i == j
  {}

  ghost function RowOf(db: Db, a: Identity): Option<nat> {
    if RowsOf(db, a) == {} then None
    else
      var i :| i in RowsOf(db, a);
      Some(i)
  }

  ghost function Keep(db: Db, ids: seq<Identity>): Option<nat>
    requires |ids| <= 2
  {
    if ids == [] then None
    else if RowOf(db, ids[0]).Some? || |ids| == 1 then RowOf(db, ids[0])
    else RowOf(db, ids[1])
  }

  /** The second row, if the two identities led to two rows. */
  ghost function Drop(db: Db, ids: seq<Identity>): Option<nat>
    requires |ids| <= 2
  {
    if |ids| == 2 && RowOf(db, ids[0]).Some? && RowOf(db, ids[1]) != RowOf(db, ids[0]) then RowOf(db, ids[1]) else None
  }

  ghost predicate Clashes(db: Db, ids: seq<Identity>, info: Name) {
    exists k :: 0 <= k < |ids| && RowOf(db, ids[k]).Some? && db.metadata[RowOf(db, ids[k]).value].info != info
  }

  // ---- merging two rows with the same bytes

  ghost predicate Mergeable(db: Db, env: Env, keep: nat, remove: nat) {
    && Core(db, env) && keep in db.metadata && remove in db.metadata && keep != remove
    && db.metadata[keep].info == db.metadata[remove].info
    && GenuineRow(db.aliases, env, keep, db.metadata[keep].info) && GenuineRow(db.aliases, env, remove, db.metadata[keep].info)
  }

  function Earlier(a: int, b: int): int { if a < b then a else b }

  function MergedRows(metadata: map<nat, Row>, keep: nat, remove: nat): map<nat, Row>
    requires keep in metadata && remove in metadata
  {
    metadata[keep := metadata[keep].(fetchedAt := Earlier(metadata[keep].fetchedAt, metadata[remove].fetchedAt))] - {remove}
  }

  function Repointed(aliases: map<Identity, nat>, keep: nat, remove: nat): map<Identity, nat> {
    map a | a in aliases :: if aliases[a] == remove then keep else aliases[a]
  }

  /** The outcome of a merge, table by table. */
  ghost predicate IsMerge(db: Db, m: Db, keep: nat, remove: nat) {
    && keep in db.metadata && remove in db.metadata
    && m.metadata == MergedRows(db.metadata, keep, remove)
    && m.aliases == Repointed(db.aliases, keep, remove)
    && m.swarm == LinksWithout(CopiedLinks(db.swarm, keep, remove), remove)
    && m.catalog == db.catalog - {db.metadata[remove].hash}
    && m.hashes == db.hashes && m.jobs == db.jobs && m.hints == db.hints
  }

  lemma RepointKeeps(db: Db, env: Env, keep: nat, remove: nat)
    requires Mergeable(db, env, keep, remove)
    ensures Consistent(RepointAliases(db, keep, remove))
  {
    RepointedAliases(db.aliases, env, keep, remove, db.metadata[keep].info);
    AliasesKeep(db, Repointed(db.aliases, keep, remove));
  }

  /** Both rows only have digests of the same bytes as aliases, so none of a kind meet on the kept row. */
  lemma RepointedAliases(aliases: map<Identity, nat>, env: Env, keep: nat, remove: nat, info: Name)
    requires OneAliasPerKind(aliases) && GenuineRow(aliases, env, keep, info) && GenuineRow(aliases, env, remove, info)
    ensures OneAliasPerKind(Repointed(aliases, keep, remove))
  {
    var moved := Repointed(aliases, keep, remove);
    forall a, b | a in moved && b in moved && a.kind == b.kind && moved[a] == moved[b] ensures a == b {
      assert moved[a] == keep ==> Genuine(env, a, info) && Genuine(env, b, info);
    }
  }

  lemma MoveLinksKeeps(db: Db, keep: nat, remove: nat)
    requires Consistent(db) && keep in db.metadata
    ensures Consistent(DeleteLinks(CopyLinks(db, keep, remove), remove))
  {
    forall l | l in CopiedLinks(db.swarm, keep, remove) ensures l.id in db.metadata && l.key in db.hashes {
      CopiedLinksAt(db.swarm, keep, remove, l);
    }
  }

  lemma MergeKeepsIdentities(metadata: map<nat, Row>, aliases: map<Identity, nat>, env: Env, keep: nat, remove: nat)
    requires AliasesAreSound(metadata, aliases, env) && CanonicalIsAlias(metadata, aliases)
    requires keep in metadata && remove in metadata && keep != remove && metadata[keep].info == metadata[remove].info
    requires GenuineRow(aliases, env, keep, metadata[keep].info)
    requires GenuineRow(aliases, env, remove, metadata[keep].info)
    ensures AliasesAreSound(MergedRows(metadata, keep, remove), Repointed(aliases, keep, remove), env)
    ensures CanonicalIsAlias(MergedRows(metadata, keep, remove), Repointed(aliases, keep, remove))
    ensures GenuineRow(Repointed(aliases, keep, remove), env, keep, metadata[keep].info)
  {
    var rows, moved := MergedRows(metadata, keep, remove), Repointed(aliases, keep, remove);
    assert forall i :: i in rows ==> i in metadata && rows[i].info == metadata[i].info && rows[i].hash == metadata[i].hash;
    forall a | a in moved ensures moved[a] in rows && (Genuine(env, a, rows[moved[a]].info) || Orphan(rows, moved, a)) {
      if !Genuine(env, a, rows[moved[a]].info) {
        assert aliases[a] != keep && aliases[a] != remove && Orphan(metadata, aliases, a);
      }
    }
  }

  /** Aliases and links move over to the kept row. */
  method MoveReferences(db: Db, ghost env: Env, keep: nat, remove: nat) returns (m: Db)
    requires Mergeable(db, env, keep, remove)
    ensures Consistent(m)
    ensures m == db.(aliases := Repointed(db.aliases, keep, remove),
      swarm := LinksWithout(CopiedLinks(db.swarm, keep, remove), remove))
  {
    m := RepointAliases(db, keep, remove);
    RepointKeeps(db, env, keep, remove);
    MoveLinksKeeps(m, keep, remove);
    m := CopyLinks(m, keep, remove);
    m := DeleteLinks(m, remove);
  }

  /** A row that nothing refers to any more goes, after its catalog row. */
  method DeleteTorrent(db: Db, remove: nat) returns (m: Db)
    requires Consistent(db) && remove in db.metadata
    requires (forall a :: a in db.aliases ==> db.aliases[a] != remove) && (forall l :: l in db.swarm ==> l.id != remove)
    ensures Consistent(m)
    ensures m == db.(metadata := db.metadata - {remove}, catalog := db.catalog - {db.metadata[remove].hash},
      counters := m.counters)
  {
    var hash := db.metadata[remove].hash;
    DeleteCatalogKeeps(db, hash);
    m := DeleteCatalogRow(db, hash);
    DeleteMetadataKeeps(m, remove);
    m := DeleteMetadata(m, remove);
  }

  method RemoveRow(db: Db, keep: nat, remove: nat) returns (m: Db)
    requires Consistent(db) && keep in db.metadata && remove in db.metadata && keep != remove
    requires (forall a :: a in db.aliases ==> db.aliases[a] != remove) && (forall l :: l in db.swarm ==> l.id != remove)
    ensures Consistent(m)
    ensures m == db.(metadata := MergedRows(db.metadata, keep, remove),
      catalog := db.catalog - {db.metadata[remove].hash}, counters := m.counters)
  {
    var at := Earlier(db.metadata[keep].fetchedAt, db.metadata[remove].fetchedAt);
    SetFetchedAtKeeps(db, keep, at);
    m := SetFetchedAt(db, keep, at);
    m := DeleteTorrent(m, remove);
  }

  /** The six statements of a merge: no unique or foreign key constraint can fire on the way. */
  method MergeIdentical(db: Db, ghost env: Env, keep: nat, remove: nat) returns (m: Db)
    requires Mergeable(db, env, keep, remove)
    ensures IsMerge(db, m, keep, remove) && Core(m, env)
    ensures GenuineRow(m.aliases, env, keep, db.metadata[keep].info)
  {
    var moved := MoveReferences(db, env, keep, remove);
    m := RemoveRow(moved, keep, remove);
    MergeKeepsIdentities(db.metadata, db.aliases, env, keep, remove);
  }
}
