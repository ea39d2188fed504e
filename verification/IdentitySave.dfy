/** The save transaction, the catalog row it leaves behind, and what any sequence of saves keeps. */
module IdentitySave {
  import opened Common
  import opened Orders
  import opened MetadataDb
  import opened IdentityStore
  import Hints

  datatype Outcome<+T> = Done(value: T) | Invalid | Conflict

  ghost predicate FromInfo(ids: seq<Identity>, env: Env, info: Name) {
    && 1 <= |ids| <= 2
    && (forall a :: a in ids ==> a == Digest(env, a.kind, info))
    && (|ids| == 2 ==> ids[0].kind.KindV1? && ids[1].kind.KindV2?)
  }

  // ---- first loop: find, compare, merge

  ghost predicate Gathered(db: Db, t: Db, ids: seq<Identity>)
    requires |ids| <= 2
  {
    if Drop(db, ids).Some? && Keep(db, ids).Some? then IsMerge(db, t, Keep(db, ids).value, Drop(db, ids).value) else t == db
  }

  /** After the loop every identity leads to the kept row or to none. */
  ghost predicate Settled(t: Db, ids: seq<Identity>, existing: Option<nat>) {
    forall a, i :: a in ids && i in RowsOf(t, a) ==> existing == Some(i)
  }

  lemma RowOfIs(db: Db, a: Identity, i: nat)
    requires UniqueHashes(db.metadata) && CanonicalIsAlias(db.metadata, db.aliases) && i in RowsOf(db, a)
    ensures RowOf(db, a) == Some(i)
  {}

  lemma RowAfterMerge(db: Db, m: Db, a: Identity, i: nat, keep: nat, remove: nat)
    requires keep in db.metadata && remove in db.metadata && keep != remove
    requires m.metadata == MergedRows(db.metadata, keep, remove) && m.aliases == Repointed(db.aliases, keep, remove)
    requires i in RowsOf(m, a) && i != keep
    ensures i in RowsOf(db, a) && i != remove
  {
    assert i in db.metadata && m.metadata[i].hash == db.metadata[i].hash;
    if a in m.aliases && m.aliases[a] == i {
      assert db.aliases[a] == i;
    }
  }

  lemma OnlyKeptRow(db: Db, m: Db, a: Identity, found: nat, i: nat, keep: nat, remove: nat)
    requires UniqueHashes(db.metadata) && CanonicalIsAlias(db.metadata, db.aliases)
    requires keep in db.metadata && remove in db.metadata && keep != remove
    requires m.metadata == MergedRows(db.metadata, keep, remove) && m.aliases == Repointed(db.aliases, keep, remove)
    requires found in RowsOf(db, a) && found in {keep, remove} && i in RowsOf(m, a)
    ensures i == keep
  {
    if i != keep {
      RowAfterMerge(db, m, a, i, keep, remove);
      AtMostOneRow(db, a, i, found);
    }
  }

  lemma MergeSettles(db: Db, m: Db, a: Identity, b: Identity, keep: nat, remove: nat)
    requires UniqueHashes(db.metadata) && CanonicalIsAlias(db.metadata, db.aliases)
    requires keep in RowsOf(db, a) && remove in RowsOf(db, b) && keep != remove
    requires m.metadata == MergedRows(db.metadata, keep, remove) && m.aliases == Repointed(db.aliases, keep, remove)
    ensures Settled(m, [a, b], Some(keep))
  {
    forall i | i in RowsOf(m, a) ensures i == keep { OnlyKeptRow(db, m, a, keep, i, keep, remove); }
    forall i | i in RowsOf(m, b) ensures i == keep { OnlyKeptRow(db, m, b, remove, i, keep, remove); }
  }

  /** What one more identity adds; before it at most one other has been looked up. */
  lemma GatherStep(db: Db, done: seq<Identity>, a: Identity)
    requires |done| <= 1
    ensures Keep(db, done + [a]) == if Keep(db, done).Some? then Keep(db, done) else RowOf(db, a)
    ensures Drop(db, done + [a]) == if Keep(db, done).Some? && RowOf(db, a) != Keep(db, done) then RowOf(db, a) else None
  {}

  lemma SettleStep(db: Db, done: seq<Identity>, a: Identity, existing: Option<nat>)
    requires Settled(db, done, existing) && forall i :: i in RowsOf(db, a) ==> existing == Some(i)
    ensures Settled(db, done + [a], existing)
  {}

  lemma ClashStep(db: Db, done: seq<Identity>, a: Identity, info: Name)
    requires UniqueHashes(db.metadata) && CanonicalIsAlias(db.metadata, db.aliases)
    ensures Clashes(db, done + [a], info) <==>
      Clashes(db, done, info) || exists i :: i in RowsOf(db, a) && db.metadata[i].info != info
  {
    forall i | i in RowsOf(db, a) ensures RowOf(db, a) == Some(i) { RowOfIs(db, a, i); }
    var ids := done + [a];
    assert forall k :: 0 <= k < |done| ==> ids[k] == done[k];
    assert ids[|done|] == a;
  }

  lemma ClashPrefix(db: Db, ids: seq<Identity>, k: nat, info: Name)
    requires k <= |ids| && Clashes(db, ids[..k], info)
    ensures Clashes(db, ids, info)
  {
    var j :| 0 <= j < k && RowOf(db, ids[..k][j]).Some? && db.metadata[RowOf(db, ids[..k][j]).value].info != info;
    assert ids[..k][j] == ids[j];
  }

  /** The loop state after the identities in `done`; a merge can only happen at the second one. */
  ghost predicate Gathering(env: Env, db: Db, t: Db, done: seq<Identity>, existing: Option<nat>, info: Name)
    requires |done| <= 2
  {
    && Core(t, env) && Gathered(db, t, done) && (|done| < 2 ==> t == db)
    && existing == Keep(db, done) && Settled(t, done, existing)
    && (existing.Some? ==>
          && existing.value in t.metadata && t.metadata[existing.value].info == info
          && GenuineRow(t.aliases, env, existing.value, info))
  }

  /** A row found under a digest of the bytes it holds is not a damaged one. */
  lemma FoundIsGenuine(t: Db, env: Env, a: Identity, i: nat, info: Name)
    requires Core(t, env) && DigestLengths(env) && Genuine(env, a, info)
    requires i in RowsOf(t, a) && t.metadata[i].info == info
    ensures GenuineRow(t.aliases, env, i, info)
  {
    forall b | b in t.aliases && t.aliases[b] == i ensures Genuine(env, b, info) {
      if !Genuine(env, b, info) {
        assert Orphan(t.metadata, t.aliases, b) && WellFormed(b);
      }
    }
  }

  /** The second identity led to another row with the same bytes. */
  method MergeFound(ghost env: Env, t: Db, ghost first: Identity, ghost a: Identity, keep: nat, id: nat,
                    ghost info: Name) returns (m: Db)
    requires Core(t, env) && keep in RowsOf(t, first) && id in RowsOf(t, a) && keep != id
    requires t.metadata[keep].info == t.metadata[id].info == info
    requires GenuineRow(t.aliases, env, keep, info) && GenuineRow(t.aliases, env, id, info)
    ensures Gathering(env, t, m, [first, a], Some(keep), info)
  {
    m := MergeIdentical(t, env, keep, id);
    MergeOutcome(t, m, first, a, keep, id);
  }

  lemma MergeOutcome(t: Db, m: Db, first: Identity, a: Identity, keep: nat, id: nat)
    requires UniqueHashes(t.metadata) && CanonicalIsAlias(t.metadata, t.aliases)
    requires keep in RowsOf(t, first) && id in RowsOf(t, a) && keep != id && IsMerge(t, m, keep, id)
    ensures Gathered(t, m, [first, a]) && Keep(t, [first, a]) == Some(keep) && Settled(m, [first, a], Some(keep))
    ensures keep in m.metadata && m.metadata[keep].info == t.metadata[keep].info
  {
    MergeSettles(t, m, first, a, keep, id);
    KeepAndDrop(t, first, a, keep, id);
  }

  lemma KeepAndDrop(db: Db, a: Identity, b: Identity, keep: nat, remove: nat)
    requires UniqueHashes(db.metadata) && CanonicalIsAlias(db.metadata, db.aliases)
    requires keep in RowsOf(db, a) && remove in RowsOf(db, b) && keep != remove
    ensures Keep(db, [a, b]) == Some(keep) && Drop(db, [a, b]) == Some(remove)
  {
    RowOfIs(db, a, keep);
    RowOfIs(db, b, remove);
  }

  /** An identity that leads nowhere, or where the earlier one led, leaves the tables alone. */
  lemma NothingToMerge(env: Env, t: Db, a: Identity, existing: Option<nat>, found: Option<nat>, info: Name,
                       done: seq<Identity>)
    requires |done| <= 1 && Gathering(env, t, t, done, existing, info)
    requires RowOf(t, a) == found && forall i :: i in RowsOf(t, a) ==> found == Some(i) && t.metadata[i].info == info
    requires found.Some? ==>
      found.value in RowsOf(t, a) && (existing.None? || existing == found) && GenuineRow(t.aliases, env, found.value, info)
    ensures Gathering(env, t, t, done + [a], if found.Some? then found else existing, info)
  {
    GatherStep(t, done, a);
    SettleStep(t, done, a, if found.Some? then found else existing);
  }

  lemma PairOf(done: seq<Identity>, a: Identity)
    requires |done| == 1
    ensures done + [a] == [done[0], a]
  {}

  /** The identity led to a row with the same bytes: the first such row is kept, a second one merged into it. */
  method GatherFound(ghost env: Env, t: Db, a: Identity, id: nat, existing: Option<nat>, ghost info: Name,
                     ghost done: seq<Identity>)
    returns (m: Db)
    requires |done| <= 1 && Gathering(env, t, t, done, existing, info)
    requires id in RowsOf(t, a) && t.metadata[id].info == info && GenuineRow(t.aliases, env, id, info)
    ensures Gathering(env, t, m, done + [a], Some(existing.GetOr(id)), info)
  {
    RowsAreOne(t, a, id);
    if existing.Some? && existing.value != id {
      RowOfIsOneOf(t, done[0]);
      m := MergeFound(env, t, done[0], a, existing.value, id, info);
      PairOf(done, a);
    } else {
      NothingToMerge(env, t, a, existing, Some(id), info, done);
      m := t;
    }
  }

  method GatherOne(ghost env: Env, t: Db, a: Identity, existing: Option<nat>, info: Name, ghost done: seq<Identity>)
    returns (r: Outcome<(Db, Option<nat>)>)
    requires DigestLengths(env) && |done| <= 1 && Gathering(env, t, t, done, existing, info) && Genuine(env, a, info)
    ensures !r.Invalid? && (r.Conflict? <==> exists i :: i in RowsOf(t, a) && t.metadata[i].info != info)
    ensures r.Done? ==> Gathering(env, t, r.value.0, done + [a], r.value.1, info)
  {
    var rows := RowsOf(t, a);
    if rows == {} {
      NothingToMerge(env, t, a, existing, None, info, done);
      return Done((t, existing));
    }
    var id :| id in rows;
    if t.metadata[id].info != info {
      return Conflict;
    }
    RowsAreOne(t, a, id);
    FoundIsGenuine(t, env, a, id, info);
    var m := GatherFound(env, t, a, id, existing, info, done);
    return Done((m, Some(existing.GetOr(id))));
  }

  lemma RowOfIsOneOf(db: Db, a: Identity)
    requires RowOf(db, a).Some?
    ensures RowOf(db, a).value in RowsOf(db, a)
  {}

  lemma RowsAreOne(db: Db, a: Identity, id: nat)
    requires UniqueHashes(db.metadata) && CanonicalIsAlias(db.metadata, db.aliases) && id in RowsOf(db, a)
    ensures RowOf(db, a) == Some(id) && forall i :: i in RowsOf(db, a) ==> i == id
  {
    forall i | i in RowsOf(db, a) ensures i == id { AtMostOneRow(db, a, i, id); }
  }

  method Gather(ghost env: Env, db: Db, ids: seq<Identity>, info: Name) returns (r: Outcome<(Db, Option<nat>)>)
    requires Core(db, env) && DigestLengths(env) && FromInfo(ids, env, info)
    ensures !r.Invalid? && (r.Conflict? <==> Clashes(db, ids, info))
    ensures r.Done? ==> Gathering(env, db, r.value.0, ids, r.value.1, info)
  {
    var t, existing := db, None;
    for k := 0 to |ids|
      invariant Gathering(env, db, t, ids[..k], existing, info) && !Clashes(db, ids[..k], info)
    {
      assert ids[..k + 1] == ids[..k] + [ids[k]];
      ClashStep(db, ids[..k], ids[k], info);
      var step := GatherOne(env, t, ids[k], existing, info, ids[..k]);
      if step.Conflict? {
        ClashPrefix(db, ids, k + 1, info);
        return Conflict;
      }
      t, existing := step.value.0, step.value.1;
    }
    assert ids[..|ids|] == ids;
    return Done((t, existing));
  }

  // ---- the row takes its canonical hash

  lemma PlaceKeepsIdentities(metadata: map<nat, Row>, aliases: map<Identity, nat>, env: Env, id: nat, row: Row)
    requires AliasesAreSound(metadata, aliases, env) && CanonicalIsAlias(metadata, aliases)
    requires GenuineRow(aliases, env, id, row.info)
    requires forall a :: a in aliases && a.hash == row.hash ==> aliases[a] == id
    ensures AliasesAreSound(metadata[id := row], aliases, env) && CanonicalIsAlias(metadata[id := row], aliases)
  {
    var rows := metadata[id := row];
    forall a | a in aliases ensures aliases[a] in rows && (Genuine(env, a, rows[aliases[a]].info) || Orphan(rows, aliases, a)) {
      if aliases[a] != id && !Genuine(env, a, metadata[aliases[a]].info) {
        assert Orphan(metadata, aliases, a);
      }
    }
  }

  ghost predicate LeadsOnlyTo(t: Db, a: Identity, id: nat) {
    forall i :: i in RowsOf(t, a) ==> i == id
  }

  /** Hashes of different kinds have different lengths, so only the alias itself can carry its hash. */
  lemma CanonicalBelongsTo(t: Db, a: Identity, id: nat)
    requires Consistent(t) && WellFormed(a) && LeadsOnlyTo(t, a, id)
    ensures forall b :: b in t.aliases && b.hash == a.hash ==> t.aliases[b] == id
  {
    forall b | b in t.aliases && b.hash == a.hash ensures t.aliases[b] == id {
      assert WellFormed(b) && b == a;
      assert t.aliases[b] in RowsOf(t, a);
    }
  }

  lemma NobodyHasHash(t: Db, a: Identity)
    requires RowsOf(t, a) == {} && forall b :: b in t.aliases ==> t.aliases[b] in t.metadata
    ensures a.hash !in RowHashes(t.metadata) && a !in t.aliases
  {
    forall i | i in t.metadata ensures !IsRowOf(t, a, i) {
      assert i !in RowsOf(t, a);
    }
  }

  method InsertRow(ghost env: Env, t: Db, a: Identity, info: Name, at: int) returns (p: Db, id: nat)
    requires Core(t, env) && DigestLengths(env) && Genuine(env, a, info)
    requires RowsOf(t, a) == {} && 1 <= |info| <= MAX_INFO
    ensures Core(p, env) && id == FreshId(t.metadata) && GenuineRow(p.aliases, env, id, info)
    ensures p == t.(metadata := t.metadata[id := Row(a.hash, info, at)], counters := p.counters)
  {
    NobodyHasHash(t, a);
    id := FreshId(t.metadata);
    InsertMetadataKeeps(t, Row(a.hash, info, at));
    p := InsertMetadata(t, Row(a.hash, info, at));
    CanonicalBelongsTo(t, a, id);
    PlaceKeepsIdentities(t.metadata, t.aliases, env, id, Row(a.hash, info, at));
  }

  lemma FreeToTake(t: Db, a: Identity, id: nat)
    requires LeadsOnlyTo(t, a, id)
    ensures forall i :: i in t.metadata && t.metadata[i].hash == a.hash ==> i == id
  {
    forall i | i in t.metadata && t.metadata[i].hash == a.hash ensures i == id {
      assert i in RowsOf(t, a);
    }
  }

  /** Taking another hash: the old catalog row goes first, so the foreign key never dangles. */
  method TakeHash(t: Db, id: nat, hash: Name) returns (p: Db)
    requires Consistent(t) && id in t.metadata && |hash| in {20, 32}
    requires forall i :: i in t.metadata && i != id ==> t.metadata[i].hash != hash
    ensures Consistent(p)
    ensures p == t.(metadata := t.metadata[id := t.metadata[id].(hash := hash)],
      catalog := t.catalog - {t.metadata[id].hash}, counters := p.counters)
  {
    DeleteCatalogKeeps(t, t.metadata[id].hash);
    p := DeleteCatalogRow(t, t.metadata[id].hash);
    RenameMetadataKeeps(p, id, hash);
    p := RenameMetadata(p, id, hash);
  }

  method RenameRow(ghost env: Env, t: Db, a: Identity, info: Name, id: nat) returns (p: Db)
    requires Core(t, env) && DigestLengths(env) && Genuine(env, a, info)
    requires id in t.metadata && t.metadata[id].info == info
    requires LeadsOnlyTo(t, a, id) && GenuineRow(t.aliases, env, id, info)
    ensures Core(p, env)
    ensures p == t.(metadata := t.metadata[id := t.metadata[id].(hash := a.hash)],
      catalog := if t.metadata[id].hash == a.hash then t.catalog else t.catalog - {t.metadata[id].hash}, counters := p.counters)
  {
    if t.metadata[id].hash == a.hash {
      assert t.metadata[id := t.metadata[id].(hash := a.hash)] == t.metadata;
      return t;
    }
    FreeToTake(t, a, id);
    p := TakeHash(t, id, a.hash);
    CanonicalBelongsTo(t, a, id);
    PlaceKeepsIdentities(t.metadata, t.aliases, env, id, t.metadata[id].(hash := a.hash));
  }

  // ---- second loop: aliases, links, and the other lookup

  lemma AliasKeepsIdentities(t: Db, env: Env, a: Identity, id: nat, info: Name)
    requires Core(t, env) && Genuine(env, a, info) && WellFormed(a) && LeadsOnlyTo(t, a, id)
    requires id in t.metadata && t.metadata[id].info == info && GenuineRow(t.aliases, env, id, info)
    ensures a !in t.aliases ==> forall b :: b in t.aliases && b.kind == a.kind ==> t.aliases[b] != id
    ensures a in t.aliases ==> t.aliases[a] == id
    ensures OneAliasPerKind(t.aliases[a := id]) && GenuineRow(t.aliases[a := id], env, id, info)
    ensures AliasesAreSound(t.metadata, t.aliases[a := id], env) && CanonicalIsAlias(t.metadata, t.aliases[a := id])
  {
    if a in t.aliases {
      assert t.aliases[a] in RowsOf(t, a);
    }
    assert forall b :: b in t.aliases && b.kind == a.kind && t.aliases[b] == id ==> b == a;
    AliasKeepsSound(t.metadata, t.aliases, env, a, id, info);
    FreeToTake(t, a, id);
  }

  lemma AliasKeepsSound(metadata: map<nat, Row>, aliases: map<Identity, nat>, env: Env, a: Identity, id: nat,
                        info: Name)
    requires AliasesAreSound(metadata, aliases, env) && Genuine(env, a, info)
    requires id in metadata && metadata[id].info == info && GenuineRow(aliases, env, id, info)
    requires a in aliases ==> aliases[a] == id
    ensures AliasesAreSound(metadata, aliases[a := id], env)
  {
    var more := aliases[a := id];
    forall b | b in more ensures more[b] in metadata && (Genuine(env, b, metadata[more[b]].info) || Orphan(metadata, more, b)) {
      if more[b] != id && !Genuine(env, b, metadata[more[b]].info) {
        assert Orphan(metadata, aliases, b);
      }
    }
  }
}
