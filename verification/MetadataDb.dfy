/**
  The tables behind saved metadata, one SQL statement per function. A statement's precondition is
  the table constraint it must not trip; its result includes what the triggers do to the counters.
 */
module MetadataDb {
  import opened Common
  import opened Orders
  import opened Records
  import Hints
  import Ranking

  datatype Kind = KindV1 | KindV2

  /** Key of `torrent_identities`. */
  datatype Identity = Identity(kind: Kind, hash: Name)

  datatype Row = Row(hash: Name, info: Name, fetchedAt: int)

  datatype Label = V1Full | V2Prefix | HybridDerived

  datatype Link = Link(key: Name, id: nat)

  /** `coverage` is the search_incomplete column; `stale` rows are due for a new analysis. */
  datatype CatalogRow = CatalogRow(coverage: Option<bool>, stale: bool)

  datatype Counters = Counters(indexed: int, total: int, incomplete: int)

  datatype Db = Db(
    metadata: map<nat, Row>,
    aliases: map<Identity, nat>,
    swarm: map<Link, Label>,
    catalog: map<Name, CatalogRow>,
    counters: Counters,
    hashes: map<Name, Seen>,
    jobs: map<Name, Job>,
    hints: Hints.Rows)

  const MAX_INFO: nat := 4 * 1024 * 1024

  // ---- what the counters summarise

  predicate Known(r: CatalogRow) { r.coverage.Some? }

  predicate Unclear(r: CatalogRow) { r.coverage != Some(false) }

  ghost function KnownRows(catalog: map<Name, CatalogRow>): set<Name> { set h | h in catalog && Known(catalog[h]) }

  ghost function UnclearRows(catalog: map<Name, CatalogRow>): set<Name> { set h | h in catalog && Unclear(catalog[h]) }

  ghost predicate CountersAgree(db: Db) {
    && db.counters.total == |db.metadata|
    && db.counters.indexed == |KnownRows(db.catalog)|
    && db.counters.incomplete == |UnclearRows(db.catalog)|
  }

  ghost predicate CheckHolds(c: Counters) { c.total >= c.indexed >= 0 && c.incomplete >= 0 }

  ghost function RowHashes(metadata: map<nat, Row>): set<Name> { set i | i in metadata :: metadata[i].hash }

  ghost predicate UniqueHashes(metadata: map<nat, Row>) {
    forall i, j :: i in metadata && j in metadata && metadata[i].hash == metadata[j].hash ==> i == j
  }

  /** UNIQUE(metadata_id, kind). */
  ghost predicate OneAliasPerKind(aliases: map<Identity, nat>) {
    forall a, b :: a in aliases && b in aliases && a.kind == b.kind && aliases[a] == aliases[b] ==> a == b
  }

  /** CHECK clauses of a metadata row. */
  predicate Stored(row: Row) { |row.hash| in {20, 32} && 1 <= |row.info| <= MAX_INFO }

  /** CHECK clause of an alias: the length of the hash follows from its kind. */
  predicate WellFormed(a: Identity) { |a.hash| == if a.kind.KindV1? then 20 else 32 }

  /** The declared constraints of the tables, and counters that count. */
  ghost predicate Consistent(db: Db) {
    && UniqueHashes(db.metadata) && (forall i :: i in db.metadata ==> i > 0 && Stored(db.metadata[i]))
    && OneAliasPerKind(db.aliases)
    && (forall a :: a in db.aliases ==> db.aliases[a] in db.metadata && WellFormed(a))
    && (forall l :: l in db.swarm ==> l.id in db.metadata && l.key in db.hashes)
    && db.catalog.Keys <= RowHashes(db.metadata)
    && CountersAgree(db)
  }

  lemma RowHashesWithout(metadata: map<nat, Row>, i: nat)
    requires UniqueHashes(metadata) && i in metadata
    ensures RowHashes(metadata) == RowHashes(metadata - {i}) + {metadata[i].hash}
    ensures metadata[i].hash !in RowHashes(metadata - {i})
  {
    forall h | h in RowHashes(metadata) ensures h == metadata[i].hash || h in RowHashes(metadata - {i}) {
      var j :| j in metadata && metadata[j].hash == h;
      if j != i { assert j in metadata - {i}; }
    }
  }

  lemma {:induction false} RowHashesSize(metadata: map<nat, Row>)
    requires UniqueHashes(metadata)
    ensures |RowHashes(metadata)| == |metadata|
    decreases |metadata|
  {
    if metadata != map[] {
      var i :| i in metadata;
      var rest := metadata - {i};
      RowHashesSize(rest);
      RowHashesWithout(metadata, i);
    }
  }

  /** The CHECK clauses of the counter row follow from the counts. */
  lemma ConsistentChecks(db: Db)
    requires Consistent(db)
    ensures CheckHolds(db.counters)
  {
    RowHashesSize(db.metadata);
    Ranking.SubsetSize(KnownRows(db.catalog), RowHashes(db.metadata));
  }

  /** `indexed == total` says that every metadata row has a catalog row with known coverage. */
  lemma IndexedAllMeansAllKnown(db: Db)
    requires Consistent(db)
    ensures db.counters.indexed == db.counters.total <==>
      forall i :: i in db.metadata ==> db.metadata[i].hash in db.catalog && Known(db.catalog[db.metadata[i].hash])
  {
    RowHashesSize(db.metadata);
    var known, all := KnownRows(db.catalog), RowHashes(db.metadata);
    Ranking.SubsetSize(known, all);
    if forall i :: i in db.metadata ==> db.metadata[i].hash in db.catalog && Known(db.catalog[db.metadata[i].hash]) {
      assert known == all;
    }
    if known == all {
      forall i | i in db.metadata ensures db.metadata[i].hash in known {
        assert db.metadata[i].hash in all;
      }
    }
  }

  // ---- catalog statements

  function Weight(b: bool): int { if b then 1 else 0 }

  function DeleteCatalogRow(db: Db, hash: Name): Db {
    var c := db.counters;
    var known := if hash in db.catalog then Weight(Known(db.catalog[hash])) else 0;
    var unclear := if hash in db.catalog then Weight(Unclear(db.catalog[hash])) else 0;
    db.(catalog := db.catalog - {hash}, counters := Counters(c.indexed - known, c.total, c.incomplete - unclear))
  }

  function PutCatalogRow(db: Db, hash: Name, r: CatalogRow): Db
  {
    var c := db.counters;
    var was := if hash in db.catalog then Weight(Known(db.catalog[hash])) else 0;
    var unclear := if hash in db.catalog then Weight(Unclear(db.catalog[hash])) else 0;
    db.(catalog := db.catalog[hash := r],
        counters := Counters(c.indexed + Weight(Known(r)) - was, c.total, c.incomplete + Weight(Unclear(r)) - unclear))
  }

  lemma DeleteCatalogKeeps(db: Db, hash: Name)
    requires Consistent(db)
    ensures Consistent(DeleteCatalogRow(db, hash))
  {
    DeleteKnown(db.catalog, hash);
    DeleteUnclear(db.catalog, hash);
  }

  lemma DeleteKnown(catalog: map<Name, CatalogRow>, hash: Name)
    ensures |KnownRows(catalog - {hash})| ==
      |KnownRows(catalog)| - if hash in catalog then Weight(Known(catalog[hash])) else 0
  {
    assert KnownRows(catalog - {hash}) == KnownRows(catalog) - {hash};
  }

  lemma DeleteUnclear(catalog: map<Name, CatalogRow>, hash: Name)
    ensures |UnclearRows(catalog - {hash})| ==
      |UnclearRows(catalog)| - if hash in catalog then Weight(Unclear(catalog[hash])) else 0
  {
    assert UnclearRows(catalog - {hash}) == UnclearRows(catalog) - {hash};
  }

  lemma PutCatalogKeeps(db: Db, hash: Name, r: CatalogRow)
    requires Consistent(db) && hash in RowHashes(db.metadata)
    ensures Consistent(PutCatalogRow(db, hash, r))
  {
    PutKnown(db.catalog, hash, r);
    PutUnclear(db.catalog, hash, r);
  }

  lemma PutKnown(catalog: map<Name, CatalogRow>, hash: Name, r: CatalogRow)
    ensures |KnownRows(catalog[hash := r])| ==
      |KnownRows(catalog)| + Weight(Known(r)) - if hash in catalog then Weight(Known(catalog[hash])) else 0
  {
    var others := KnownRows(catalog) - {hash};
    assert KnownRows(catalog[hash := r]) == if Known(r) then others + {hash} else others;
    assert hash in KnownRows(catalog) ==> KnownRows(catalog) == others + {hash};
    assert hash !in KnownRows(catalog) ==> KnownRows(catalog) == others;
  }

  lemma PutUnclear(catalog: map<Name, CatalogRow>, hash: Name, r: CatalogRow)
    ensures |UnclearRows(catalog[hash := r])| ==
      |UnclearRows(catalog)| + Weight(Unclear(r)) - if hash in catalog then Weight(Unclear(catalog[hash])) else 0
  {
    var others := UnclearRows(catalog) - {hash};
    assert UnclearRows(catalog[hash := r]) == if Unclear(r) then others + {hash} else others;
    assert hash in UnclearRows(catalog) ==> UnclearRows(catalog) == others + {hash};
    assert hash !in UnclearRows(catalog) ==> UnclearRows(catalog) == others;
  }

  // ---- metadata statements

  function FreshId(metadata: map<nat, Row>): (id: nat)
    ensures id !in metadata && id > 0
  {
    if metadata == map[] then 1
    else
      GreatestId(metadata.Keys);
      var m :| m in metadata.Keys && forall i :: i in metadata.Keys ==> i <= m;
      m + 1
  }

  lemma {:induction false} GreatestId(s: set<nat>)
    requires s != {}
    ensures exists m :: m in s && forall i :: i in s ==> i <= m
  {
    var m := Ranking.GreatestExists(s, (a: nat, b: nat) => a < b);
    assert m in s && forall i :: i in s ==> i <= m;
  }

  function InsertMetadata(db: Db, row: Row): Db
    requires Stored(row) && row.hash !in RowHashes(db.metadata)
  {
    db.(metadata := db.metadata[FreshId(db.metadata) := row], counters := db.counters.(total := db.counters.total + 1))
  }

  lemma InsertMetadataKeeps(db: Db, row: Row)
    requires Consistent(db) && Stored(row) && row.hash !in RowHashes(db.metadata)
    ensures Consistent(InsertMetadata(db, row))
  {
    RowHashesWith(db.metadata, FreshId(db.metadata), row);
  }

  lemma RowHashesWith(metadata: map<nat, Row>, id: nat, row: Row)
    requires UniqueHashes(metadata) && id !in metadata && row.hash !in RowHashes(metadata)
    ensures var now := metadata[id := row];
      UniqueHashes(now) && RowHashes(metadata) <= RowHashes(now) && |now| == |metadata| + 1
  {
    var now := metadata[id := row];
    forall i | i in metadata ensures metadata[i].hash in RowHashes(metadata) && metadata[i].hash in RowHashes(now) {
      assert now[i] == metadata[i];
    }
    assert now.Keys == metadata.Keys + {id};
  }

  /** UPDATE metadata SET hash: the key must stay unique and no catalog row may still refer to the old one. */
  function RenameMetadata(db: Db, id: nat, hash: Name): Db
    requires id in db.metadata
    requires |hash| in {20, 32} && forall i :: i in db.metadata && i != id ==> db.metadata[i].hash != hash
    requires db.metadata[id].hash !in db.catalog
  {
    db.(metadata := db.metadata[id := db.metadata[id].(hash := hash)])
  }

  lemma RenameMetadataKeeps(db: Db, id: nat, hash: Name)
    requires Consistent(db) && id in db.metadata && db.metadata[id].hash !in db.catalog
    requires |hash| in {20, 32} && forall i :: i in db.metadata && i != id ==> db.metadata[i].hash != hash
    ensures Consistent(RenameMetadata(db, id, hash))
  {
    RowHashesRenamed(db.metadata, id, hash);
  }

  lemma RowHashesRenamed(metadata: map<nat, Row>, id: nat, hash: Name)
    requires UniqueHashes(metadata) && id in metadata
    requires forall i :: i in metadata && i != id ==> metadata[i].hash != hash
    ensures var now := metadata[id := metadata[id].(hash := hash)];
      UniqueHashes(now) && RowHashes(metadata) - {metadata[id].hash} <= RowHashes(now) && |now| == |metadata|
  {
    var now := metadata[id := metadata[id].(hash := hash)];
    forall h | h in RowHashes(metadata) && h != metadata[id].hash ensures h in RowHashes(now) {
      var i :| i in metadata && metadata[i].hash == h;
      assert now[i].hash == h;
    }
    assert now.Keys == metadata.Keys;
  }

  function SetFetchedAt(db: Db, id: nat, at: int): Db
    requires id in db.metadata
  {
    db.(metadata := db.metadata[id := db.metadata[id].(fetchedAt := at)])
  }

  lemma SetFetchedAtKeeps(db: Db, id: nat, at: int)
    requires Consistent(db) && id in db.metadata
    ensures Consistent(SetFetchedAt(db, id, at))
    ensures RowHashes(SetFetchedAt(db, id, at).metadata) == RowHashes(db.metadata)
  {
    var now := SetFetchedAt(db, id, at).metadata;
    forall i | i in db.metadata ensures now[i].hash == db.metadata[i].hash {}
    forall h | h in RowHashes(db.metadata) ensures h in RowHashes(now) {
      var i :| i in db.metadata && db.metadata[i].hash == h;
      assert now[i].hash == h;
    }
    assert now.Keys == db.metadata.Keys;
  }

  /** DELETE FROM metadata: nothing may refer to the row any more. */
  function DeleteMetadata(db: Db, id: nat): Db
    requires id in db.metadata
    requires (forall a :: a in db.aliases ==> db.aliases[a] != id) && (forall l :: l in db.swarm ==> l.id != id)
    requires db.metadata[id].hash !in db.catalog
  {
    db.(metadata := db.metadata - {id}, counters := db.counters.(total := db.counters.total - 1))
  }

  lemma DeleteMetadataKeeps(db: Db, id: nat)
    requires Consistent(db) && id in db.metadata && db.metadata[id].hash !in db.catalog
    requires (forall a :: a in db.aliases ==> db.aliases[a] != id) && (forall l :: l in db.swarm ==> l.id != id)
    ensures Consistent(DeleteMetadata(db, id))
  {
    var now := DeleteMetadata(db, id).metadata;
    forall h | h in db.catalog ensures h in RowHashes(now) {
      var i :| i in db.metadata && db.metadata[i].hash == h;
      assert i in now && now[i].hash == h;
    }
    assert now.Keys == db.metadata.Keys - {id};
  }

  // ---- identity and swarm statements

  /** UPDATE torrent_identities SET metadata_id: no kind may end up twice on the target. */
  function RepointAliases(db: Db, keep: nat, remove: nat): Db
    requires forall a, b ::
      a in db.aliases && b in db.aliases && a.kind == b.kind && db.aliases[a] == keep && db.aliases[b] == remove ==>
      a == b
  {
    db.(aliases := map a | a in db.aliases :: if db.aliases[a] == remove then keep else db.aliases[a])
  }

  function CopiedLinks(swarm: map<Link, Label>, keep: nat, remove: nat): map<Link, Label> {
    (map l | l in swarm && l.id == remove :: Link(l.key, keep) := swarm[l]) + swarm
  }

  function LinksWithout(swarm: map<Link, Label>, id: nat): map<Link, Label> {
    map l | l in swarm && l.id != id :: swarm[l]
  }

  /** INSERT OR IGNORE ... SELECT: links of the removed row are copied unless the target has its own. */
  function CopyLinks(db: Db, keep: nat, remove: nat): Db { db.(swarm := CopiedLinks(db.swarm, keep, remove)) }

  function DeleteLinks(db: Db, id: nat): Db { db.(swarm := LinksWithout(db.swarm, id)) }

  lemma CopiedLinksAt(swarm: map<Link, Label>, keep: nat, remove: nat, l: Link)
    ensures l in CopiedLinks(swarm, keep, remove) <==> l in swarm || (l.id == keep && Link(l.key, remove) in swarm)
    ensures l in CopiedLinks(swarm, keep, remove) ==>
      CopiedLinks(swarm, keep, remove)[l] == if l in swarm then swarm[l] else swarm[Link(l.key, remove)]
  {
    var copies := map k | k in swarm && k.id == remove :: Link(k.key, keep) := swarm[k];
    if l.id == keep && Link(l.key, remove) in swarm {
      assert Link(Link(l.key, remove).key, keep) == l;
      assert l in copies;
    }
  }

  /** INSERT ... ON CONFLICT(kind,hash) DO NOTHING: the other UNIQUE constraint must not fire. */
  function InsertAlias(db: Db, a: Identity, id: nat): Db
    requires id in db.metadata && WellFormed(a)
    requires a !in db.aliases ==> forall b :: b in db.aliases && b.kind == a.kind ==> db.aliases[b] != id
  {
    if a in db.aliases then db else db.(aliases := db.aliases[a := id])
  }

  function UpsertHash(db: Db, key: Name, at: int): Db { db.(hashes := Upserted(db.hashes, key, at)) }

  function Linked(swarm: map<Link, Label>, key: Name, id: nat, proof: Label): map<Link, Label> {
    var l := Link(key, id);
    swarm[l := if proof.HybridDerived? && l in swarm then swarm[l] else proof]
  }

  function UpsertLink(db: Db, key: Name, id: nat, proof: Label): Db
    requires id in db.metadata && key in db.hashes
  {
    db.(swarm := Linked(db.swarm, key, id, proof))
  }

  /** UPDATE fetch_jobs: a job that has not succeeded is closed under a new generation. */
  function Closed(jobs: map<Name, Job>, key: Name, at: int): map<Name, Job> {
    if key !in jobs || jobs[key].state == Succeeded then jobs
    else
      var j := jobs[key];
      var updated := if at > j.updatedAt then at else j.updatedAt;
      jobs[key := j.(state := Succeeded, generation := j.generation + 1, updatedAt := updated)]
  }

  function WithoutHints(hints: Hints.Rows, key: Name): Hints.Rows {
    map k | k in hints && k.hash != key :: hints[k]
  }

  /** Another lookup of the same torrent is finished off: its job is closed and its hints are dropped. */
  function CloseLookup(db: Db, key: Name, at: int): Db {
    db.(jobs := Closed(db.jobs, key, at), hints := WithoutHints(db.hints, key))
  }

  lemma AliasesKeep(db: Db, aliases: map<Identity, nat>)
    requires Consistent(db) && OneAliasPerKind(aliases)
    requires forall a :: a in aliases ==> aliases[a] in db.metadata && WellFormed(a)
    ensures Consistent(db.(aliases := aliases))
  {}

  lemma LinkKeeps(db: Db, key: Name, at: int, id: nat, proof: Label)
    requires Consistent(db) && id in db.metadata
    ensures Consistent(UpsertLink(UpsertHash(db, key, at), key, id, proof))
  {}

  lemma CloseKeeps(db: Db, key: Name, at: int)
    requires Consistent(db)
    ensures Consistent(CloseLookup(db, key, at))
  {}
}
