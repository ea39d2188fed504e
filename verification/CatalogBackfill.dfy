/** Rebuilding the catalog: one row per step until nothing is due, and the schema upgrades that start it. */
module CatalogBackfill {
  import opened Common
  import opened Orders
  import opened Records
  import opened MetadataDb
  import opened IdentityStore
  import opened IdentitySave
  import opened IdentityTransaction
  import Ranking

  /** A row without a current catalog row waits for the backfill. */
  function DueRows(db: Db): set<nat> {
    set i | i in db.metadata && !Current(db.catalog, db.metadata[i].hash)
  }

  datatype Progress = Progress(cursor: Option<nat>, complete: bool)

  // ---- a save makes its own rows current and leaves the others as they were

  lemma FoldedElsewhere(db: Db, keep: Option<nat>, drop: Option<nat>, info: Name, h: Name)
    requires Foldable(db.metadata, keep, drop, info)
    requires forall i :: i in db.metadata && db.metadata[i].hash == h ==> keep != Some(i) && drop != Some(i)
    ensures var m := Folded(db, keep, drop);
      && (h in m.catalog <==> h in db.catalog) && (h in m.catalog ==> m.catalog[h] == db.catalog[h])
      && (keep.Some? ==> keep.value in m.metadata && m.metadata[keep.value].hash != h)
  {}

  lemma SavedCatalogElsewhere(db: Db, keep: Option<nat>, drop: Option<nat>, s: Plan, h: Name)
    requires 1 <= |s.ids| <= 2 && Foldable(db.metadata, keep, drop, s.info) && h != s.ids[0].hash
    requires forall i :: i in db.metadata && db.metadata[i].hash == h ==> keep != Some(i) && drop != Some(i)
    ensures Current(SavedDb(db, keep, drop, s).catalog, h) <==> Current(db.catalog, h)
  {
    FoldedElsewhere(db, keep, drop, s.info, h);
  }

  lemma DueElsewhere(db: Db, keep: Option<nat>, drop: Option<nat>, s: Plan, j: nat)
    requires 1 <= |s.ids| <= 2 && Foldable(db.metadata, keep, drop, s.info) && UniqueHashes(db.metadata)
    requires UniqueHashes(SavedDb(db, keep, drop, s).metadata) && j in db.metadata && keep != Some(j) && drop != Some(j)
    ensures var after := SavedDb(db, keep, drop, s);
      && j in after.metadata && after.metadata[j] == db.metadata[j]
      && (j in DueRows(after) <==> j in DueRows(db))
  {
    var after := SavedDb(db, keep, drop, s);
    SavedTables(db, keep, drop, s);
    SaveKeepsBytes(db.metadata, keep, drop, s);
    assert j != SavedId(db, keep) && after.metadata[SavedId(db, keep)].hash == s.ids[0].hash;
    SavedCatalogElsewhere(db, keep, drop, s, db.metadata[j].hash);
  }

  lemma SavedHashIsCurrent(db: Db, keep: Option<nat>, drop: Option<nat>, s: Plan)
    requires 1 <= |s.ids| <= 2
    ensures Current(SavedDb(db, keep, drop, s).catalog, s.ids[0].hash)
  {}

  lemma SavedRowIsCurrent(db: Db, keep: Option<nat>, drop: Option<nat>, s: Plan)
    requires 1 <= |s.ids| <= 2 && Foldable(db.metadata, keep, drop, s.info)
    ensures var after := SavedDb(db, keep, drop, s);
      && SavedId(db, keep) !in DueRows(after)
      && forall j :: j in after.metadata ==> j == SavedId(db, keep) || (j in db.metadata && drop != Some(j))
  {
    SavedTables(db, keep, drop, s);
    SaveKeepsBytes(db.metadata, keep, drop, s);
    SavedHashIsCurrent(db, keep, drop, s);
    SavedRowsAre(db.metadata, keep, drop, s);
  }

  lemma SavedRowsAre(metadata: map<nat, Row>, keep: Option<nat>, drop: Option<nat>, s: Plan)
    requires 1 <= |s.ids| && Foldable(metadata, keep, drop, s.info)
    ensures forall j :: j in SavedRows(metadata, keep, drop, s) ==>
      j == keep.GetOr(FreshId(metadata)) || (j in metadata && drop != Some(j))
  {}

  /** The rows that a save of `info` under `key` stores again: the ones it found. */
  ghost predicate Found(db: Db, env: Env, key: Name, info: Name, j: nat)
    requires MatchIdentity(env, info, key).Some?
  {
    var ids := IdsOf(env, key, info);
    Keep(db, ids) == Some(j) || Drop(db, ids) == Some(j)
  }

  lemma DueOfSavedDb(db: Db, keep: Option<nat>, drop: Option<nat>, s: Plan, j: nat)
    requires 1 <= |s.ids| <= 2 && Foldable(db.metadata, keep, drop, s.info)
    requires UniqueHashes(db.metadata) && UniqueHashes(SavedDb(db, keep, drop, s).metadata)
    ensures var after := SavedDb(db, keep, drop, s);
      && (j in DueRows(after) <==> j in DueRows(db) && keep != Some(j) && drop != Some(j))
      && (j in DueRows(after) ==> after.metadata[j] == db.metadata[j])
  {
    SavedRowIsCurrent(db, keep, drop, s);
    if j in db.metadata && keep != Some(j) && drop != Some(j) {
      DueElsewhere(db, keep, drop, s, j);
    }
  }

  lemma DueIgnoresCounters(a: Db, b: Db)
    requires SameButCounters(a, b)
    ensures DueRows(a) == DueRows(b) && a.metadata == b.metadata
  {}

  lemma DueOfSame(db: Db, after: Db, ids: seq<Identity>, s: Plan, j: nat)
    requires 1 <= |ids| <= 2 && s.ids == ids && !Clashes(db, ids, s.info)
    requires SameButCounters(after, SavedDb(db, Keep(db, ids), Drop(db, ids), s))
    requires UniqueHashes(db.metadata) && UniqueHashes(after.metadata)
    ensures j in DueRows(after) <==> j in DueRows(db) && Keep(db, ids) != Some(j) && Drop(db, ids) != Some(j)
    ensures j in DueRows(after) ==> after.metadata[j] == db.metadata[j]
  {
    FoundRowsAreFoldable(db, ids, s.info);
    DueIgnoresCounters(after, SavedDb(db, Keep(db, ids), Drop(db, ids), s));
    DueOfSavedDb(db, Keep(db, ids), Drop(db, ids), s, j);
  }

  /** An accepted save makes exactly the rows it found current, and leaves the others alone. */
  lemma DueAfterSave(db: Db, after: Db, env: Env, key: Name, info: Name, at: int, j: nat)
    requires Accepted(db, after, env, key, info, at)
    ensures j in DueRows(after) <==> j in DueRows(db) && !Found(db, env, key, info, j)
    ensures j in DueRows(after) ==> after.metadata[j] == db.metadata[j]
  {
    var s := PlanOf(env, key, info, at);
    DueOfSame(db, after, s.ids, s, j);
  }

  // ---- one row

  /** The row is stored under a digest of its bytes, and under the one that its key would find. */
  predicate Intact(env: Env, row: Row) {
    MatchIdentity(env, row.info, SwarmKey(Canonical(row.hash))) == Some(Canonical(row.hash))
  }

  function RowIds(env: Env, row: Row): seq<Identity>
    requires Intact(env, row)
  {
    Identities(env, row.info, Canonical(row.hash))
  }

  /** Exactly the rows that a backfill step can deal with: damaged ones, and those whose save is accepted. */
  ghost predicate Storable(db: Db, env: Env, row: Row) {
    Intact(env, row) ==>
      env.completeDictionary(row.info) && forall a :: a in RowIds(env, row) && a in BytesOf(db) ==> BytesOf(db)[a] == row.info
  }

  lemma StorableIsAccepted(db: Db, env: Env, id: nat)
    requires Inv(db, env) && DigestLengths(env) && id in db.metadata && Intact(env, db.metadata[id])
    ensures var row := db.metadata[id];
      Refusal(db, env, row.info, SwarmKey(Canonical(row.hash))).Done? <==> Storable(db, env, row)
  {
    var row := db.metadata[id];
    assert Stored(row) && forall a :: a in RowIds(env, row) ==> WellFormed(a);
    ClashIsOtherBytes(db, env, RowIds(env, row), row.info);
  }

  /** What a step did to the row: saved it again, or wrote a placeholder for a damaged one. */
  ghost predicate Step(db: Db, after: Db, env: Env, id: nat)
    requires id in db.metadata
  {
    var row := db.metadata[id];
    if Intact(env, row) then Accepted(db, after, env, SwarmKey(Canonical(row.hash)), row.info, row.fetchedAt)
    else SameButCounters(after, db.(catalog := db.catalog[row.hash := CatalogRow(Some(true), false)]))
  }

  /** An intact row is saved again; a damaged one only gets a placeholder. Refused exactly if not storable. */
  method BackfillRow(store: MetadataStore, env: Env, id: nat) returns (r: Outcome<()>)
    requires DigestLengths(env) && Inv(store.db, env) && id in store.db.metadata
    modifies store
    ensures Inv(store.db, env) && (!r.Done? ==> store.db == old(store.db))
    ensures r.Done? <==> Storable(old(store.db), env, old(store.db).metadata[id])
    ensures r.Done? ==> Step(old(store.db), store.db, env, id)
  {
    var db := store.db;
    var row := db.metadata[id];
    var info := if 1 <= |row.info| <= MAX_INFO then row.info else [];
    assert Stored(row);
    var identity := Canonical(row.hash);
    if MatchIdentity(env, info, SwarmKey(identity)) == Some(identity) {
      StorableIsAccepted(db, env, id);
      var saved := store.Save(env, SwarmKey(identity), info, row.fetchedAt);
      return if saved.Done? then Done(()) else if saved.Invalid? then Invalid else Conflict;
    }
    PutCatalogKeeps(db, row.hash, CatalogRow(Some(true), false));
    store.db := PutCatalogRow(db, row.hash, CatalogRow(Some(true), false));
    return Done(());
  }

  // ---- which databases a sweep completes on

  ghost predicate DueIntact(db: Db, env: Env, i: nat) { i in DueRows(db) && Intact(env, db.metadata[i]) }

  /**
    Every due row can be stored as things stand, and no two of them claim one identity for different
    bytes. Both are facts about the database before the sweep.
   */
  ghost predicate Completable(db: Db, env: Env) {
    && (forall i :: i in DueRows(db) ==> Storable(db, env, db.metadata[i]))
    && Compatible(db, env)
  }

  /** A row found beside the saved one holds the same bytes under the same two identities. */
  lemma FoundHasSameIds(db: Db, env: Env, id: nat, j: nat)
    requires Inv(db, env) && DigestLengths(env) && DueIntact(db, env, id) && DueIntact(db, env, j)
    requires Storable(db, env, db.metadata[id])
    requires Found(db, env, SwarmKey(Canonical(db.metadata[id].hash)), db.metadata[id].info, j)
    ensures db.metadata[j].info == db.metadata[id].info && RowIds(env, db.metadata[j]) == RowIds(env, db.metadata[id])
  {
    var row := db.metadata[id];
    var ids := RowIds(env, row);
    StorableIsAccepted(db, env, id);
    FoundRowsAreFoldable(db, ids, row.info);
    RowOfIs(db, Canonical(row.hash), id);
  }

  lemma SavedRowIsFound(db: Db, env: Env, id: nat)
    requires Inv(db, env) && DueIntact(db, env, id)
    ensures Found(db, env, SwarmKey(Canonical(db.metadata[id].hash)), db.metadata[id].info, id)
  {
    RowOfIs(db, Canonical(db.metadata[id].hash), id);
  }

  /** What a step leaves of the other due rows and of the bytes behind each identity. */
  ghost predicate StepEffect(db: Db, after: Db, env: Env, id: nat)
    requires DueIntact(db, env, id)
  {
    var row := db.metadata[id];
    var ids := RowIds(env, row);
    && BytesOf(after) == BytesOf(db) + (map a | a in ids :: row.info)
    && (forall a :: a in ids && a in BytesOf(db) ==> BytesOf(db)[a] == row.info)
    && id !in DueRows(after)
    && (forall j :: j in DueRows(after) ==> j in DueRows(db) && after.metadata[j] == db.metadata[j])
    && forall j :: DueIntact(db, env, j) && j !in DueRows(after) ==>
        db.metadata[j].info == row.info && RowIds(env, db.metadata[j]) == ids
  }

  lemma StepHasEffect(db: Db, after: Db, env: Env, id: nat)
    requires Inv(db, env) && DigestLengths(env) && DueIntact(db, env, id)
    requires Storable(db, env, db.metadata[id]) && Step(db, after, env, id)
    ensures StepEffect(db, after, env, id)
  {
    var row := db.metadata[id];
    var key := SwarmKey(Canonical(row.hash));
    SaveOnlyAdds(db, after, env, key, row.info, row.fetchedAt);
    SavedRowIsFound(db, env, id);
    DueAfterSave(db, after, env, key, row.info, row.fetchedAt, id);
    forall j | j in DueRows(after) ensures j in DueRows(db) && after.metadata[j] == db.metadata[j] {
      DueAfterSave(db, after, env, key, row.info, row.fetchedAt, j);
    }
    forall j | DueIntact(db, env, j) && j !in DueRows(after)
      ensures db.metadata[j].info == row.info && RowIds(env, db.metadata[j]) == RowIds(env, row)
    {
      DueAfterSave(db, after, env, key, row.info, row.fetchedAt, j);
      FoundHasSameIds(db, env, id, j);
    }
  }

  ghost predicate Overlap(a: seq<Identity>, b: seq<Identity>) { exists x :: x in a && x in b }

  /** No two due rows claim one identity for different bytes. */
  ghost predicate Compatible(db: Db, env: Env) {
    forall i, j ::
      DueIntact(db, env, i) && DueIntact(db, env, j) &&
      Overlap(RowIds(env, db.metadata[i]), RowIds(env, db.metadata[j])) ==>
      db.metadata[i].info == db.metadata[j].info
  }

  lemma StorableAfter(db: Db, after: Db, env: Env, id: nat, j: nat)
    requires DueIntact(db, env, id) && StepEffect(db, after, env, id)
    requires Completable(db, env) && j in DueRows(after)
    ensures Storable(after, env, after.metadata[j])
  {
    assert Storable(db, env, db.metadata[j]);
    if Intact(env, db.metadata[j]) {
      assert DueIntact(db, env, j);
    }
  }

  lemma CompatibleAfter(db: Db, after: Db, env: Env, id: nat)
    requires DueIntact(db, env, id) && StepEffect(db, after, env, id) && Compatible(db, env)
    ensures Compatible(after, env)
  {
    assert forall i :: DueIntact(after, env, i) ==> DueIntact(db, env, i) && after.metadata[i] == db.metadata[i];
  }

  lemma StorableBefore(db: Db, after: Db, env: Env, id: nat, j: nat)
    requires DueIntact(db, env, id) && Storable(db, env, db.metadata[id]) && StepEffect(db, after, env, id)
    requires Completable(after, env) && j in DueRows(db)
    ensures Storable(db, env, db.metadata[j])
  {
    if Intact(env, db.metadata[j]) {
      assert DueIntact(db, env, j);
      assert j in DueRows(after) ==> Storable(after, env, after.metadata[j]);
    }
  }

  lemma SharedWithSaved(db: Db, after: Db, env: Env, id: nat, i: nat, a: Identity)
    requires DueIntact(db, env, id) && StepEffect(db, after, env, id) && Completable(after, env)
    requires DueIntact(db, env, i) && a in RowIds(env, db.metadata[i]) && a in RowIds(env, db.metadata[id])
    ensures db.metadata[i].info == db.metadata[id].info
  {
    if i in DueRows(after) {
      assert Storable(after, env, after.metadata[i]);
      assert a in BytesOf(after) && BytesOf(after)[a] == db.metadata[id].info;
    }
  }

  lemma CompatibleBefore(db: Db, after: Db, env: Env, id: nat, i: nat, j: nat)
    requires DueIntact(db, env, id) && StepEffect(db, after, env, id) && Completable(after, env)
    requires DueIntact(db, env, i) && DueIntact(db, env, j)
    requires Overlap(RowIds(env, db.metadata[i]), RowIds(env, db.metadata[j]))
    ensures db.metadata[i].info == db.metadata[j].info
  {
    var a :| a in RowIds(env, db.metadata[i]) && a in RowIds(env, db.metadata[j]);
    if i in DueRows(after) && j in DueRows(after) {
      assert DueIntact(after, env, i) && DueIntact(after, env, j);
    } else {
      assert a in RowIds(env, db.metadata[id]);
      SharedWithSaved(db, after, env, id, i, a);
      SharedWithSaved(db, after, env, id, j, a);
    }
  }

  lemma EffectShrinks(db: Db, after: Db, env: Env, id: nat)
    requires DueIntact(db, env, id) && StepEffect(db, after, env, id)
    ensures DueRows(after) <= DueRows(db) - {id}
  {}

  /** Saving one row neither helps nor harms the completion of the sweep. */
  lemma EffectKeepsCompletable(db: Db, after: Db, env: Env, id: nat)
    requires DueIntact(db, env, id) && Storable(db, env, db.metadata[id]) && StepEffect(db, after, env, id)
    ensures Completable(db, env) <==> Completable(after, env)
  {
    if Completable(db, env) {
      forall j | j in DueRows(after) ensures Storable(after, env, after.metadata[j]) {
        StorableAfter(db, after, env, id, j);
      }
      CompatibleAfter(db, after, env, id);
    }
    if Completable(after, env) {
      forall j | j in DueRows(db) ensures Storable(db, env, db.metadata[j]) {
        StorableBefore(db, after, env, id, j);
      }
      forall i, j |
        && DueIntact(db, env, i) && DueIntact(db, env, j)
        && Overlap(RowIds(env, db.metadata[i]), RowIds(env, db.metadata[j]))
        ensures db.metadata[i].info == db.metadata[j].info
      {
        CompatibleBefore(db, after, env, id, i, j);
      }
    }
  }

  lemma PlaceholderEffect(db: Db, after: Db, env: Env, id: nat)
    requires UniqueHashes(db.metadata) && id in db.metadata && !Intact(env, db.metadata[id]) && Step(db, after, env, id)
    ensures DueRows(after) == DueRows(db) - {id} && BytesOf(after) == BytesOf(db)
    ensures Completable(db, env) <==> Completable(after, env)
  {
    assert forall j :: DueIntact(after, env, j) <==> DueIntact(db, env, j);
  }

  /** No step changes whether the sweep can complete, and each one makes its row current. */
  lemma StepKeepsCompletable(db: Db, after: Db, env: Env, id: nat)
    requires Inv(db, env) && DigestLengths(env) && id in DueRows(db)
    requires Storable(db, env, db.metadata[id]) && Step(db, after, env, id)
    ensures DueRows(after) <= DueRows(db) - {id}
    ensures Completable(db, env) <==> Completable(after, env)
  {
    if Intact(env, db.metadata[id]) {
      StepHasEffect(db, after, env, id);
      EffectShrinks(db, after, env, id);
      EffectKeepsCompletable(db, after, env, id);
    } else {
      PlaceholderEffect(db, after, env, id);
    }
  }

  lemma StepKeepsDamage(db: Db, after: Db, env: Env, id: nat)
    requires DigestLengths(env) && UniqueHashes(db.metadata) && id in db.metadata && Step(db, after, env, id)
    ensures Damage(after, env) == Damage(db, env)
  {
    var row := db.metadata[id];
    if Intact(env, row) {
      SaveKeepsDamage(db, after, env, SwarmKey(Canonical(row.hash)), row.info, row.fetchedAt);
    } else {
      PlaceholderEffect(db, after, env, id);
    }
  }

  predicate IdLess(a: nat, b: nat) { a < b }

  function After(db: Db, cursor: Option<nat>): set<nat> { set i | i in DueRows(db) && i > cursor.GetOr(0) }

  ghost predicate IsNext(db: Db, cursor: Option<nat>, id: nat) {
    id in After(db, cursor) && forall i :: i in After(db, cursor) ==> id <= i
  }

  /**
    The smallest due row above the cursor, if there is one; otherwise the verdict of the counters. A
    step is refused exactly when that row is intact and its bytes cannot be stored as things stand.
   */
  ghost predicate OneStep(db: Db, after: Db, env: Env, cursor: Option<nat>, r: Outcome<Progress>) {
    && (!r.Done? ==> after == db)
    && (After(db, cursor) == {} ==> after == db && r == Done(Progress(cursor, db.counters.indexed == db.counters.total)))
    && forall id :: IsNext(db, cursor, id) ==>
        && (r.Done? <==> Storable(db, env, db.metadata[id]))
        && (r.Done? ==> r.value == Progress(Some(id), false) && Step(db, after, env, id))
  }

  method BackfillOne(store: MetadataStore, env: Env, cursor: Option<nat>) returns (r: Outcome<Progress>)
    requires DigestLengths(env) && Inv(store.db, env)
    modifies store
    ensures Inv(store.db, env) && OneStep(old(store.db), store.db, env, cursor, r)
  {
    var due := After(store.db, cursor);
    if due == {} {
      return Done(Progress(cursor, store.db.counters.indexed == store.db.counters.total));
    }
    var id := Ranking.Least(due, IdLess);
    assert forall other :: IsNext(store.db, cursor, other) <==> other == id;
    var step := BackfillRow(store, env, id);
    if !step.Done? {
      return if step.Invalid? then Invalid else Conflict;
    }
    return Done(Progress(Some(id), false));
  }

  lemma NextExists(db: Db, cursor: Option<nat>) returns (id: nat)
    requires After(db, cursor) != {}
    ensures IsNext(db, cursor, id)
  {
    id := Ranking.Least(After(db, cursor), IdLess);
  }

  /** Where a sweep that started from `start` stands. */
  ghost predicate Sweeping(start: Db, db: Db, env: Env, cursor: Option<nat>) {
    && Inv(db, env) && Damage(db, env) == Damage(start, env)
    && (Completable(db, env) <==> Completable(start, env))
    && forall i :: i in DueRows(db) ==> i > cursor.GetOr(0)
  }

  lemma NextIsPassed(db: Db, after: Db, cursor: Option<nat>, id: nat)
    requires IsNext(db, cursor, id) && DueRows(after) <= DueRows(db) - {id}
    requires forall i :: i in DueRows(db) ==> i > cursor.GetOr(0)
    ensures |DueRows(after)| < |DueRows(db)| && forall i :: i in DueRows(after) ==> i > id
  {
    Ranking.SubsetSize(DueRows(after), DueRows(db) - {id});
    assert id in DueRows(db);
    forall i | i in DueRows(after) ensures i > id {
      assert i in After(db, cursor);
    }
  }

  lemma SweepStep(start: Db, db: Db, after: Db, env: Env, cursor: Option<nat>, id: nat)
    requires DigestLengths(env) && Sweeping(start, db, env, cursor) && Inv(after, env)
    requires IsNext(db, cursor, id) && Storable(db, env, db.metadata[id]) && Step(db, after, env, id)
    ensures Sweeping(start, after, env, Some(id)) && |DueRows(after)| < |DueRows(db)|
  {
    StepKeepsCompletable(db, after, env, id);
    StepKeepsDamage(db, after, env, id);
    NextIsPassed(db, after, cursor, id);
  }

  lemma SweepGoesOn(start: Db, db: Db, after: Db, env: Env, cursor: Option<nat>, r: Outcome<Progress>, id: nat)
    requires DigestLengths(env) && Sweeping(start, db, env, cursor) && Inv(after, env)
    requires OneStep(db, after, env, cursor, r) && IsNext(db, cursor, id) && r.Done?
    ensures r.value == Progress(Some(id), false)
    ensures Sweeping(start, after, env, Some(id)) && |DueRows(after)| < |DueRows(db)|
  {
    SweepStep(start, db, after, env, cursor, id);
  }

  lemma SweepRefused(start: Db, db: Db, after: Db, env: Env, cursor: Option<nat>, r: Outcome<Progress>, id: nat)
    requires Sweeping(start, db, env, cursor) && OneStep(db, after, env, cursor, r)
    requires IsNext(db, cursor, id) && !r.Done?
    ensures after == db && !Completable(start, env)
  {
    assert id in DueRows(db) && !Storable(db, env, db.metadata[id]);
  }

  lemma SweepEnds(start: Db, db: Db, env: Env, cursor: Option<nat>)
    requires Sweeping(start, db, env, cursor) && After(db, cursor) == {}
    ensures DueRows(db) == {} && Completable(start, env) && db.counters.indexed == db.counters.total
  {
    forall i ensures i !in DueRows(db) {
      assert i in DueRows(db) ==> i in After(db, cursor);
    }
    SweptIsCatalogued(db);
  }

  /** A step ends the sweep refused, or with nothing left, or leaves it with fewer due rows. */
  lemma SweepOutcome(start: Db, db: Db, after: Db, env: Env, cursor: Option<nat>, r: Outcome<Progress>)
    requires DigestLengths(env) && Sweeping(start, db, env, cursor)
    requires Inv(after, env) && OneStep(db, after, env, cursor, r)
    ensures !r.Done? ==> after == db && !Completable(start, env)
    ensures r.Done? && r.value.complete ==> after == db && DueRows(db) == {} && Completable(start, env)
    ensures r.Done? && !r.value.complete ==>
      Sweeping(start, after, env, r.value.cursor) && |DueRows(after)| < |DueRows(db)|
  {
    if After(db, cursor) == {} {
      SweepEnds(start, db, env, cursor);
    } else {
      var id := NextExists(db, cursor);
      if r.Done? {
        SweepGoesOn(start, db, after, env, cursor, r, id);
      } else {
        SweepRefused(start, db, after, env, cursor, r, id);
      }
    }
  }

  /**
    Steps from an empty cursor, from any database that the invariants allow, damaged rows included:
    the sweep completes exactly when the database was completable, and then every metadata row is
    catalogued and `indexed == total`. It repairs no wrong alias and adds none.
   */
  method BackfillAll(store: MetadataStore, env: Env) returns (r: Outcome<Progress>)
    requires DigestLengths(env) && Inv(store.db, env)
    modifies store
    ensures Inv(store.db, env) && Damage(store.db, env) == Damage(old(store.db), env)
    ensures r.Done? <==> Completable(old(store.db), env)
    ensures r.Done? ==>
      r.value.complete && DueRows(store.db) == {} && store.db.counters.indexed == store.db.counters.total
    ensures r.Done? ==> forall i :: i in store.db.metadata ==> store.db.metadata[i].hash in store.db.catalog
  {
    ghost var start := store.db;
    var cursor := None;
    assert forall i :: i in DueRows(store.db) ==> i > 0;
    while true
      invariant Sweeping(start, store.db, env, cursor)
      decreases |DueRows(store.db)|
    {
      ghost var db := store.db;
      r := BackfillOne(store, env, cursor);
      SweepOutcome(start, db, store.db, env, cursor, r);
      if !r.Done? {
        return;
      }
      if r.value.complete {
        SweptIsCatalogued(store.db);
        return;
      }
      cursor := r.value.cursor;
    }
  }

  lemma SweptIsCatalogued(db: Db)
    requires Consistent(db) && DueRows(db) == {}
    ensures db.counters.indexed == db.counters.total
    ensures forall i :: i in db.metadata ==> db.metadata[i].hash in db.catalog
  {
    IndexedAllMeansAllKnown(db);
    forall i | i in db.metadata ensures Current(db.catalog, db.metadata[i].hash) {
      assert i !in DueRows(db);
    }
  }

  // ---- schema upgrades

  datatype OldRow = OldRow(info: Name, fetchedAt: int)

  /** v4 adds the coverage column: every catalog row becomes unknown and the counters are recounted. */
  function UpgradeV4(db: Db): Db {
    var catalog := map h | h in db.catalog :: CatalogRow(None, db.catalog[h].stale);
    db.(catalog := catalog, counters := Counters(0, db.counters.total, |catalog|))
  }

  lemma UpgradeV4Recounts(db: Db)
    requires db.counters.total == |db.metadata|
    ensures CountersAgree(UpgradeV4(db))
  {
    var up := UpgradeV4(db).catalog;
    assert KnownRows(up) == {};
    assert UnclearRows(up) == up.Keys;
  }

  /** What the constraints of the old tables say: 20-byte hashes, each seen before, and stored bytes. */
  ghost predicate OldTables(rows: map<Name, OldRow>, catalog: set<Name>, hashes: map<Name, Seen>) {
    && catalog <= rows.Keys <= hashes.Keys
    && forall h :: h in rows ==> |h| == 20 && 1 <= |rows[h].info| <= MAX_INFO
  }

  /** Each row copied so far has an id, one v1 alias that carries its hash, and its bytes. */
  ghost predicate Copied(metadata: map<nat, Row>, aliases: map<Identity, nat>, rows: map<Name, OldRow>,
                         done: set<Name>) {
    && RowHashes(metadata) == done
    && (forall i :: i in metadata ==> metadata[i].hash in rows && metadata[i].info == rows[metadata[i].hash].info)
    && (forall a :: a in aliases ==> a.kind.KindV1? && aliases[a] in metadata && metadata[aliases[a]].hash == a.hash)
    && (forall i :: i in metadata ==> Identity(KindV1, metadata[i].hash) in aliases)
  }

  /** Each row copied so far is linked to its own hash, with the full label. */
  ghost predicate LinkedAlone(metadata: map<nat, Row>, swarm: map<Link, Label>) {
    && (forall l :: l in swarm <==> l.id in metadata && metadata[l.id].hash == l.key)
    && (forall l :: l in swarm ==> swarm[l] == V1Full)
  }

  lemma CopyStep(metadata: map<nat, Row>, aliases: map<Identity, nat>, rows: map<Name, OldRow>, done: set<Name>,
                 id: nat, row: Row)
    requires Copied(metadata, aliases, rows, done) && id !in metadata
    requires row.hash in rows && row.hash !in done && row.info == rows[row.hash].info
    ensures Copied(metadata[id := row], aliases[Identity(KindV1, row.hash) := id], rows, done + {row.hash})
    ensures row.hash !in RowHashes(metadata) && Identity(KindV1, row.hash) !in aliases
    ensures forall a :: a in aliases ==> aliases[a] != id
  {
    NewHash(metadata, id, row);
    forall a | a in aliases ensures a.hash in done {
      assert metadata[aliases[a]].hash in RowHashes(metadata);
    }
  }

  /** INSERT of one row, its v1 alias and its link. */
  method CopyRow(db: Db, rows: map<Name, OldRow>, h: Name, ghost done: set<Name>) returns (p: Db)
    requires Consistent(db) && Copied(db.metadata, db.aliases, rows, done)
    requires h in rows && h !in done && h in db.hashes && |h| == 20 && 1 <= |rows[h].info| <= MAX_INFO
    ensures Consistent(p) && Copied(p.metadata, p.aliases, rows, done + {h})
    ensures p.catalog == db.catalog && p.hashes == db.hashes
    ensures var id := FreshId(db.metadata);
      && id !in db.metadata && p.metadata == db.metadata[id := Row(h, rows[h].info, rows[h].fetchedAt)]
      && p.swarm == Linked(db.swarm, h, id, V1Full)
  {
    var row, id := Row(h, rows[h].info, rows[h].fetchedAt), FreshId(db.metadata);
    CopyStep(db.metadata, db.aliases, rows, done, id, row);
    InsertMetadataKeeps(db, row);
    p := InsertMetadata(db, row);
    assert OneAliasPerKind(p.aliases[Identity(KindV1, h) := id]);
    AliasesKeep(p, p.aliases[Identity(KindV1, h) := id]);
    p := InsertAlias(p, Identity(KindV1, h), id);
    LinkAlone(p, h, id, V1Full);
    p := UpsertLink(p, h, id, V1Full);
  }

  lemma LinkStep(metadata: map<nat, Row>, swarm: map<Link, Label>, id: nat, row: Row)
    requires LinkedAlone(metadata, swarm) && id !in metadata
    ensures LinkedAlone(metadata[id := row], Linked(swarm, row.hash, id, V1Full))
  {}

  lemma LinkAlone(db: Db, key: Name, id: nat, proof: Label)
    requires Consistent(db) && id in db.metadata && key in db.hashes
    ensures Consistent(UpsertLink(db, key, id, proof))
  {}

  method CopyRows(rows: map<Name, OldRow>, hashes: map<Name, Seen>) returns (db: Db)
    requires OldTables(rows, {}, hashes)
    ensures Consistent(db) && Copied(db.metadata, db.aliases, rows, rows.Keys) && LinkedAlone(db.metadata, db.swarm)
    ensures db.catalog == map[]
  {
    db := Db(map[], map[], map[], map[], Counters(0, 0, 0), hashes, map[], map[]);
    var todo := rows.Keys;
    assert KnownRows(db.catalog) == {} && UnclearRows(db.catalog) == {};
    while todo != {}
      invariant todo <= rows.Keys && Consistent(db) && db.catalog == map[] && db.hashes == hashes
      invariant Copied(db.metadata, db.aliases, rows, rows.Keys - todo) && LinkedAlone(db.metadata, db.swarm)
      decreases |todo|
    {
      var h :| h in todo;
      assert rows.Keys - todo + {h} == rows.Keys - (todo - {h});
      LinkStep(db.metadata, db.swarm, FreshId(db.metadata), Row(h, rows[h].info, rows[h].fetchedAt));
      db := CopyRow(db, rows, h, rows.Keys - todo);
      todo := todo - {h};
    }
  }

  /** INSERT of one old catalog row with unknown coverage. */
  method PutUnknown(db: Db, h: Name) returns (p: Db)
    requires Consistent(db) && h in RowHashes(db.metadata)
    ensures Consistent(p) && p == db.(catalog := db.catalog[h := CatalogRow(None, true)], counters := p.counters)
  {
    PutCatalogKeeps(db, h, CatalogRow(None, true));
    p := PutCatalogRow(db, h, CatalogRow(None, true));
  }

  function Unknowns(hashes: set<Name>): map<Name, CatalogRow> { map h | h in hashes :: CatalogRow(None, true) }

  lemma UnknownCounts(hashes: set<Name>, h: Name)
    ensures KnownRows(Unknowns(hashes)) == {} && UnclearRows(Unknowns(hashes)) == hashes == Unknowns(hashes).Keys
    ensures Unknowns(hashes)[h := CatalogRow(None, true)] == Unknowns(hashes + {h})
  {}

  method CopyCatalog(db: Db, catalog: set<Name>) returns (p: Db)
    requires Consistent(db) && db.catalog == map[] && catalog <= RowHashes(db.metadata)
    ensures Consistent(p) && p == db.(catalog := Unknowns(catalog), counters := p.counters)
  {
    p := db;
    var todo, done := catalog, {};
    while todo != {}
      invariant todo <= catalog && done == catalog - todo && Consistent(p)
      invariant p == db.(catalog := Unknowns(done), counters := p.counters)
      decreases |todo|
    {
      var h :| h in todo;
      UnknownCounts(done, h);
      p := PutUnknown(p, h);
      todo, done := todo - {h}, done + {h};
    }
    assert done == catalog;
  }

  /** The aliases that the upgrade makes for damaged rows: hashes that are no digest of their bytes. */
  ghost function DamagedOld(env: Env, rows: map<Name, OldRow>): set<Identity> {
    set h | h in rows && env.sha1(rows[h].info) != h :: Identity(KindV1, h)
  }

  lemma CopiedIsInv(db: Db, env: Env, rows: map<Name, OldRow>)
    requires Consistent(db) && Copied(db.metadata, db.aliases, rows, rows.Keys)
    requires forall h :: h in rows ==> |h| == 20
    ensures Inv(db, env)
  {
    forall a | a in db.aliases ensures a == Identity(KindV1, a.hash) && db.metadata[db.aliases[a]].hash == a.hash {}
    forall i | i in db.metadata ensures Canonical(db.metadata[i].hash) in db.aliases {
      assert |db.metadata[i].hash| == 20;
    }
  }

  lemma CopiedDamage(db: Db, env: Env, rows: map<Name, OldRow>)
    requires Copied(db.metadata, db.aliases, rows, rows.Keys)
    ensures Damage(db, env) == DamagedOld(env, rows)
  {
    forall a | a in db.aliases ensures a == Identity(KindV1, a.hash) && a.hash in rows && BytesOf(db)[a] == rows[a.hash].info {}
    forall h | h in rows ensures Identity(KindV1, h) in db.aliases {
      assert h in RowHashes(db.metadata);
    }
  }

  lemma NoDamageMeansDigests(db: Db, env: Env)
    requires forall a :: a in db.aliases ==> db.aliases[a] in db.metadata
    ensures Damage(db, env) == {} <==> AliasesAreDigests(db.metadata, db.aliases, env)
  {
    assert forall a :: a in db.aliases ==> a in BytesOf(db);
    assert forall a :: a in Damage(db, env) <==> a in BytesOf(db) && !Genuine(env, a, BytesOf(db)[a]);
  }

  /**
    v5 gives rows an id, an alias and a link, and writes every old catalog row back as unknown. The
    invariants hold afterwards whatever the rows contain: an alias is wrong exactly for a damaged row.
   */
  method UpgradeV5(ghost env: Env, rows: map<Name, OldRow>, catalog: set<Name>, hashes: map<Name, Seen>)
    returns (db: Db)
    requires OldTables(rows, catalog, hashes)
    ensures Inv(db, env) && Damage(db, env) == DamagedOld(env, rows)
    ensures AliasesAreDigests(db.metadata, db.aliases, env) <==> forall h :: h in rows ==> env.sha1(rows[h].info) == h
    ensures Copied(db.metadata, db.aliases, rows, rows.Keys) && LinkedAlone(db.metadata, db.swarm)
    ensures db.catalog == Unknowns(catalog) && db.counters == Counters(0, |rows|, |catalog|)
  {
    var copied := CopyRows(rows, hashes);
    db := CopyCatalog(copied, catalog);
    UnknownCounts(catalog, []);
    RowHashesSize(db.metadata);
    assert |rows| == |rows.Keys|;
    CopiedIsInv(db, env, rows);
    CopiedDamage(db, env, rows);
    NoDamageMeansDigests(db, env);
    assert forall h :: h in rows && env.sha1(rows[h].info) != h ==> Identity(KindV1, h) in DamagedOld(env, rows);
  }

  /** Upgrade and then sweep: damaged rows keep their wrong alias and do not stop the rest. */
  method Migrate(env: Env, rows: map<Name, OldRow>, catalog: set<Name>, hashes: map<Name, Seen>)
    returns (store: MetadataStore, r: Outcome<Progress>, ghost migrated: Db)
    requires DigestLengths(env) && OldTables(rows, catalog, hashes)
    ensures fresh(store) && Inv(store.db, env) && Damage(store.db, env) == DamagedOld(env, rows)
    ensures Copied(migrated.metadata, migrated.aliases, rows, rows.Keys) && migrated.catalog == Unknowns(catalog)
    ensures r.Done? <==> Completable(migrated, env)
    ensures r.Done? ==> DueRows(store.db) == {} && store.db.counters.indexed == store.db.counters.total
  {
    var db := UpgradeV5(env, rows, catalog, hashes);
    migrated := db;
    store := new MetadataStore(db);
    r := BackfillAll(store, env);
  }

  /** One row whose hash is no digest of its bytes: the upgrade copies it, and its alias is wrong. */
  method DamagedRowIsCopied() returns (ghost env: Env, db: Db)
    ensures DigestLengths(env) && Inv(db, env) && !AliasesAreDigests(db.metadata, db.aliases, env)
  {
    var zeros, ones: Name := seq(20, _ => 0), seq(20, _ => 1);
    env := Env(_ => seq(20, _ => 0), _ => seq(32, _ => 0), _ => false, _ => false, _ => true, _ => false);
    var rows := map[ones := OldRow([0], 0)];
    assert env.sha1([0]) == zeros && zeros[0] != ones[0];
    db := UpgradeV5(env, rows, {}, map[ones := Seen(0, 0)]);
  }

  lemma NewHash(metadata: map<nat, Row>, id: nat, row: Row)
    requires id !in metadata
    ensures RowHashes(metadata[id := row]) == RowHashes(metadata) + {row.hash}
  {
    var now := metadata[id := row];
    forall i | i in metadata ensures metadata[i].hash in RowHashes(now) {
      assert now[i] == metadata[i];
    }
    assert now[id].hash == row.hash;
  }
}
