/**
  The two backfill sweeps over stored hashes. Each call is one transaction on one page; the chain of
  calls is what `PagedSweep` shows to be complete.
 */
module Backfill {
  import opened Common
  import opened Orders
  import opened Hints
  import opened Records
  import opened JobsDb
  import opened Admission
  import Discovery
  import opened Ranking
  import PS = PagedSweep

  const HISTORY_PAGE: nat := 256
  const RECENT_PAGE: nat := 128

  /** Existing jobs keep their rows and every scanned hash that could get a job has an active one. */
  ghost predicate JobsGrow(before: Db, after: Db, scanned: seq<Hash>) {
    && (forall h :: h in before.jobs ==> h in after.jobs && after.jobs[h] == before.jobs[h])
    && (forall h :: h in after.jobs ==> h in before.jobs || h in scanned)
    && after.hashes == before.hashes && after.saved == before.saved
  }

  lemma CreateGrows(before: Db, mid: Db, scanned: seq<Hash>, h: Hash, now: int)
    requires JobsGrow(before, mid, scanned) && Creatable(mid, h)
    ensures JobsGrow(before, Enqueued(mid, h, now), scanned + [h])
  {}

  lemma SkipGrows(before: Db, mid: Db, scanned: seq<Hash>, h: Hash)
    requires JobsGrow(before, mid, scanned)
    ensures JobsGrow(before, mid, scanned + [h])
  {}

  // ---- the history sweep, by hash

  /** Outside the recent window, or anywhere when the buffer is off. */
  predicate InHistory(db: Db, h: Hash, now: int, c: Config) { c.recentLimit == 0 || !IsRecent(db, h, now) }

  ghost predicate HistoryDone(before: Db, after: Db, scanned: seq<Hash>, now: int, c: Config) {
    forall h :: h in scanned && Creatable(before, h) && InHistory(before, h, now, c) ==> h in after.jobs && Active(after.jobs[h])
  }

  /** The page as the sweep sees it. */
  ghost function HistoryPage(db: Db, cursor: Option<Hash>, next: Option<Hash>, scanned: seq<Hash>,
                             blocked: bool): PS.Page<Hash> {
    PS.Page(db.hashes.Keys, cursor, next, scanned, blocked)
  }

  function After(db: Db, cursor: Option<Hash>): set<Hash> {
    set h | h in db.hashes && (cursor.None? || NameLess(cursor.value, h))
  }

  /** Blocked exactly when no slot is free for a job outside the recent window. */
  ghost predicate HistoryBlocked(db: Db, c: Config) {
    Free(db, c.limit) == 0 || (c.recentLimit != 0 && Free(db, c.limit) <= Reserve(c))
  }

  ghost predicate Bounded(before: Db, after: Db, limit: nat) {
    ActiveCount(after) <= if limit > ActiveCount(before) then limit else ActiveCount(before)
  }

  /** One scanned row: a job is created unless there is one, the hash is saved, or it is too recent. */
  method ScanHistory(store: JobStore, quota: Quota, h: Hash, now: int, c: Config, ghost before: Db,
                     ghost scanned: seq<Hash>)
    requires quota.Agrees(store.db, c) && quota.HasHistoryRoom() && h in before.hashes && h !in scanned
    requires JobsGrow(before, store.db, scanned) && HistoryDone(before, store.db, scanned, now, c)
    modifies store, quota
    ensures quota.Agrees(store.db, c)
    ensures JobsGrow(before, store.db, scanned + [h]) && HistoryDone(before, store.db, scanned + [h], now, c)
    ensures Bounded(old(store.db), store.db, c.limit)
  {
    if Creatable(store.db, h) && InHistory(store.db, h, now, c) {
      CreateGrows(before, store.db, scanned, h, now);
      var used := quota.Enqueue(store, h, now, c, quota.recent + |WaitingSet(store.db, now, c.legal)|);
      assert used == 1;
    } else {
      SkipGrows(before, store.db, scanned, h);
    }
  }

  method ScanHistoryPage(store: JobStore, quota: Quota, page: seq<Hash>, now: int, c: Config)
    returns (scanned: seq<Hash>)
    requires quota.Agrees(store.db, c) && quota.HasHistoryRoom()
    requires (forall h :: h in page ==> h in store.db.hashes) && forall i, j :: 0 <= i < j < |page| ==>
      page[i] != page[j]
    modifies store, quota
    ensures scanned <= page && (page != [] ==> scanned != [])
    ensures JobsGrow(old(store.db), store.db, scanned) && HistoryDone(old(store.db), store.db, scanned, now, c)
    ensures Bounded(old(store.db), store.db, c.limit)
  {
    ghost var before := store.db;
    scanned := [];
    for k := 0 to |page|
      invariant quota.Agrees(store.db, c) && (k == 0 ==> quota.HasHistoryRoom()) && scanned == page[..k]
      invariant JobsGrow(before, store.db, scanned) && HistoryDone(before, store.db, scanned, now, c)
      invariant Bounded(before, store.db, c.limit)
    {
      if !quota.HasHistoryRoom() {
        return;
      }
      assert page[k] in page && page[..k + 1] == page[..k] + [page[k]];
      ScanHistory(store, quota, page[k], now, c, before, scanned);
      scanned := scanned + [page[k]];
    }
  }

  /**
    A blocked call hands its cursor back. Otherwise it scans a leading part of the page beyond the
    cursor, and every scanned hash that may have a job has an active one afterwards.
   */
  method BackfillPage(store: JobStore, cursor: Option<Hash>, now: nat, c: Config)
    returns (next: Option<Hash>, ghost scanned: seq<Hash>)
    modifies store
    ensures StrictTotal(NameLess)
    ensures PS.PageStep(HistoryPage(old(store.db), cursor, next, scanned, HistoryBlocked(old(store.db), c)), NameLess)
    ensures JobsGrow(old(store.db), store.db, scanned) && HistoryDone(old(store.db), store.db, scanned, now, c)
    ensures Bounded(old(store.db), store.db, c.limit)
  {
    NameOrder();
    var quota := new Quota(store, now, c);
    next, scanned := cursor, [];
    if quota.HasHistoryRoom() {
      ghost var hashes := store.db.hashes.Keys;
      var size := if c.recentLimit == 0 then HISTORY_PAGE else HISTORY_PAGE / 2;
      var rows := After(store.db, cursor);
      assert PS.Beyond(hashes, cursor, NameLess) == rows;
      PS.PageIsPrefix(rows, NameLess, size);
      var page := Limit(rows, NameLess, size);
      var done := ScanHistoryPage(store, quota, page, now, c);
      PS.PrefixIsStep(hashes, cursor, NameLess, page, done);
      next := if done == [] then None else Some(done[|done| - 1]);
      scanned := done;
    }
    var _ := Discovery.CleanupExpired(store, now);
  }

  // ---- the recent sweep, by first sighting and then hash

  datatype RecentKey = RecentKey(first: int, hash: Hash)

  predicate RecentKeyLess(a: RecentKey, b: RecentKey) {
    a.first < b.first || (a.first == b.first && NameLess(a.hash, b.hash))
  }

  lemma RecentKeyOrder()
    ensures StrictTotal(RecentKeyLess)
  {
    NameOrder();
  }

  ghost function RecentWindow(db: Db, now: int): set<RecentKey> {
    set h | h in db.hashes && IsRecent(db, h, now) :: RecentKey(db.hashes[h].first, h)
  }

  /** The query's single lower bound: an outdated cursor falls back to the start of the window. */
  function LowerBound(cursor: Option<RecentKey>, now: int): RecentKey {
    if cursor.Some? && cursor.value.first >= now - RECENT_MS then cursor.value else RecentKey(now - RECENT_MS, [])
  }

  function RecentRows(db: Db, cursor: Option<RecentKey>, now: int): set<RecentKey> {
    set h |
      && h in db.hashes && db.hashes[h].first <= now
      && RecentKeyLess(LowerBound(cursor, now), RecentKey(db.hashes[h].first, h))
      :: RecentKey(db.hashes[h].first, h)
  }

  /** That bound selects exactly the window rows beyond the cursor. */
  lemma BoundIsCursor(db: Db, cursor: Option<RecentKey>, now: int)
    requires forall h :: h in db.hashes ==> h != []
    ensures RecentRows(db, cursor, now) == PS.Beyond(RecentWindow(db, now), cursor, RecentKeyLess)
  {
    var rows, beyond := RecentRows(db, cursor, now), PS.Beyond(RecentWindow(db, now), cursor, RecentKeyLess);
    forall k | k in rows ensures k in beyond {
      assert k in RecentWindow(db, now);
    }
    forall k | k in beyond ensures k in rows {
      assert NameLess([], k.hash);
    }
  }

  ghost function Hashes(keys: seq<RecentKey>): seq<Hash> { seq(|keys|, i requires 0 <= i < |keys| => keys[i].hash) }

  ghost predicate RecentDone(before: Db, after: Db, scanned: seq<RecentKey>) {
    forall k :: k in scanned && Creatable(before, k.hash) ==> k.hash in after.jobs && Active(after.jobs[k.hash])
  }

  method ScanRecent(store: JobStore, quota: Quota, k: RecentKey, now: int, c: Config, ghost before: Db,
                    ghost scanned: seq<RecentKey>, ghost most: nat)
    requires quota.Agrees(store.db, c) && quota.WithinBuffer(store.db, c, now, most)
    requires quota.total > 0 && quota.recent > 0
    requires k.hash in before.hashes && IsRecent(before, k.hash, now) && k !in scanned
    requires JobsGrow(before, store.db, Hashes(scanned)) && RecentDone(before, store.db, scanned)
    requires forall j :: j in scanned ==> j.hash != k.hash
    modifies store, quota
    ensures quota.Agrees(store.db, c) && quota.WithinBuffer(store.db, c, now, most)
    ensures JobsGrow(before, store.db, Hashes(scanned + [k])) && RecentDone(before, store.db, scanned + [k])
    ensures Bounded(old(store.db), store.db, c.limit)
  {
    assert Hashes(scanned + [k]) == Hashes(scanned) + [k.hash];
    if k.hash !in store.db.jobs && k.hash !in store.db.saved {
      CreateGrows(before, store.db, Hashes(scanned), k.hash, now);
      var used := quota.Enqueue(store, k.hash, now, c, most);
      assert used == 1;
    } else {
      SkipGrows(before, store.db, Hashes(scanned), k.hash);
    }
  }

  method ScanRecentPage(store: JobStore, quota: Quota, page: seq<RecentKey>, now: int, c: Config, ghost most: nat)
    returns (scanned: seq<RecentKey>)
    requires quota.Agrees(store.db, c) && quota.WithinBuffer(store.db, c, now, most)
    requires quota.total > 0 && quota.recent > 0
    requires forall k :: k in page ==> k.hash in store.db.hashes && IsRecent(store.db, k.hash, now)
    requires forall i, j :: 0 <= i < j < |page| ==> page[i].hash != page[j].hash
    modifies store, quota
    ensures scanned <= page && (page != [] ==> scanned != [])
    ensures quota.WithinBuffer(store.db, c, now, most) && (c.recentLimit != 0 <==> quota.enabled)
    ensures JobsGrow(old(store.db), store.db, Hashes(scanned)) && RecentDone(old(store.db), store.db, scanned)
    ensures Bounded(old(store.db), store.db, c.limit)
  {
    ghost var before := store.db;
    scanned := [];
    for k := 0 to |page|
      invariant quota.Agrees(store.db, c) && quota.WithinBuffer(store.db, c, now, most)
      invariant scanned == page[..k] && quota.total > 0 && quota.recent > 0
      invariant JobsGrow(before, store.db, Hashes(scanned)) && RecentDone(before, store.db, scanned)
      invariant Bounded(before, store.db, c.limit)
    {
      assert page[k] in page && page[..k + 1] == page[..k] + [page[k]];
      ScanRecent(store, quota, page[k], now, c, before, scanned, most);
      scanned := scanned + [page[k]];
      if quota.total == 0 || quota.recent == 0 {
        return;
      }
    }
  }

  ghost predicate RecentBlocked(db: Db, now: int, c: Config) {
    Free(db, c.limit) == 0 || (c.recentLimit != 0 && c.recentLimit <= |WaitingSet(db, now, c.legal)|)
  }

  /** The same step over the recent window; the first-attempt queue never outgrows the buffer. */
  method BackfillRecentPage(store: JobStore, cursor: Option<RecentKey>, now: int, c: Config)
    returns (next: Option<RecentKey>, ghost scanned: seq<RecentKey>)
    requires forall h :: h in store.db.hashes ==> h != []
    modifies store
    ensures StrictTotal(RecentKeyLess)
    ensures PS.PageStep(
      PS.Page(RecentWindow(old(store.db), now), cursor, next, scanned, RecentBlocked(old(store.db), now, c)), RecentKeyLess)
    ensures JobsGrow(old(store.db), store.db, Hashes(scanned)) && RecentDone(old(store.db), store.db, scanned)
    ensures Bounded(old(store.db), store.db, c.limit)
    ensures c.recentLimit != 0 ==>
      |WaitingSet(store.db, now, c.legal)| <= Larger(|WaitingSet(old(store.db), now, c.legal)|, c.recentLimit)
  {
    RecentKeyOrder();
    var quota := new Quota(store, now, c);
    assert quota.total == 0 || quota.recent == 0 <==> RecentBlocked(store.db, now, c);
    if quota.total == 0 || quota.recent == 0 {
      assert Hashes([]) == [];
      return cursor, [];
    }
    var done := SweepRecent(store, quota, cursor, now, c, quota.recent + |WaitingSet(store.db, now, c.legal)|);
    return if done == [] then None else Some(done[|done| - 1]), done;
  }

  function Larger(a: nat, b: nat): nat { if a > b then a else b }

  method SweepRecent(store: JobStore, quota: Quota, cursor: Option<RecentKey>, now: int, c: Config, ghost most: nat)
    returns (done: seq<RecentKey>)
    requires StrictTotal(RecentKeyLess) && forall h :: h in store.db.hashes ==> h != []
    requires quota.Agrees(store.db, c) && quota.WithinBuffer(store.db, c, now, most)
    requires quota.total > 0 && quota.recent > 0
    modifies store, quota
    ensures PS.PageStep(PS.Page(RecentWindow(old(store.db), now), cursor, PS.NextOf(done), done, false), RecentKeyLess)
    ensures JobsGrow(old(store.db), store.db, Hashes(done)) && RecentDone(old(store.db), store.db, done)
    ensures Bounded(old(store.db), store.db, c.limit)
    ensures c.recentLimit != 0 ==> |WaitingSet(store.db, now, c.legal)| <= most
  {
    ghost var window := RecentWindow(store.db, now);
    BoundIsCursor(store.db, cursor, now);
    var rows := RecentRows(store.db, cursor, now);
    PS.PageIsPrefix(rows, RecentKeyLess, RECENT_PAGE);
    var page := Limit(rows, RecentKeyLess, RECENT_PAGE);
    OneKeyPerHash(store.db, cursor, now, page);
    done := ScanRecentPage(store, quota, page, now, c, most);
    PS.PrefixIsStep(window, cursor, RecentKeyLess, page, done);
  }

  lemma OneKeyPerHash(db: Db, cursor: Option<RecentKey>, now: int, page: seq<RecentKey>)
    requires forall k :: k in page ==> k in RecentRows(db, cursor, now)
    requires forall i, j :: 0 <= i < j < |page| ==> page[i] != page[j]
    ensures forall k :: k in page ==>
      k.hash in db.hashes && k.first == db.hashes[k.hash].first && IsRecent(db, k.hash, now)
    ensures forall i, j :: 0 <= i < j < |page| ==> page[i].hash != page[j].hash
  {
    NameOrder();
    forall k | k in page ensures k.hash in db.hashes && k.first == db.hashes[k.hash].first && IsRecent(db, k.hash, now) {
      assert k in RecentRows(db, cursor, now);
    }
    forall i, j | 0 <= i < j < |page| ensures page[i].hash != page[j].hash {
      assert page[i] in page && page[j] in page;
    }
  }

  // ---- whole sweeps

  /** One call with everything its contract relates; other transactions run between calls. */
  datatype Call<K> = Call(before: Db, after: Db, now: int, config: Config, cursor: Option<K>, next: Option<K>, scanned: seq<K>)

  ghost predicate HistoryContract(c: Call<Hash>) {
    && StrictTotal(NameLess)
    && PS.PageStep(HistoryPage(c.before, c.cursor, c.next, c.scanned, HistoryBlocked(c.before, c.config)), NameLess)
    && JobsGrow(c.before, c.after, c.scanned) && HistoryDone(c.before, c.after, c.scanned, c.now, c.config)
  }

  ghost predicate RecentContract(c: Call<RecentKey>) {
    && StrictTotal(RecentKeyLess)
    && PS.PageStep(
      PS.Page(RecentWindow(c.before, c.now), c.cursor, c.next, c.scanned, RecentBlocked(c.before, c.now, c.config)),
      RecentKeyLess)
    && JobsGrow(c.before, c.after, Hashes(c.scanned)) && RecentDone(c.before, c.after, c.scanned)
  }

  ghost predicate ChainedCalls<K(!new)>(calls: seq<Call<K>>) {
    && calls != [] && calls[0].cursor.None? && calls[|calls| - 1].next.None?
    && (forall i :: 0 <= i < |calls| - 1 ==> calls[i].next.Some? && calls[i + 1].cursor == calls[i].next)
  }

  ghost function HistoryPages(calls: seq<Call<Hash>>): seq<PS.Page<Hash>> {
    seq(|calls|, i requires 0 <= i < |calls| =>
      var c := calls[i]; HistoryPage(c.before, c.cursor, c.next, c.scanned, HistoryBlocked(c.before, c.config)))
  }

  ghost function RecentPages(calls: seq<Call<RecentKey>>): seq<PS.Page<RecentKey>> {
    seq(|calls|, i requires 0 <= i < |calls| =>
      var c := calls[i];
      PS.Page(RecentWindow(c.before, c.now), c.cursor, c.next, c.scanned, RecentBlocked(c.before, c.now, c.config)))
  }

  lemma {:induction false} ScannedBy<T>(pages: seq<PS.Page<T>>, k: T)
    requires k in PS.Scanned(pages)
    ensures exists i :: 0 <= i < |pages| && k in pages[i].scanned
    decreases |pages|
  {
    if k !in pages[|pages| - 1].scanned {
      ScannedBy(pages[..|pages| - 1], k);
      var i :| 0 <= i < |pages| - 1 && k in pages[..|pages| - 1][i].scanned;
      assert k in pages[i].scanned;
    }
  }

  /**
    A finished history sweep that was not blocked at its first call has scanned every hash that was
    stored throughout, in ascending order, and left an active job wherever one was due.
   */
  lemma HistorySweepIsComplete(calls: seq<Call<Hash>>, h: Hash)
    requires ChainedCalls(calls)
    requires forall i :: 0 <= i < |calls| ==> HistoryContract(calls[i]) && h in calls[i].before.hashes
    ensures StrictTotal(NameLess) && Ascends(PS.Scanned(HistoryPages(calls)), NameLess)
    ensures HistoryBlocked(calls[0].before, calls[0].config) ==> PS.Scanned(HistoryPages(calls)) == []
    ensures !HistoryBlocked(calls[0].before, calls[0].config) ==>
      exists i :: 0 <= i < |calls| && h in calls[i].scanned
        && (Creatable(calls[i].before, h) && InHistory(calls[i].before, h, calls[i].now, calls[i].config) ==>
              h in calls[i].after.jobs && Active(calls[i].after.jobs[h]))
  {
    HistoryIsSweep(calls, h);
    var pages := HistoryPages(calls);
    PS.SweepIsComplete(pages, {h}, NameLess);
    if pages[0].blocked {
      PS.BlockedSweepIsEmpty(pages, NameLess);
    } else {
      assert h in PS.Scanned(pages);
      ScannedBy(pages, h);
      var i :| 0 <= i < |pages| && h in pages[i].scanned;
      ScannedHashIsServed(calls[i], h);
    }
  }

  lemma HistoryIsSweep(calls: seq<Call<Hash>>, h: Hash)
    requires ChainedCalls(calls)
    requires forall i :: 0 <= i < |calls| ==> HistoryContract(calls[i]) && h in calls[i].before.hashes
    ensures var pages := HistoryPages(calls);
      StrictTotal(NameLess) && PS.Sweep(pages, NameLess) && forall i :: 0 <= i < |pages| ==> {h} <= pages[i].visible
  {
    NameOrder();
    var pages := HistoryPages(calls);
    forall i | 0 <= i < |pages| ensures PS.PageStep(pages[i], NameLess) && {h} <= pages[i].visible {
      assert HistoryContract(calls[i]);
    }
  }

  lemma ScannedHashIsServed(c: Call<Hash>, h: Hash)
    requires HistoryContract(c) && h in c.scanned
    ensures Creatable(c.before, h) && InHistory(c.before, h, c.now, c.config) ==>
      h in c.after.jobs && Active(c.after.jobs[h])
  {}

  /** The same for the recent sweep and a hash that keeps its first sighting and stays in the window. */
  lemma RecentSweepIsComplete(calls: seq<Call<RecentKey>>, k: RecentKey)
    requires ChainedCalls(calls)
    requires forall i :: 0 <= i < |calls| ==>
      RecentContract(calls[i]) && k in RecentWindow(calls[i].before, calls[i].now)
    ensures StrictTotal(RecentKeyLess) && Ascends(PS.Scanned(RecentPages(calls)), RecentKeyLess)
    ensures RecentBlocked(calls[0].before, calls[0].now, calls[0].config) ==> PS.Scanned(RecentPages(calls)) == []
    ensures !RecentBlocked(calls[0].before, calls[0].now, calls[0].config) ==>
      exists i :: 0 <= i < |calls| && k in calls[i].scanned
        && (Creatable(calls[i].before, k.hash) ==> k.hash in calls[i].after.jobs && Active(calls[i].after.jobs[k.hash]))
  {
    RecentIsSweep(calls, k);
    var pages := RecentPages(calls);
    PS.SweepIsComplete(pages, {k}, RecentKeyLess);
    if pages[0].blocked {
      PS.BlockedSweepIsEmpty(pages, RecentKeyLess);
    } else {
      assert k in PS.Scanned(pages);
      ScannedBy(pages, k);
      var i :| 0 <= i < |pages| && k in pages[i].scanned;
      ScannedKeyIsServed(calls[i], k);
    }
  }

  lemma RecentIsSweep(calls: seq<Call<RecentKey>>, k: RecentKey)
    requires ChainedCalls(calls)
    requires forall i :: 0 <= i < |calls| ==>
      RecentContract(calls[i]) && k in RecentWindow(calls[i].before, calls[i].now)
    ensures var pages := RecentPages(calls);
      StrictTotal(RecentKeyLess) && PS.Sweep(pages, RecentKeyLess) && forall i :: 0 <= i < |pages| ==> {k} <= pages[i].visible
  {
    RecentKeyOrder();
    var pages := RecentPages(calls);
    forall i | 0 <= i < |pages| ensures PS.PageStep(pages[i], RecentKeyLess) && {k} <= pages[i].visible {
      assert RecentContract(calls[i]);
    }
  }

  lemma ScannedKeyIsServed(c: Call<RecentKey>, k: RecentKey)
    requires RecentContract(c) && k in c.scanned
    ensures Creatable(c.before, k.hash) ==> k.hash in c.after.jobs && Active(c.after.jobs[k.hash])
  {}
}
