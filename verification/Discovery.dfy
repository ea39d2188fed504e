/**
  The two ways a hash is discovered, each one transaction: a segment of sampled hashes and an
  announcement from a peer. Both merge observation times into the hash table and may admit jobs.
 */
module Discovery {
  import opened Orders
  import opened Records
  import opened Hints
  import opened JobsDb
  import opened Admission
  import opened Ranking

  type Table = map<Hash, Seen>

  datatype Obs = Obs(hash: Hash, at: int)

  datatype Outcome<+T> = Done(value: T) | Invalid | Capacity

  const SEGMENT: nat := 1024

  /** A segment upserted row by row. */
  function Saved(t: Table, hashes: seq<Hash>, at: int): Table {
    if hashes == [] then t else Upserted(Saved(t, hashes[..|hashes| - 1], at), hashes[|hashes| - 1], at)
  }

  // ---- what the table means: earliest and latest over a set of observations

  ghost predicate RowIs(start: Table, obs: set<Obs>, h: Hash, row: Seen) {
    && (h in start ==> row.first <= start[h].first && start[h].last <= row.last)
    && (forall o :: o in obs && o.hash == h ==> row.first <= o.at <= row.last)
    && ((h in start && row.first == start[h].first) || Obs(h, row.first) in obs)
    && ((h in start && row.last == start[h].last) || Obs(h, row.last) in obs)
  }

  ghost predicate IsMerge(start: Table, obs: set<Obs>, t: Table) {
    && (forall h :: h in start ==> h in t)
    && (forall o :: o in obs ==> o.hash in t)
    && (forall h :: h in t ==> RowIs(start, obs, h, t[h]))
  }

  /** The merge is determined by the set of observations: neither order nor repetition matters. */
  lemma MergeIsUnique(start: Table, obs: set<Obs>, t: Table, u: Table)
    requires IsMerge(start, obs, t) && IsMerge(start, obs, u)
    ensures t == u
  {
    forall h ensures h in t <==> h in u {
      assert h in t ==> RowIs(start, obs, h, t[h]);
      assert h in u ==> RowIs(start, obs, h, u[h]);
    }
    forall h | h in t && h in u ensures t[h] == u[h] {
      assert RowIs(start, obs, h, t[h]) && RowIs(start, obs, h, u[h]);
    }
  }

  lemma UpsertMerges(start: Table, obs: set<Obs>, t: Table, h: Hash, at: int)
    requires IsMerge(start, obs, t)
    ensures IsMerge(start, obs + {Obs(h, at)}, Upserted(t, h, at))
  {
    var t' := Upserted(t, h, at);
    forall g | g in t' ensures RowIs(start, obs + {Obs(h, at)}, g, t'[g]) {
      assert g in t ==> RowIs(start, obs, g, t[g]);
    }
  }

  function ObsOf(hashes: seq<Hash>, at: int): set<Obs> { set h | h in hashes :: Obs(h, at) }

  lemma {:induction false} SavedMerges(start: Table, obs: set<Obs>, t: Table, hashes: seq<Hash>, at: int)
    requires IsMerge(start, obs, t)
    ensures IsMerge(start, obs + ObsOf(hashes, at), Saved(t, hashes, at))
    decreases |hashes|
  {
    if hashes == [] {
      assert obs + ObsOf(hashes, at) == obs;
    } else {
      var before, last := hashes[..|hashes| - 1], hashes[|hashes| - 1];
      SavedMerges(start, obs, t, before, at);
      UpsertMerges(start, obs + ObsOf(before, at), Saved(t, before, at), last, at);
      assert hashes == before + [last];
      assert obs + ObsOf(hashes, at) == obs + ObsOf(before, at) + {Obs(last, at)};
    }
  }

  /** Replaying a segment that has been merged changes nothing. */
  lemma ReplayChangesNothing(start: Table, obs: set<Obs>, t: Table, hashes: seq<Hash>, at: int)
    requires IsMerge(start, obs, t) && ObsOf(hashes, at) <= obs
    ensures Saved(t, hashes, at) == t
  {
    SavedMerges(start, obs, t, hashes, at);
    assert obs + ObsOf(hashes, at) == obs;
    MergeIsUnique(start, obs, t, Saved(t, hashes, at));
  }

  // ---- transactions

  function Largest(a: nat, b: nat): nat { if a > b then a else b }

  /** Save a segment of samples: every row is merged, and no quota is exceeded on the way. */
  method SaveHashes(store: JobStore, hashes: seq<Hash>, observedAt: int, admissionAt: int, c: Config)
    returns (r: Outcome<nat>)
    modifies store
    ensures r.Done? <==> |hashes| <= SEGMENT && observedAt >= 0 && admissionAt >= 0
    ensures !r.Done? ==> store.db == old(store.db)
    ensures r.Done? ==> store.db.hashes == Saved(old(store.db).hashes, hashes, observedAt) && r.value <= |hashes|
    ensures store.db.saved == old(store.db).saved && store.db.hints == old(store.db).hints
    ensures Evolves(old(store.db).jobs, store.db.jobs)
    ensures ActiveCount(store.db) <= Largest(c.limit, ActiveCount(old(store.db)))
  {
    if |hashes| > SEGMENT {
      return Capacity;
    }
    if observedAt < 0 || admissionAt < 0 {
      return Invalid;
    }
    var at := if c.recentLimit == 0 then observedAt else admissionAt;
    var quota := new Quota(store, at, c);
    var deferred := 0;
    for k := 0 to |hashes|
      invariant quota.Agrees(store.db, c) && deferred <= k
      invariant store.db.hashes == Saved(old(store.db).hashes, hashes[..k], observedAt)
      invariant store.db.saved == old(store.db).saved && store.db.hints == old(store.db).hints
      invariant Evolves(old(store.db).jobs, store.db.jobs)
      invariant ActiveCount(store.db) <= Largest(c.limit, ActiveCount(old(store.db)))
    {
      assert hashes[..k + 1][..k] == hashes[..k];
      store.db := store.db.(hashes := Upserted(store.db.hashes, hashes[k], observedAt));
      var waits := quota.Observe(store, hashes[k], at, c);
      deferred := deferred + if waits then 1 else 0;
    }
    assert hashes[..|hashes|] == hashes;
    return Done(deferred);
  }

  function AnnouncedJobs(db: Db, h: Hash, at: int, limit: nat): map<Hash, Job> {
    if Free(db, limit) > 0 then Enqueued(db, h, at).jobs else db.jobs
  }

  lemma AnnouncedJobsCount(db: Db, h: Hash, at: int, limit: nat)
    ensures var jobs := AnnouncedJobs(db, h, at, limit);
      && Evolves(db.jobs, jobs) && |ActiveSet(jobs)| <= Largest(limit, ActiveCount(db))
      && (|ActiveSet(jobs)| != ActiveCount(db) ==> Floor(limit, |ActiveSet(jobs)|) == Free(db, limit) - 1)
  {
    EnqueuedCounts(db, h, at);
  }

  predicate IsActive(db: Db, h: Hash) { h in db.jobs && Active(db.jobs[h]) }

  /**
    Save an announcement. It is refused exactly when the queue is full and the hash has no active
    job; otherwise the times are merged, the job is admitted if there is room, and the hints of the
    hash become the newest eight.
   */
  method DiscoverPeer(store: JobStore, h: Hash, peer: Peer, at: int, limit: nat) returns (r: Outcome<bool>)
    requires FewHints(store.db)
    modifies store
    ensures FewHints(store.db)
    ensures r.Invalid? <==> peer.port == 0 || at < 0
    ensures !r.Capacity?
    ensures r.Done? ==> (r.value <==> Free(old(store.db), limit) > 0 || IsActive(old(store.db), h))
    ensures r != Done(true) ==> store.db == old(store.db)
    ensures r == Done(true) ==>
      && store.db.hashes == Upserted(old(store.db).hashes, h, at) && store.db.saved == old(store.db).saved
      && store.db.jobs == AnnouncedJobs(old(store.db), h, at, limit)
      && HintsOf(store.db.hints, h) == Trim(Upsert(HintsOf(old(store.db).hints, h), peer, at))
      && forall g :: g != h ==> HintsOf(store.db.hints, g) == HintsOf(old(store.db).hints, g)
    ensures Evolves(old(store.db).jobs, store.db.jobs)
    ensures ActiveCount(store.db) <= Largest(limit, ActiveCount(old(store.db)))
    ensures ActiveCount(store.db) != ActiveCount(old(store.db)) ==>
      Free(store.db, limit) == Free(old(store.db), limit) - 1
  {
    if peer.port == 0 || at < 0 {
      return Invalid;
    }
    var free := Free(store.db, limit);
    if free == 0 && !IsActive(store.db, h) {
      return Done(false);
    }
    AnnouncedJobsCount(store.db, h, at, limit);
    var jobs := AnnouncedJobs(store.db, h, at, limit);
    KeepsFew(store.db, Key(h, peer), at);
    store.db := store.db.(
      jobs := jobs, hashes := Upserted(store.db.hashes, h, at), hints := Announced(store.db.hints, Key(h, peer), at));
    return Done(true);
  }

  /** Two slots, one of them reserved and one taken; the second hash was first seen long ago. */
  function ReserveExample(): Db {
    Db(map[[1] := Job(Running, 0, 0, 1, 0)], map[[1] := Seen(0, 0), [2] := Seen(0, 0)], {}, map[])
  }

  lemma ReserveExampleCounts(now: int)
    requires now > RECENT_MS
    ensures var db := ReserveExample();
      && FewHints(db) && ActiveCount(db) == 1 && Admits(db, [2], now) && ActiveCount(Enqueued(db, [2], now)) == 2
      && Upserted(db.hashes, [2], now)[[2]] == Seen(0, now)
  {
    var db := ReserveExample();
    assert ActiveSet(db.jobs) == {[1]};
    assert forall h :: HintsOf(db.hints, h) == map[];
    EnqueuedCounts(db, [2], now);
  }

  /** Announcing that hash, which is not recent, takes the reserved slot. */
  method AnnouncementReachesReserve(peer: Peer, now: nat) returns (store: JobStore, c: Config)
    requires peer.port != 0 && now > RECENT_MS
    ensures ActiveCount(store.db) == c.limit == 2 && Reserve(c) == 1 && Free(store.db, c.limit) < Reserve(c)
    ensures !IsRecent(store.db, [2], now)
  {
    c := Config(2, 1, p => true);
    store := new JobStore(ReserveExample());
    ReserveExampleCounts(now);
    var r := DiscoverPeer(store, [2], peer, now, 2);
  }

  lemma KeepsFew(db: Db, key: Key, at: nat)
    requires FewHints(db)
    ensures FewHints(db.(hints := Announced(db.hints, key, at)))
    ensures forall h :: HintsOf(Announced(db.hints, key, at), h) ==
                          if h == key.hash then Trim(Upsert(HintsOf(db.hints, h), key.peer, at)) else HintsOf(db.hints, h)
  {
    forall h ensures |HintsOf(Announced(db.hints, key, at), h)| <= MAX_PEER_HINTS
      && HintsOf(Announced(db.hints, key, at), h)
        == if h == key.hash then Trim(Upsert(HintsOf(db.hints, h), key.peer, at)) else HintsOf(db.hints, h)
    {
      AnnouncedHints(db.hints, key, at, h);
      TrimSize(Upsert(HintsOf(db.hints, h), key.peer, at));
    }
  }

  /** Delete at most one batch of expired hints, oldest first over the whole table. */
  method CleanupExpired(store: JobStore, now: nat) returns (ghost deleted: set<Key>)
    modifies store
    ensures var cutoff, rows := now - PEER_HINT_TTL_MS, old(store.db).hints;
      var expired := set k | k in rows && rows[k] < cutoff;
      && store.db == old(store.db).(hints := rows - deleted) && deleted <= expired
      && |deleted| == (if |expired| <= CLEANUP_BATCH_SIZE then |expired| else CLEANUP_BATCH_SIZE)
      && forall k, l :: k in deleted && l in expired - deleted ==> rows[k] <= rows[l]
    ensures forall h, p :: p in HintsOf(store.db.hints, h) <==>
      p in HintsOf(old(store.db).hints, h) && Key(h, p) !in deleted
    ensures forall h, p :: p in HintsOf(store.db.hints, h) ==>
      HintsOf(store.db.hints, h)[p] == HintsOf(old(store.db).hints, h)[p]
    ensures FewHints(old(store.db)) ==> FewHints(store.db)
  {
    var rows := store.db.hints;
    var cutoff := now - PEER_HINT_TTL_MS;
    var expired := set k | k in rows && rows[k] < cutoff;
    var order := OldestFirst(rows);
    OldestFirstOrder(rows);
    var batch := First(expired, order, CLEANUP_BATCH_SIZE);
    FirstSize(expired, order, CLEANUP_BATCH_SIZE);
    forall k, l | k in batch && l in expired - batch ensures rows[k] <= rows[l] {
      FirstComesFirst(expired, order, CLEANUP_BATCH_SIZE, k, l);
      assert Older(rows, k, l);
    }
    deleted := batch;
    store.db := store.db.(hints := rows - batch);
    FewerHints(rows, batch);
  }

  lemma FewerHints(rows: Rows, deleted: set<Key>)
    ensures forall h, p :: p in HintsOf(rows - deleted, h) <==> p in HintsOf(rows, h) && Key(h, p) !in deleted
    ensures forall h :: |HintsOf(rows - deleted, h)| <= |HintsOf(rows, h)|
  {
    forall h, p ensures p in HintsOf(rows - deleted, h) <==> p in HintsOf(rows, h) && Key(h, p) !in deleted {
      assert Key(h, p).peer == p;
    }
    forall h ensures |HintsOf(rows - deleted, h)| <= |HintsOf(rows, h)| {
      SubsetSize(HintsOf(rows - deleted, h).Keys, HintsOf(rows, h).Keys);
    }
  }
}
