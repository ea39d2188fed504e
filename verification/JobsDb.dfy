/** The job queue tables and the counts that admission and claiming are based on. */
module JobsDb {
  import opened Orders
  import opened Records
  import opened Hints
  import Ranking

  type Hash = Name

  /** `saved` is the set of hashes that swarm_metadata mentions. */
  datatype Db = Db(jobs: map<Hash, Job>, hashes: map<Hash, Seen>, saved: set<Hash>, hints: Rows)

  const RECENT_MS: int := 1_800_000
  const DORMANT_DELAY_MS: int := 86_400_000

  predicate Active(j: Job) { j.state in {Pending, Running, RetryWait} }

  predicate Claimable(j: Job) { j.state in {Pending, RetryWait} }

  predicate IsRecent(db: Db, h: Hash, now: int) {
    h in db.hashes && now - RECENT_MS <= db.hashes[h].first <= now
  }

  /** A stored announcement that is still fresh and allowed by the address policy. */
  predicate HasFreshHint(db: Db, h: Hash, now: int, legal: Peer -> bool) {
    exists k :: k in db.hints && k.hash == h && db.hints[k] >= now - PEER_HINT_TTL_MS && legal(k.peer)
  }

  /** No hash has more stored announcements than a claim reads. */
  ghost predicate FewHints(db: Db) {
    forall h :: |HintsOf(db.hints, h)| <= MAX_PEER_HINTS
  }

  function ActiveSet(jobs: map<Hash, Job>): set<Hash> { set h | h in jobs && Active(jobs[h]) }

  function ActiveCount(db: Db): nat { |ActiveSet(db.jobs)| }

  /** Recent first attempts that still wait and have no fresh hint. */
  predicate WaitsFirst(db: Db, h: Hash, now: int, legal: Peer -> bool) {
    && h in db.jobs && db.jobs[h].generation == 0 && Claimable(db.jobs[h])
    && IsRecent(db, h, now) && !HasFreshHint(db, h, now, legal)
  }

  function WaitingSet(db: Db, now: int, legal: Peer -> bool): set<Hash> {
    set h | h in db.jobs && WaitsFirst(db, h, now, legal)
  }

  function Floor(a: int, b: int): nat { if a > b then a - b else 0 }

  function Free(db: Db, limit: nat): nat { Floor(limit, ActiveCount(db)) }

  /** A new job may be made: none exists and nothing has been saved for the hash. */
  predicate Creatable(db: Db, h: Hash) { h !in db.jobs && h !in db.saved }

  predicate Revivable(db: Db, h: Hash, now: int) {
    && h in db.jobs && db.jobs[h].state == Dormant && db.jobs[h].updatedAt <= now - DORMANT_DELAY_MS
    && h !in db.saved
  }

  /** INSERT ... ON CONFLICT DO NOTHING, then the revival UPDATE if nothing was inserted. */
  function Enqueued(db: Db, h: Hash, now: int): Db {
    if Creatable(db, h) then db.(jobs := db.jobs[h := Job(Pending, 0, now, 0, now)])
    else if Revivable(db, h, now) then
      db.(jobs := db.jobs[h := db.jobs[h].(state := Pending, attempts := 0, dueAt := now, updatedAt := now)])
    else db
  }

  /** No transaction deletes a job or lowers its generation. */
  ghost predicate Evolves(before: map<Hash, Job>, after: map<Hash, Job>) {
    forall h :: h in before ==> h in after && before[h].generation <= after[h].generation
  }

  predicate Admits(db: Db, h: Hash, now: int) { Creatable(db, h) || Revivable(db, h, now) }

  lemma ActivePut(jobs: map<Hash, Job>, h: Hash, j: Job)
    requires Active(j) && (h in jobs ==> !Active(jobs[h]))
    ensures |ActiveSet(jobs[h := j])| == |ActiveSet(jobs)| + 1
  {
    assert ActiveSet(jobs[h := j]) == ActiveSet(jobs) + {h};
  }

  /** One admission adds exactly one active job. */
  lemma EnqueuedCounts(db: Db, h: Hash, now: int)
    ensures ActiveCount(Enqueued(db, h, now)) == ActiveCount(db) + if Admits(db, h, now) then 1 else 0
  {
    if Admits(db, h, now) {
      ActivePut(db.jobs, h, Enqueued(db, h, now).jobs[h]);
    }
  }

  /** The first-attempt queue grows by at most the admitted hash, and only if that hash is recent. */
  lemma EnqueuedWaiting(db: Db, h: Hash, now: int, legal: Peer -> bool)
    ensures |WaitingSet(Enqueued(db, h, now), now, legal)| <=
      |WaitingSet(db, now, legal)| + if Admits(db, h, now) && IsRecent(db, h, now) then 1 else 0
  {
    var after := Enqueued(db, h, now);
    var grown := WaitingSet(db, now, legal) + if Admits(db, h, now) && IsRecent(db, h, now) then {h} else {};
    forall g | g in WaitingSet(after, now, legal) ensures g in grown {
      assert HasFreshHint(after, g, now, legal) == HasFreshHint(db, g, now, legal);
      if g != h { assert WaitsFirst(db, g, now, legal); }
    }
    Ranking.SubsetSize(WaitingSet(after, now, legal), grown);
  }
}
