/**
  Admission quotas of one batch, held in memory while jobs are created in the database. The three
  counters are shown to agree with the database after every operation.
 */
module Admission {
  import opened Orders
  import opened Hints
  import opened Records
  import opened JobsDb

  class JobStore {
    var db: Db

    constructor (initial: Db)
      ensures db == initial
    {
      db := initial;
    }
  }

  datatype Config = Config(limit: nat, recentLimit: nat, legal: Peer -> bool)

  function Reserve(c: Config): nat {
    var most := Floor(c.limit, 1);
    if c.recentLimit < most then c.recentLimit else most
  }

  /**
    Any admission takes one free slot, so it leaves the whole reserve free exactly when more than the
    reserve was free before.
   */
  lemma AdmissionLeavesReserve(db: Db, h: Hash, now: int, c: Config)
    requires Admits(db, h, now) && Free(db, c.limit) > 0
    ensures Free(Enqueued(db, h, now), c.limit) == Free(db, c.limit) - 1
    ensures Free(Enqueued(db, h, now), c.limit) >= Reserve(c) <==> Free(db, c.limit) > Reserve(c)
  {
    EnqueuedCounts(db, h, now);
  }

  class Quota {
    var total: nat
    var recent: nat
    var history: nat
    var enabled: bool

    /** The two counters that mirror the database: free slots, and free slots beyond the reserve. */
    ghost predicate Agrees(db: Db, c: Config)
      reads this
    {
      && total == Free(db, c.limit)
      && history == Floor(total, Reserve(c))
      && (enabled <==> c.recentLimit != 0)
    }

    /** What recent admissions may still add stays within the buffer, or within what was waiting. */
    ghost predicate WithinBuffer(db: Db, c: Config, now: int, most: nat)
      reads this
    {
      enabled ==> recent + |WaitingSet(db, now, c.legal)| <= most
    }

    constructor (store: JobStore, now: int, c: Config)
      ensures Agrees(store.db, c)
      ensures recent == if c.recentLimit == 0 then total else Floor(c.recentLimit, |WaitingSet(store.db, now, c.legal)|)
      ensures var waiting := |WaitingSet(store.db, now, c.legal)|;
        WithinBuffer(store.db, c, now, if waiting > c.recentLimit then waiting else c.recentLimit)
    {
      var free := if c.limit == 0 then 0 else Floor(c.limit, ActiveCount(store.db));
      total := free;
      recent := if c.recentLimit == 0 then free else Floor(c.recentLimit, |WaitingSet(store.db, now, c.legal)|);
      history := Floor(free, Reserve(c));
      enabled := c.recentLimit != 0;
    }

    predicate HasHistoryRoom()
      reads this
    {
      total > 0 && (!enabled || history > 0)
    }

    function Room(isRecent: bool): nat
      reads this
    {
      if !enabled then total
      else
        var quota := if isRecent then recent else history;
        if quota < total then quota else total
    }

    /**
      Admit one hash within the quota of its age. The counters keep agreeing with the database, the
      active jobs stay within the limit or what they were, and a hash that is not recent leaves the
      whole reserve free.
     */
    method Enqueue(store: JobStore, h: Hash, now: int, ghost c: Config, ghost most: nat) returns (used: nat)
      requires Agrees(store.db, c) && WithinBuffer(store.db, c, now, most) && h in store.db.hashes
      modifies this, store
      ensures Agrees(store.db, c) && WithinBuffer(store.db, c, now, most) && enabled == old(enabled)
      ensures used == (if old(Room(IsRecent(store.db, h, now))) > 0 && Admits(old(store.db), h, now) then 1 else 0)
      ensures store.db == if used == 1 then Enqueued(old(store.db), h, now) else old(store.db)
      ensures recent == Floor(old(recent), if IsRecent(store.db, h, now) then used else 0)
      ensures total + used == old(total) && ActiveCount(store.db) == ActiveCount(old(store.db)) + used
      ensures used == 1 ==> ActiveCount(store.db) <= c.limit
      ensures used == 1 && enabled && !IsRecent(store.db, h, now) ==> total >= Reserve(c)
    {
      var isRecent := IsRecent(store.db, h, now);
      var room := Room(isRecent);
      EnqueuedCounts(store.db, h, now);
      EnqueuedWaiting(store.db, h, now, c.legal);
      if room == 0 || !Admits(store.db, h, now) {
        return 0;
      }
      store.db := Enqueued(store.db, h, now);
      total := Floor(total, 1);
      history := Floor(history, 1);
      if isRecent {
        recent := Floor(recent, 1);
      }
      return 1;
    }

    /**
      A repeated observation. With the buffer on it may only revive a dormant job, which is charged
      to the total alone: it leaves the reserve free exactly when more than the reserve was free.
     */
    method Observe(store: JobStore, h: Hash, now: int, ghost c: Config) returns (waits: bool)
      requires Agrees(store.db, c) && h in store.db.hashes
      modifies this, store
      ensures Agrees(store.db, c) && enabled == old(enabled)
      ensures store.db == (if old(total) > 0 &&
                              (if enabled then Revivable(old(store.db), h, now) else Admits(old(store.db), h, now))
                           then Enqueued(old(store.db), h, now) else old(store.db))
      ensures ActiveCount(store.db) <= if c.limit > ActiveCount(old(store.db)) then c.limit else ActiveCount(old(store.db))
      ensures enabled ==> recent == old(recent)
      ensures enabled && store.db != old(store.db) ==>
        total == old(total) - 1 && (total >= Reserve(c) <==> old(total) > Reserve(c))
      ensures waits <==> enabled && Creatable(store.db, h)
    {
      if !enabled {
        var used := Enqueue(store, h, now, c, 0);
        return false;
      }
      EnqueuedCounts(store.db, h, now);
      if h in store.db.jobs && store.db.jobs[h].state == Dormant {
        var before := total;
        if total > 0 && Admits(store.db, h, now) {
          store.db := Enqueued(store.db, h, now);
          total := total - 1;
        }
        history := Floor(history, before - total);
      }
      return Creatable(store.db, h);
    }
  }
}
