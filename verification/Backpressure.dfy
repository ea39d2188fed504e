/**
  Hysteresis that pauses active sampling. The object keeps a handful of fields; its whole history is
  kept beside it as a ghost log, and the fields are shown to say the right thing about that log.
 */
module Backpressure {
  import opened Common

  datatype Mode = Freshness | Capacity

  datatype Limits = Limits(mode: Mode, maxActive: nat, recentLimit: nat)

  /** One `update`, with `recent == None` when the count was not refreshed, or one `log` call. */
  datatype Reading = Reading(active: int, recent: Option<int>, storage: bool) | Glance

  /** A reading and the three pause reasons after it. */
  datatype Entry = Entry(now: int, reading: Reading, capacity: bool, backlog: bool, storage: bool)

  type Log = seq<Entry>

  const STEADY_MS: int := 30_000
  const I64_MAX: int := 0x7FFF_FFFF_FFFF_FFFF

  function High(l: Limits): int { l.recentLimit }

  function Low(l: Limits): int { l.recentLimit / 4 }

  function ResumeBelow(l: Limits): int { if l.maxActive * 8 / 10 > 1 then l.maxActive * 8 / 10 else 1 }

  predicate Paused(e: Entry) { e.capacity || e.backlog || e.storage }

  const IDLE: Entry := Entry(0, Glance, false, false, false)

  /** The entry before `i`; nothing is paused before the first. */
  function Prior(log: Log, i: nat): Entry
    requires i <= |log|
  {
    if i == 0 then IDLE else log[i - 1]
  }

  // ---- the laws, over the log alone

  predicate Refreshed(l: Limits, e: Entry) { l.mode == Freshness && e.reading.Reading? && e.reading.recent.Some? }

  predicate IsLow(l: Limits, e: Entry) { Refreshed(l, e) && e.reading.recent.value <= Low(l) }

  predicate IsHigher(l: Limits, e: Entry) { Refreshed(l, e) && e.reading.recent.value > Low(l) }

  /** From a low reading at `j` up to `i` the backlog pause lasted and no reading was above the low mark. */
  ghost predicate Steady(l: Limits, log: Log, j: nat, i: nat)
    requires i < |log|
  {
    && j <= i && Prior(log, j).backlog && IsLow(l, log[j])
    && (forall k :: j <= k < i ==> log[k].backlog)
    && forall k :: j <= k <= i ==> !IsHigher(l, log[k])
  }

  ghost predicate FirstSteady(l: Limits, log: Log, j: nat, i: nat)
    requires i < |log|
  {
    Steady(l, log, j, i) && forall k :: 0 <= k < j ==> !Steady(l, log, k, i)
  }

  /** Backlog starts at the high mark and ends with a low reading that completes thirty steady seconds. */
  ghost predicate BacklogLaw(l: Limits, log: Log, i: nat)
    requires i < |log|
  {
    var e, before := log[i], Prior(log, i).backlog;
    if !Refreshed(l, e) then e.backlog == before
    else if !before then e.backlog <==> e.reading.recent.value >= High(l)
    else !e.backlog <==> IsLow(l, e) && exists j: nat :: j <= i && FirstSteady(l, log, j, i) && e.now - log[j].now >= STEADY_MS
  }

  /** Capacity pauses at the limit, resumes below four fifths of it, and is frozen while storage pauses. */
  predicate CapacityLaw(l: Limits, before: Entry, e: Entry) {
    if e.reading.Glance? || e.storage then e.capacity == before.capacity
    else e.capacity <==> e.reading.active >= if before.capacity then ResumeBelow(l) else l.maxActive
  }

  predicate StorageLaw(before: Entry, e: Entry) {
    e.storage == if e.reading.Glance? then before.storage else e.reading.storage
  }

  ghost predicate LawfulAt(l: Limits, log: Log, i: nat)
    requires i < |log|
  {
    BacklogLaw(l, log, i) && CapacityLaw(l, Prior(log, i), log[i]) && StorageLaw(Prior(log, i), log[i])
  }

  ghost predicate Lawful(l: Limits, log: Log) { forall i :: 0 <= i < |log| ==> LawfulAt(l, log, i) }

  /** Number of paused-to-running edges. */
  function Edges(log: Log): nat {
    if log == [] then 0
    else Edges(log[..|log| - 1]) + if Paused(Prior(log, |log| - 1)) && !Paused(log[|log| - 1]) then 1 else 0
  }

  /** Length of the interval between two observations, in 64-bit signed arithmetic. */
  function Between(last: int, now: int): nat {
    if now <= last then 0 else if now - last > I64_MAX then I64_MAX else now - last
  }

  /** Summed length of the intervals that began paused. */
  function PausedTime(log: Log): nat {
    if |log| <= 1 then 0
    else
      var last, e := log[|log| - 2], log[|log| - 1];
      PausedTime(log[..|log| - 1]) + if Paused(last) then Between(last.now, e.now) else 0
  }

  // ---- what the laws mean over a run

  /** The backlog pause ends only after low readings spanning thirty seconds with none higher between. */
  lemma BacklogEndsSteadily(l: Limits, log: Log, i: nat)
    requires Lawful(l, log) && i < |log| && Prior(log, i).backlog && !log[i].backlog
    ensures l.mode == Freshness && IsLow(l, log[i])
    ensures exists j: nat :: j <= i && Steady(l, log, j, i) && log[i].now - log[j].now >= STEADY_MS
  {
    assert LawfulAt(l, log, i);
  }

  lemma {:induction false} FirstSteadyExists(l: Limits, log: Log, j: nat, i: nat)
    requires i < |log| && Steady(l, log, j, i)
    ensures exists f: nat :: f <= j && FirstSteady(l, log, f, i)
    decreases j
  {
    if k: nat :| k < j && Steady(l, log, k, i) {
      FirstSteadyExists(l, log, k, i);
    } else {
      assert FirstSteady(l, log, j, i);
    }
  }

  ghost predicate ClockRuns(log: Log) { forall i, j :: 0 <= i <= j < |log| ==> log[i].now <= log[j].now }

  /** While the clock does not run back, any such stretch does end it. */
  lemma SteadyLowResumes(l: Limits, log: Log, j: nat, i: nat)
    requires Lawful(l, log) && ClockRuns(log) && i < |log| && Steady(l, log, j, i)
    requires IsLow(l, log[i]) && log[i].now - log[j].now >= STEADY_MS
    ensures !log[i].backlog
  {
    FirstSteadyExists(l, log, j, i);
    assert LawfulAt(l, log, i);
    assert Prior(log, i).backlog;
  }

  /** The capacity pause outlasts every reading at or above the resume mark, and every storage pause. */
  lemma {:induction false} CapacityHolds(l: Limits, log: Log, i: nat, k: nat)
    requires Lawful(l, log) && i <= k < |log| && log[i].capacity
    requires forall m :: i < m <= k ==>
      log[m].storage || log[m].reading.Glance? || log[m].reading.active >= ResumeBelow(l)
    ensures log[k].capacity
    decreases k
  {
    if i < k {
      CapacityHolds(l, log, i, k - 1);
      assert LawfulAt(l, log, k);
    }
  }

  /** In capacity mode no backlog pause ever starts. */
  lemma {:induction false} CapacityModeNeverWaits(l: Limits, log: Log, i: nat)
    requires Lawful(l, log) && l.mode == Capacity && i < |log|
    ensures !log[i].backlog
  {
    if i > 0 { CapacityModeNeverWaits(l, log, i - 1); }
    assert LawfulAt(l, log, i);
  }

  // ---- extending the log

  lemma LawsExtend(l: Limits, log: Log, e: Entry)
    requires Lawful(l, log) && BacklogLaw(l, log + [e], |log|)
    requires CapacityLaw(l, Prior(log, |log|), e) && StorageLaw(Prior(log, |log|), e)
    ensures Lawful(l, log + [e])
  {
    forall i: nat | i < |log| ensures LawfulAt(l, log + [e], i) {
      assert LawfulAt(l, log, i);
      SteadyExtends(l, log, e, i);
      assert forall j: nat :: j <= i ==> (FirstSteady(l, log + [e], j, i) <==> FirstSteady(l, log, j, i));
    }
    assert Prior(log + [e], |log|) == Prior(log, |log|);
  }

  lemma SteadyExtends(l: Limits, log: Log, e: Entry, i: nat)
    requires i < |log|
    ensures forall j: nat :: j <= i ==> (Steady(l, log + [e], j, i) <==> Steady(l, log, j, i))
  {
    var longer := log + [e];
    forall j: nat | j <= i ensures Steady(l, longer, j, i) <==> Steady(l, log, j, i) {
      assert forall k :: 0 <= k <= i ==> longer[k] == log[k];
    }
  }

  /** What `recovery_since` remembers: when the steady stretch that is still going on began. */
  ghost predicate Recovers(l: Limits, log: Log, since: Option<int>) {
    if log == [] || !log[|log| - 1].backlog then since == None
    else
      var last := |log| - 1;
      match since
      case None => forall j: nat :: j <= last ==> !Steady(l, log, j, last)
      case Some(t) => exists j: nat :: j <= last && FirstSteady(l, log, j, last) && log[j].now == t
  }

  /** A stretch goes on over a reading that is not higher, and only a low reading can begin one. */
  lemma SteadyStep(l: Limits, log: Log, e: Entry, j: nat)
    requires log != [] && log[|log| - 1].backlog && j <= |log|
    ensures Steady(l, log + [e], j, |log|) <==>
      !IsHigher(l, e) && if j == |log| then IsLow(l, e) else Steady(l, log, j, |log| - 1)
  {
    var longer, last := log + [e], |log| - 1;
    assert forall k :: 0 <= k < |log| ==> longer[k] == log[k];
    assert longer[|log|] == e && Prior(longer, j) == Prior(log, j);
    if j < |log| && !IsHigher(l, e) && Steady(l, log, j, last) {
      assert Steady(l, longer, j, |log|);
    }
    if j < |log| && Steady(l, longer, j, |log|) {
      assert !IsHigher(l, longer[|log|]);
      forall k | j <= k <= last ensures !IsHigher(l, log[k]) { assert !IsHigher(l, longer[k]); }
      forall k | j <= k < last ensures log[k].backlog { assert longer[k].backlog; }
    }
  }

  lemma FirstSteadyStep(l: Limits, log: Log, e: Entry, j: nat)
    requires log != [] && log[|log| - 1].backlog && j < |log| && FirstSteady(l, log, j, |log| - 1) && !IsHigher(l, e)
    ensures FirstSteady(l, log + [e], j, |log|)
  {
    SteadyStep(l, log, e, j);
    forall k | 0 <= k < j ensures !Steady(l, log + [e], k, |log|) {
      SteadyStep(l, log, e, k);
    }
  }

  /** While nothing has started a stretch, the next reading can only start one itself. */
  lemma NoneSteadyStep(l: Limits, log: Log, e: Entry, j: nat)
    requires log != [] && log[|log| - 1].backlog && Recovers(l, log, None) && j <= |log|
    ensures Steady(l, log + [e], j, |log|) <==> j == |log| && IsLow(l, e)
  {
    SteadyStep(l, log, e, j);
  }

  lemma FirstIsUnique(l: Limits, log: Log, j: nat, k: nat, i: nat)
    requires i < |log| && FirstSteady(l, log, j, i) && FirstSteady(l, log, k, i)
    ensures j == k
  {}

  /** On a low reading the remembered time, or else this one, is where the steady stretch began. */
  lemma StretchBegan(l: Limits, log: Log, since: Option<int>, e: Entry) returns (j: nat)
    requires Recovers(l, log, since) && log != [] && log[|log| - 1].backlog && IsLow(l, e)
    ensures j <= |log| && FirstSteady(l, log + [e], j, |log|)
    ensures (log + [e])[j].now == if since.Some? then since.value else e.now
  {
    if since.Some? {
      j :| j <= |log| - 1 && FirstSteady(l, log, j, |log| - 1) && log[j].now == since.value;
      FirstSteadyStep(l, log, e, j);
    } else {
      j := |log|;
      forall k: nat | k <= |log| ensures Steady(l, log + [e], k, |log|) <==> k == |log| {
        NoneSteadyStep(l, log, e, k);
      }
    }
  }

  lemma NotWaiting(l: Limits, log: Log, e: Entry)
    requires Recovers(l, log, None) && (log == [] || !log[|log| - 1].backlog)
    ensures Recovers(l, log + [e], None)
  {
    forall j: nat | j <= |log| ensures !Steady(l, log + [e], j, |log|) {
      if j < |log| { assert (log + [e])[|log| - 1] == log[|log| - 1]; }
    }
  }

  lemma Interrupted(l: Limits, log: Log, e: Entry)
    requires IsHigher(l, e)
    ensures Recovers(l, log + [e], None)
  {
    forall j: nat | j <= |log| ensures !Steady(l, log + [e], j, |log|) {
      assert (log + [e])[|log|] == e;
    }
  }

  /** Without a refreshed count nothing about the backlog changes. */
  lemma NotRefreshed(l: Limits, log: Log, since: Option<int>, e: Entry)
    requires Recovers(l, log, since) && !Refreshed(l, e) && e.backlog == Prior(log, |log|).backlog
    ensures Recovers(l, log + [e], since) && BacklogLaw(l, log + [e], |log|)
  {
    if e.backlog {
      if since.Some? {
        var j: nat :| j <= |log| - 1 && FirstSteady(l, log, j, |log| - 1) && log[j].now == since.value;
        FirstSteadyStep(l, log, e, j);
        assert (log + [e])[j].now == since.value;
      } else {
        forall j: nat | j <= |log| ensures !Steady(l, log + [e], j, |log|) {
          NoneSteadyStep(l, log, e, j);
        }
      }
    }
  }

  /** The three ways a refreshed count is judged. */
  lemma JudgedRunning(l: Limits, log: Log, e: Entry)
    requires Recovers(l, log, None) && !Prior(log, |log|).backlog
    requires Refreshed(l, e) && (e.backlog <==> e.reading.recent.value >= High(l))
    ensures BacklogLaw(l, log + [e], |log|) && Recovers(l, log + [e], None)
  {
    NotWaiting(l, log, e);
    assert Prior(log + [e], |log|) == Prior(log, |log|);
  }

  lemma JudgedHigher(l: Limits, log: Log, e: Entry)
    requires Prior(log, |log|).backlog && e.backlog && IsHigher(l, e)
    ensures BacklogLaw(l, log + [e], |log|) && Recovers(l, log + [e], None)
  {
    Interrupted(l, log, e);
    assert Prior(log + [e], |log|) == Prior(log, |log|);
  }

  lemma JudgedLow(l: Limits, log: Log, since: Option<int>, e: Entry, from: int)
    requires Recovers(l, log, since) && Prior(log, |log|).backlog && IsLow(l, e)
    requires from == (if since.Some? then since.value else e.now) && (e.backlog <==> e.now - from < STEADY_MS)
    ensures BacklogLaw(l, log + [e], |log|) && Recovers(l, log + [e], if e.backlog then Some(from) else None)
  {
    var began := StretchBegan(l, log, since, e);
    forall j: nat | j <= |log| && FirstSteady(l, log + [e], j, |log|) ensures j == began {
      FirstIsUnique(l, log + [e], j, began, |log|);
    }
    assert Prior(log + [e], |log|) == Prior(log, |log|);
  }

  function EdgesWith(log: Log, e: Entry): nat {
    Edges(log) + if Paused(Prior(log, |log|)) && !Paused(e) then 1 else 0
  }

  /** The saturated total once the interval since the last entry is added. */
  function PausedUpTo(log: Log, now: int): nat {
    var last := Prior(log, |log|);
    Sat(PausedTime(log) + if Paused(last) then Between(last.now, now) else 0)
  }

  /** The flags are those after the last entry. */
  predicate Shows(log: Log, capacity: bool, backlog: bool, storage: bool) {
    var last := Prior(log, |log|);
    last.capacity == capacity && last.backlog == backlog && last.storage == storage
  }

  /** The counters count the edges and the paused time of the log. */
  predicate Counts(log: Log, lastAt: Option<int>, pausedMs: nat, resumes: nat) {
    && lastAt == (if log == [] then None else Some(log[|log| - 1].now))
    && pausedMs == Sat(PausedTime(log)) && resumes == Edges(log)
  }

  lemma CountsExtend(log: Log, e: Entry)
    ensures Edges(log + [e]) == EdgesWith(log, e) && Sat(PausedTime(log + [e])) == PausedUpTo(log, e.now)
    ensures Shows(log + [e], e.capacity, e.backlog, e.storage)
  {
    assert (log + [e])[..|log|] == log;
  }

  class Backpressure {
    const limits: Limits
    var capacity: bool
    var backlog: bool
    var storage: bool
    var recoverySince: Option<int>
    var lastAt: Option<int>
    var pausedMs: nat
    var resumes: nat
    ghost var log: Log

    ghost predicate Valid()
      reads this
    {
      && Shows(log, capacity, backlog, storage) && Counts(log, lastAt, pausedMs, resumes)
      && Recovers(limits, log, recoverySince) && Lawful(limits, log)
    }

    constructor (mode: Mode, maxActive: nat, concurrency: nat)
      ensures Valid() && log == [] && limits.mode == mode && limits.maxActive == maxActive
      ensures limits.recentLimit == if maxActive < 4 * concurrency then maxActive else 4 * concurrency
    {
      limits := Limits(mode, maxActive, if maxActive < 4 * concurrency then maxActive else 4 * concurrency);
      capacity, backlog, storage, recoverySince, lastAt, pausedMs, resumes, log := false, false, false, None, None, 0, 0, [];
    }

    predicate IsPaused()
      reads this
    {
      capacity || backlog || storage
    }

    method Account(now: int)
      requires Valid()
      modifies this`pausedMs, this`lastAt
      ensures lastAt == Some(now)
      ensures pausedMs == PausedUpTo(log, now)
    {
      if lastAt.Some? && IsPaused() {
        pausedMs := Sat(pausedMs + Between(lastAt.value, now));
      }
      lastAt := Some(now);
    }

    /** The backlog reason after one reading, as the law over the extended log requires. */
    method JudgeBacklog(now: int, recent: Option<int>, ghost e: Entry)
      requires Recovers(limits, log, recoverySince) && backlog == e.backlog == Prior(log, |log|).backlog
      requires e.now == now && e.reading.Reading? && e.reading.recent == recent
      modifies this`backlog, this`recoverySince
      ensures BacklogLaw(limits, log + [e.(backlog := backlog)], |log|)
      ensures Recovers(limits, log + [e.(backlog := backlog)], recoverySince)
    {
      if limits.mode == Capacity || recent.None? {
        NotRefreshed(limits, log, recoverySince, e);
      } else if !backlog {
        backlog := recent.value >= High(limits);
        JudgedRunning(limits, log, e.(backlog := backlog));
      } else if recent.value <= Low(limits) {
        var from := if recoverySince.Some? then recoverySince.value else now;
        ghost var since := recoverySince;
        recoverySince := Some(from);
        if now - from >= STEADY_MS {
          backlog := false;
          recoverySince := None;
        }
        JudgedLow(limits, log, since, e.(backlog := backlog), from);
      } else {
        recoverySince := None;
        JudgedHigher(limits, log, e);
      }
    }

    /** Record a reading whose effects the fields already show. */
    ghost method Append(e: Entry)
      requires Lawful(limits, log) && BacklogLaw(limits, log + [e], |log|) && Recovers(limits, log + [e], recoverySince)
      requires CapacityLaw(limits, Prior(log, |log|), e) && StorageLaw(Prior(log, |log|), e)
      requires e.capacity == capacity && e.backlog == backlog && e.storage == storage && lastAt == Some(e.now)
      requires pausedMs == PausedUpTo(log, e.now) && resumes == EdgesWith(log, e)
      modifies this`log
      ensures Valid() && log == old(log) + [e]
    {
      LawsExtend(limits, log, e);
      CountsExtend(log, e);
      log := log + [e];
    }

    /**
      Take one reading. The log grows by exactly that reading and the pause state after it, every law
      goes on holding, and the result says whether sampling as a whole was paused or resumed.
     */
    method Update(now: int, active: int, recent: Option<int>, storage: bool) returns (changed: bool)
      requires Valid()
      modifies this
      ensures Valid() && log == old(log) + [Entry(now, Reading(active, recent, storage), capacity, backlog, storage)]
      ensures changed <==> old(IsPaused()) != IsPaused()
    {
      Account(now);
      var was := IsPaused();
      this.storage := storage;
      if !storage {
        capacity := active >= if capacity then ResumeBelow(limits) else limits.maxActive;
      }
      ghost var e := Entry(now, Reading(active, recent, storage), capacity, backlog, storage);
      JudgeBacklog(now, recent, e);
      if was && !IsPaused() {
        resumes := resumes + 1;
      }
      Append(e.(backlog := backlog));
      return was != IsPaused();
    }

    /** Accounting alone: the pause state is untouched and the interval up to now is counted. */
    method Report(now: int)
      requires Valid()
      modifies this
      ensures Valid() && log == old(log) + [Entry(now, Glance, old(capacity), old(backlog), old(storage))]
      ensures resumes == old(resumes)
    {
      Account(now);
      ghost var e := Entry(now, Glance, capacity, backlog, storage);
      NotRefreshed(limits, log, recoverySince, e);
      Append(e);
    }
  }
}
