/** The bounded event history: emission, eviction by count, bytes and age, windows and pages. */
module EventHistory {

  /** `data` stands for everything a filter may look at; `at` is the monotonic emission time. */
  datatype Entry = Entry(sequence: nat, at: nat, data: int, retainedBytes: nat)

  datatype Limits = Limits(count: nat, bytes: nat, age: nat)

  datatype Log = Log(events: seq<Entry>, bytes: nat, sequence: nat, evicted: nat)

  datatype Window = Window(oldest: nat, latest: nat, retained: nat, bytes: nat, evicted: nat)

  datatype Page = Page(events: seq<Entry>, next: nat, window: Window, complete: bool)

  ghost function TotalBytes(events: seq<Entry>): nat {
    if events == [] then 0 else events[0].retainedBytes + TotalBytes(events[1..])
  }

  lemma {:induction false} TotalBytesAppend(events: seq<Entry>, e: Entry)
    ensures TotalBytes(events + [e]) == TotalBytes(events) + e.retainedBytes
  {
    if events != [] {
      assert (events + [e])[1..] == events[1..] + [e];
      TotalBytesAppend(events[1..], e);
    }
  }

  /** What holds between operations when everything ever emitted was `all`. */
  ghost predicate Faithful(h: Log, all: seq<Entry>, now: nat) {
    && h.evicted <= |all| == h.sequence
    && h.events == all[h.evicted..]
    && h.bytes == TotalBytes(h.events)
    && (forall i :: 0 <= i < |all| ==> all[i].sequence == i + 1 && all[i].at <= now)
    && (forall i, j :: 0 <= i <= j < |all| ==> all[i].at <= all[j].at)
  }

  function Elapsed(now: nat, at: nat): nat { if now < at then 0 else now - at }

  predicate Overdue(h: Log, limits: Limits, now: nat) {
    h.events != [] &&
    (|h.events| > limits.count || h.bytes > limits.bytes || Elapsed(now, h.events[0].at) >= limits.age)
  }

  ghost function PopFront(h: Log): Log
    requires h.events != []
  {
    Log(h.events[1..], TotalBytes(h.events[1..]), h.sequence, h.evicted + 1)
  }

  ghost function Evict(h: Log, limits: Limits, now: nat): Log
    decreases |h.events|
  {
    if Overdue(h, limits, now) then Evict(PopFront(h), limits, now) else h
  }

  ghost predicate WithinLimits(h: Log, limits: Limits, now: nat) {
    && |h.events| <= limits.count && h.bytes <= limits.bytes
    && forall i :: 0 <= i < |h.events| ==> Elapsed(now, h.events[i].at) < limits.age
  }

  /**
    Eviction drops a prefix and nothing else, and afterwards every retained entry, not only the
    first, is within the limits; what it drops could not have stayed.
   */
  lemma {:induction false} EvictKeepsSuffix(h: Log, all: seq<Entry>, limits: Limits, now: nat)
    requires Faithful(h, all, now)
    ensures var e := Evict(h, limits, now);
      && Faithful(e, all, now) && e.evicted >= h.evicted
      && (e.events == [] || WithinLimits(e, limits, now))
      && (forall k :: h.evicted <= k < e.evicted ==>
            Overdue(Log(all[k..], TotalBytes(all[k..]), |all|, k), limits, now))
    decreases |h.events|
  {
    if Overdue(h, limits, now) {
      assert all[h.evicted..][1..] == all[h.evicted + 1..];
      EvictKeepsSuffix(PopFront(h), all, limits, now);
      assert h == Log(all[h.evicted..], TotalBytes(all[h.evicted..]), |all|, h.evicted);
    }
  }

  ghost function Append(h: Log, at: nat, data: int, retained: nat): Log {
    Log(h.events + [Entry(h.sequence + 1, at, data, retained)], h.bytes + retained, h.sequence + 1, h.evicted)
  }

  /** One emission reads the clock three times: before, for, and after the new entry. */
  ghost function Emit(h: Log, limits: Limits, before: nat, at: nat, later: nat, data: int, retained: nat): Log {
    Evict(Append(Evict(h, limits, before), at, data, retained), limits, later)
  }

  lemma AppendIsFaithful(h: Log, all: seq<Entry>, now: nat, at: nat, data: int, retained: nat)
    requires Faithful(h, all, now) && now <= at
    ensures Faithful(Append(h, at, data, retained), all + [Entry(|all| + 1, at, data, retained)], at)
  {
    var entry := Entry(|all| + 1, at, data, retained);
    TotalBytesAppend(h.events, entry);
    assert (all + [entry])[h.evicted..] == all[h.evicted..] + [entry];
  }

  lemma LaterIsFaithful(h: Log, all: seq<Entry>, now: nat, later: nat)
    requires Faithful(h, all, now) && now <= later
    ensures Faithful(h, all, later)
  {}

  lemma EmitIsFaithful(h: Log, all: seq<Entry>, limits: Limits, now: nat, before: nat, at: nat, later: nat,
                       data: int, retained: nat)
    requires Faithful(h, all, now) && now <= before <= at <= later
    ensures var all' := all + [Entry(|all| + 1, at, data, retained)];
      var e := Emit(h, limits, before, at, later, data, retained);
      Faithful(e, all', later) && e.evicted >= h.evicted && (e.events == [] || WithinLimits(e, limits, later))
  {
    LaterIsFaithful(h, all, now, before);
    EvictKeepsSuffix(h, all, limits, before);
    var mid := Evict(h, limits, before);
    AppendIsFaithful(mid, all, before, at, data, retained);
    var all' := all + [Entry(|all| + 1, at, data, retained)];
    LaterIsFaithful(Append(mid, at, data, retained), all', at, later);
    EvictKeepsSuffix(Append(mid, at, data, retained), all', limits, later);
  }

  function WindowOf(h: Log): Window {
    Window(if h.events == [] then h.sequence + 1 else h.events[0].sequence, h.sequence, |h.events|, h.bytes, h.evicted)
  }

  lemma WindowBounds(h: Log, all: seq<Entry>, now: nat)
    requires Faithful(h, all, now)
    ensures WindowOf(h).oldest == h.evicted + 1 && WindowOf(h).latest == |all|
    ensures WindowOf(h).retained == |all| - h.evicted
  {}

  // ---- pages

  function Clamp(limit: nat): nat { if limit < 1 then 1 else if limit > 100 then 100 else limit }

  ghost function Matching(events: seq<Entry>, filter: Entry -> bool): seq<Entry> {
    if events == [] then []
    else Matching(events[..|events| - 1], filter) + if filter(events[|events| - 1]) then [events[|events| - 1]] else []
  }

  lemma MatchingAppend(events: seq<Entry>, e: Entry, filter: Entry -> bool)
    ensures Matching(events + [e], filter) == Matching(events, filter) + if filter(e) then [e] else []
  {
    assert (events + [e])[..|events|] == events;
  }

  lemma {:induction false} MatchingAll(events: seq<Entry>)
    ensures Matching(events, e => true) == events
  {
    if events != [] {
      MatchingAll(events[..|events| - 1]);
    }
  }

  /**
    A page resumes after `after`, reports every matching entry up to `next`, and stops only at the
    newest entry or when it is full.
   */
  ghost predicate PageSpec(events: seq<Entry>, next: nat, all: seq<Entry>, evicted: nat, after: nat, limit: nat,
                           filter: Entry -> bool) {
    var from := if after < evicted then evicted else after;
    if from >= |all| then next == after && events == []
    else (
      && from < next <= |all|
      && events == Matching(all[from..next], filter)
      && |events| <= Clamp(limit)
      && (next == |all| || (|events| == Clamp(limit) && filter(all[next - 1]))))
  }

  lemma MatchingStep(all: seq<Entry>, from: nat, k: nat, filter: Entry -> bool)
    requires from <= k < |all|
    ensures Matching(all[from..k + 1], filter) == Matching(all[from..k], filter) + if filter(all[k]) then [all[k]] else []
  {
    assert all[from..k + 1] == all[from..k] + [all[k]];
    MatchingAppend(all[from..k], all[k], filter);
  }

  method Scan(retained: seq<Entry>, after: nat, limit: nat, filter: Entry -> bool, ghost all: seq<Entry>,
              ghost evicted: nat)
    returns (found: seq<Entry>, next: nat)
    requires evicted <= |all| && retained == all[evicted..]
    requires forall i :: 0 <= i < |all| ==> all[i].sequence == i + 1
    ensures PageSpec(found, next, all, evicted, after, limit, filter)
  {
    next, found := after, [];
    ghost var from := if after < evicted then evicted else after;
    for i := 0 to |retained|
      invariant evicted + i <= from ==> next == after && found == []
      invariant evicted + i > from ==> next == evicted + i && found == Matching(all[from..next], filter)
      invariant |found| < Clamp(limit)
    {
      var entry := retained[i];
      assert entry == all[evicted + i];
      if entry.sequence > after {
        MatchingStep(all, from, evicted + i, filter);
        assert evicted + i == from ==> all[from..evicted + i] == [];
        next := entry.sequence;
        if filter(entry) {
          found := found + [entry];
          if |found| >= Clamp(limit) {
            return;
          }
        }
      }
    }
  }

  // ---- the history object

  /** Time moves on its own: each reading may be later than the one before. */
  class Clock {
    var now: nat

    method Read() returns (t: nat)
      modifies this
      ensures now == t >= old(now)
    {
      var tick: nat :| tick >= 0;
      now := now + tick;
      t := now;
    }
  }

  class History {
    var events: seq<Entry>
    var bytes: nat
    var sequence: nat
    var evicted: nat

    constructor ()
      ensures View() == Log([], 0, 0, 0)
    {
      events, bytes, sequence, evicted := [], 0, 0, 0;
    }

    ghost function View(): Log
      reads this
    {
      Log(events, bytes, sequence, evicted)
    }

    /** Popping with a clock that moves between tests ends where one test at the last reading would. */
    method EvictNow(limits: Limits, clock: Clock)
      requires bytes == TotalBytes(events)
      modifies this, clock
      ensures View() == Evict(old(View()), limits, clock.now) && clock.now >= old(clock.now)
      ensures bytes == TotalBytes(events)
    {
      ghost var start := View();
      while true
        invariant bytes == TotalBytes(events) && clock.now >= old(clock.now)
        invariant forall t :: t >= clock.now ==> Evict(start, limits, t) == Evict(View(), limits, t)
        decreases |events|
      {
        if events == [] {
          return;
        }
        var t := clock.Read();
        if !(|events| > limits.count || bytes > limits.bytes || Elapsed(t, events[0].at) >= limits.age) {
          return;
        }
        assert forall u :: u >= t ==> Overdue(View(), limits, u);
        ghost var before := View();
        bytes := bytes - events[0].retainedBytes;
        evicted := evicted + 1;
        events := events[1..];
        assert View() == PopFront(before);
      }
    }

    method EmitEvent(limits: Limits, clock: Clock, data: int, retained: nat) returns (ghost before: nat, ghost at: nat)
      requires bytes == TotalBytes(events)
      modifies this, clock
      ensures old(clock.now) <= before <= at <= clock.now
      ensures View() == Emit(old(View()), limits, before, at, clock.now, data, retained)
      ensures bytes == TotalBytes(events)
    {
      EvictNow(limits, clock);
      before := clock.now;
      sequence := sequence + 1;
      bytes := bytes + retained;
      var t := clock.Read();
      at := t;
      TotalBytesAppend(events, Entry(sequence, t, data, retained));
      events := events + [Entry(sequence, t, data, retained)];
      EvictNow(limits, clock);
    }

    method ReadWindow(limits: Limits, clock: Clock) returns (w: Window)
      requires bytes == TotalBytes(events)
      modifies this, clock
      ensures View() == Evict(old(View()), limits, clock.now) && clock.now >= old(clock.now)
      ensures w == WindowOf(View()) && bytes == TotalBytes(events)
    {
      EvictNow(limits, clock);
      w := Window(if events == [] then sequence + 1 else events[0].sequence, sequence, |events|, bytes, evicted);
    }

    method ReadPage(limits: Limits, clock: Clock, after: nat, limit: nat, filter: Entry -> bool, ghost all: seq<Entry>)
      returns (page: Page)
      requires Faithful(View(), all, clock.now)
      modifies this, clock
      ensures View() == Evict(old(View()), limits, clock.now) && clock.now >= old(clock.now)
      ensures PageSpec(page.events, page.next, all, evicted, after, limit, filter)
      ensures page.window == WindowOf(View()) && (page.complete <==> evicted == 0)
    {
      EvictNow(limits, clock);
      LaterIsFaithful(old(View()), all, old(clock.now), clock.now);
      EvictKeepsSuffix(old(View()), all, limits, clock.now);
      assert Faithful(View(), all, clock.now);
      var found, next := Scan(events, after, limit, filter, all, evicted);
      page := Page(found, next, WindowOf(Log(events, bytes, sequence, evicted)), evicted == 0);
    }
  }
}
