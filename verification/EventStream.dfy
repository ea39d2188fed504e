/**
  One server-sent-events connection over the bounded history. Emissions and evictions by other
  readers interleave freely with it, also between its window test and the page that follows.
 */
module EventStream {
  import opened EventHistory

  datatype Phase = Hello | Idle | Paging | Done

  datatype Output = HelloEvent | SnapshotEvent | ResetEvent | EventsPage(entries: seq<Entry>, id: nat)

  /** `start` is the cursor of the connection; it comes from the client and may be any number. */
  datatype Stream = Stream(run: string, start: nat, after: nat, phase: Phase, out: seq<Output>)

  /** `all` is everything ever emitted; only `log` exists in the program. */
  datatype System = System(log: Log, all: seq<Entry>, now: nat, stream: Stream)

  datatype Setup = Setup(runId: string, limits: Limits)

  datatype Step =
    | Emission(before: nat, at: nat, later: nat, data: int, retained: nat)
    | Eviction(time: nat)
    | Poll(time: nat, snapshotDue: bool, oversized: bool, finishing: bool)
    | TakePage(time: nat)

  const PAGE_LIMIT: nat := 100

  predicate Enabled(s: System, step: Step) {
    match step
    case Emission(before, at, later, _, _) => s.now <= before <= at <= later
    case Eviction(t) => s.now <= t
    case Poll(t, _, _, _) => s.now <= t && s.stream.phase in {Hello, Idle}
    case TakePage(t) => s.now <= t && s.stream.phase.Paging?
  }

  function Send(c: Stream, o: Output, phase: Phase): Stream { c.(out := c.out + [o], phase := phase) }

  /** One turn of the stream loop up to the decision taken on the window it read. */
  function OnWindow(c: Stream, w: Window, runId: string, due: bool, oversized: bool, finishing: bool): Stream {
    if c.phase.Hello? then Send(c, HelloEvent, Idle)
    else if c.run != runId || c.after + 1 < w.oldest || c.after > w.latest then Send(c, ResetEvent, Done)
    else if !finishing && due then
      if oversized then Send(c, ResetEvent, Done) else Send(c, SnapshotEvent, Idle)
    else if c.after < w.latest then c.(phase := Paging)
    else if finishing then c.(phase := Done)
    else c
  }

  function OnPage(c: Stream, page: Page): Stream {
    if c.after + 1 < page.window.oldest then Send(c, ResetEvent, Done)
    else Send(c, EventsPage(page.events, page.next), Idle).(after := page.next)
  }

  /** The unfiltered page of 100; `FullPage` shows that it is the one the history returns. */
  ghost function PageAt(log: Log, all: seq<Entry>, after: nat): Page {
    var from := if after < log.evicted then log.evicted else after;
    if from >= |all| then Page([], after, WindowOf(log), log.evicted == 0)
    else
      var next := if |all| - from <= PAGE_LIMIT then |all| else from + PAGE_LIMIT;
      Page(all[from..next], next, WindowOf(log), log.evicted == 0)
  }

  ghost function Apply(s: System, step: Step, u: Setup): System {
    match step
    case Emission(before, at, later, data, retained) =>
      s.(log := Emit(s.log, u.limits, before, at, later, data, retained),
         all := s.all + [Entry(|s.all| + 1, at, data, retained)], now := later)
    case Eviction(t) => s.(log := Evict(s.log, u.limits, t), now := t)
    case Poll(t, due, oversized, finishing) =>
      var log := Evict(s.log, u.limits, t);
      s.(log := log, now := t, stream := OnWindow(s.stream, WindowOf(log), u.runId, due, oversized, finishing))
    case TakePage(t) =>
      var log := Evict(s.log, u.limits, t);
      s.(log := log, now := t, stream := OnPage(s.stream, PageAt(log, s.all, s.stream.after)))
  }

  ghost function Run(s: System, steps: seq<Step>, u: Setup): System
    decreases |steps|
  {
    if steps == [] then s else Run(Apply(s, steps[0], u), steps[1..], u)
  }

  ghost predicate Possible(s: System, steps: seq<Step>, u: Setup)
    decreases |steps|
  {
    steps == [] || (Enabled(s, steps[0]) && Possible(Apply(s, steps[0], u), steps[1..], u))
  }

  ghost function Delivered(out: seq<Output>): seq<Entry> {
    if out == [] then []
    else Delivered(out[..|out| - 1]) + if out[|out| - 1].EventsPage? then out[|out| - 1].entries else []
  }

  lemma DeliveredSend(out: seq<Output>, o: Output)
    ensures Delivered(out + [o]) == Delivered(out) + if o.EventsPage? then o.entries else []
  {
    assert (out + [o])[..|out|] == out;
  }

  /** What was sent is exactly the stretch of the emitted sequence between start and cursor. */
  ghost predicate GapFree(c: Stream, all: seq<Entry>) {
    if c.after == c.start then Delivered(c.out) == []
    else c.start < c.after <= |all| && Delivered(c.out) == all[c.start..c.after]
  }

  /** A reset is the last thing a connection sends. */
  ghost predicate ResetEnds(c: Stream) {
    forall i :: 0 <= i < |c.out| && c.out[i].ResetEvent? ==> i == |c.out| - 1 && c.phase.Done?
  }

  ghost predicate StreamInv(c: Stream, all: seq<Entry>, runId: string) {
    && GapFree(c, all) && ResetEnds(c)
    && (c.phase.Paging? ==> c.run == runId && c.after < |all|)
  }

  ghost predicate Inv(s: System, u: Setup) {
    Faithful(s.log, s.all, s.now) && StreamInv(s.stream, s.all, u.runId)
  }

  /** The page read by the machine is the page the history object returns for an unfiltered read. */
  lemma FullPage(log: Log, all: seq<Entry>, now: nat, after: nat, page: Page)
    requires Faithful(log, all, now)
    requires PageSpec(page.events, page.next, all, log.evicted, after, PAGE_LIMIT, e => true)
    requires page.window == WindowOf(log) && (page.complete <==> log.evicted == 0)
    ensures page == PageAt(log, all, after)
  {
    var from := if after < log.evicted then log.evicted else after;
    if from < |all| {
      MatchingAll(all[from..page.next]);
      assert page.events == all[from..page.next];
    }
  }

  lemma PageContents(log: Log, all: seq<Entry>, now: nat, after: nat)
    requires Faithful(log, all, now) && log.evicted <= after < |all|
    ensures var p := PageAt(log, all, after);
      after < p.next <= |all| && p.events == all[after..p.next] && p.window.oldest == log.evicted + 1
  {}

  lemma SendKeepsResetLast(c: Stream, o: Output, phase: Phase)
    requires ResetEnds(c) && !c.phase.Done? && (o.ResetEvent? ==> phase.Done?)
    ensures ResetEnds(Send(c, o, phase))
  {}

  lemma PageKeepsStream(c: Stream, log: Log, all: seq<Entry>, now: nat, runId: string)
    requires Faithful(log, all, now) && StreamInv(c, all, runId) && c.phase.Paging?
    ensures StreamInv(OnPage(c, PageAt(log, all, c.after)), all, runId)
    ensures c.after < log.evicted ==> OnPage(c, PageAt(log, all, c.after)) == Send(c, ResetEvent, Done)
    ensures c.after >= log.evicted ==> OnPage(c, PageAt(log, all, c.after)).after > c.after
  {
    var page := PageAt(log, all, c.after);
    WindowBounds(log, all, now);
    DeliveredSend(c.out, ResetEvent);
    SendKeepsResetLast(c, ResetEvent, Done);
    SendKeepsResetLast(c, EventsPage(page.events, page.next), Idle);
    if c.after >= log.evicted {
      PageContents(log, all, now, c.after);
      PageExtends(c, all, page.next);
    }
  }

  lemma PageExtends(c: Stream, all: seq<Entry>, next: nat)
    requires GapFree(c, all) && c.after < next <= |all|
    ensures GapFree(Send(c, EventsPage(all[c.after..next], next), Idle).(after := next), all)
  {
    DeliveredSend(c.out, EventsPage(all[c.after..next], next));
    assert c.after > c.start ==> all[c.start..next] == all[c.start..c.after] + all[c.after..next];
  }

  lemma PollKeepsStream(c: Stream, all: seq<Entry>, w: Window, runId: string, due: bool, oversized: bool,
                        finishing: bool)
    requires StreamInv(c, all, runId) && c.phase in {Hello, Idle} && w.latest == |all|
    ensures StreamInv(OnWindow(c, w, runId, due, oversized, finishing), all, runId)
  {
    DeliveredSend(c.out, HelloEvent);
    DeliveredSend(c.out, ResetEvent);
    DeliveredSend(c.out, SnapshotEvent);
    SendKeepsResetLast(c, HelloEvent, Idle);
    SendKeepsResetLast(c, ResetEvent, Done);
    SendKeepsResetLast(c, SnapshotEvent, Idle);
  }

  lemma EvictionKeepsFaith(s: System, u: Setup, t: nat)
    requires Faithful(s.log, s.all, s.now) && s.now <= t
    ensures Faithful(Evict(s.log, u.limits, t), s.all, t) && Evict(s.log, u.limits, t).evicted >= s.log.evicted
  {
    LaterIsFaithful(s.log, s.all, s.now, t);
    EvictKeepsSuffix(s.log, s.all, u.limits, t);
  }

  lemma MoreEventsKeepGapFree(c: Stream, all: seq<Entry>, e: Entry)
    requires GapFree(c, all)
    ensures GapFree(c, all + [e])
  {
    if c.after != c.start {
      assert (all + [e])[c.start..c.after] == all[c.start..c.after];
    }
  }

  lemma StepKeepsInv(s: System, step: Step, u: Setup)
    requires Inv(s, u) && Enabled(s, step)
    ensures Inv(Apply(s, step, u), u) && s.all <= Apply(s, step, u).all
  {
    match step
    case Emission(before, at, later, data, retained) =>
      EmitIsFaithful(s.log, s.all, u.limits, s.now, before, at, later, data, retained);
      MoreEventsKeepGapFree(s.stream, s.all, Entry(|s.all| + 1, at, data, retained));
    case Eviction(t) =>
      EvictionKeepsFaith(s, u, t);
    case Poll(t, due, oversized, finishing) =>
      EvictionKeepsFaith(s, u, t);
      var w := WindowOf(Evict(s.log, u.limits, t));
      WindowBounds(Evict(s.log, u.limits, t), s.all, t);
      PollKeepsStream(s.stream, s.all, w, u.runId, due, oversized, finishing);
    case TakePage(t) =>
      EvictionKeepsFaith(s, u, t);
      PageKeepsStream(s.stream, Evict(s.log, u.limits, t), s.all, t, u.runId);
  }

  /**
    Over every run, from any connection cursor: the retained events are the emitted suffix after
    `evicted`, and the connection has delivered start+1, start+2, ..., cursor: no gap, no repeat.
   */
  lemma {:induction false} EveryRunIsGapFree(s: System, steps: seq<Step>, u: Setup)
    requires Inv(s, u) && Possible(s, steps, u)
    ensures Inv(Run(s, steps, u), u) && s.all <= Run(s, steps, u).all
    decreases |steps|
  {
    if steps != [] {
      StepKeepsInv(s, steps[0], u);
      EveryRunIsGapFree(Apply(s, steps[0], u), steps[1..], u);
    }
  }

  /** A fresh history with a new connection satisfies the invariant, whatever cursor it brings. */
  lemma FreshConnection(s: System, u: Setup, run: string, cursor: nat)
    requires Faithful(s.log, s.all, s.now)
    ensures Inv(s.(stream := Stream(run, cursor, cursor, Hello, [])), u)
  {}

  /** A window test resets exactly on a foreign run, a lost event, or a cursor from the future. */
  lemma PollResetsExactlyOnLoss(s: System, u: Setup, t: nat, due: bool, oversized: bool, finishing: bool)
    requires Inv(s, u) && s.stream.phase.Idle? && s.now <= t
    ensures var s' := Apply(s, Poll(t, due, oversized, finishing), u);
      var c := s.stream;
      var broken := c.run != u.runId || c.after < s'.log.evicted || c.after > |s.all|;
      && (broken ==> s'.stream == Send(c, ResetEvent, Done))
      && (!broken ==> (s'.stream == Send(c, ResetEvent, Done) <==> !finishing && due && oversized))
  {
    EvictionKeepsFaith(s, u, t);
    WindowBounds(Evict(s.log, u.limits, t), s.all, t);
  }

  /** An eviction that slips in between window and page also ends in a reset; otherwise the page moves on. */
  lemma PageResetsExactlyOnLoss(s: System, u: Setup, t: nat)
    requires Inv(s, u) && s.stream.phase.Paging? && s.now <= t
    ensures var s' := Apply(s, TakePage(t), u);
      && (s.stream.after < s'.log.evicted <==> s'.stream == Send(s.stream, ResetEvent, Done))
      && (s.stream.after >= s'.log.evicted ==> s'.stream.phase.Idle? && s.stream.after < s'.stream.after <= |s.all|)
  {
    EvictionKeepsFaith(s, u, t);
    PageKeepsStream(s.stream, Evict(s.log, u.limits, t), s.all, t, u.runId);
    if s.stream.after >= Evict(s.log, u.limits, t).evicted {
      PageContents(Evict(s.log, u.limits, t), s.all, t, s.stream.after);
    }
  }

  /** Once ended, a connection never sends again. */
  lemma {:induction false} DoneIsFinal(s: System, steps: seq<Step>, u: Setup)
    requires s.stream.phase.Done? && Possible(s, steps, u)
    ensures Run(s, steps, u).stream == s.stream
    decreases |steps|
  {
    if steps != [] {
      DoneIsFinal(Apply(s, steps[0], u), steps[1..], u);
    }
  }

  /** A lost event stays lost, so the connection that needs it can only end in a reset. */
  lemma {:induction false} LossIsPermanent(s: System, steps: seq<Step>, u: Setup)
    requires Inv(s, u) && Possible(s, steps, u) && s.stream.after < s.log.evicted
    ensures Run(s, steps, u).stream.after == s.stream.after < Run(s, steps, u).log.evicted
    ensures Delivered(Run(s, steps, u).stream.out) == Delivered(s.stream.out)
    decreases |steps|
  {
    if steps != [] {
      var s' := Apply(s, steps[0], u);
      StepKeepsInv(s, steps[0], u);
      LossStep(s, steps[0], u);
      LossIsPermanent(s', steps[1..], u);
    }
  }

  lemma LossStep(s: System, step: Step, u: Setup)
    requires Inv(s, u) && Enabled(s, step) && s.stream.after < s.log.evicted
    ensures var s' := Apply(s, step, u);
      s'.stream.after == s.stream.after < s'.log.evicted && Delivered(s'.stream.out) == Delivered(s.stream.out)
  {
    DeliveredSend(s.stream.out, HelloEvent);
    DeliveredSend(s.stream.out, ResetEvent);
    DeliveredSend(s.stream.out, SnapshotEvent);
    match step
    case Emission(before, at, later, data, retained) =>
      EmitIsFaithful(s.log, s.all, u.limits, s.now, before, at, later, data, retained);
    case Eviction(t) =>
      EvictionKeepsFaith(s, u, t);
    case Poll(t, due, oversized, finishing) =>
      EvictionKeepsFaith(s, u, t);
    case TakePage(t) =>
      EvictionKeepsFaith(s, u, t);
      PageKeepsStream(s.stream, Evict(s.log, u.limits, t), s.all, t, u.runId);
  }
}
