/** Query pacing shared by every worker: one grant per 100 ms, and one per second for each IP. */
module LookupPacer {
  import opened Common

  const GLOBAL_GAP_MS: nat := 100
  const IP_GAP_MS: nat := 1000

  datatype Grant = Grant(time: nat, ip: nat)

  // ---- the rule, over the full history of grants

  ghost function LastOf(log: seq<Grant>, ip: nat): Option<nat> {
    if log == [] then None
    else if log[|log| - 1].ip == ip then Some(log[|log| - 1].time)
    else LastOf(log[..|log| - 1], ip)
  }

  lemma LastOfAppend(log: seq<Grant>, g: Grant)
    ensures forall ip :: LastOf(log + [g], ip) == if ip == g.ip then Some(g.time) else LastOf(log, ip)
  {
    assert (log + [g])[..|log|] == log;
  }

  ghost function GlobalDue(log: seq<Grant>, now: nat): nat {
    if log == [] then now else log[|log| - 1].time + GLOBAL_GAP_MS
  }

  ghost function IpDue(log: seq<Grant>, ip: nat, now: nat): nat {
    if LastOf(log, ip).None? then now else LastOf(log, ip).value + IP_GAP_MS
  }

  /** When the full history would next let this IP through. */
  ghost function Due(log: seq<Grant>, ip: nat, now: nat): nat {
    if GlobalDue(log, now) > IpDue(log, ip, now) then GlobalDue(log, now) else IpDue(log, ip, now)
  }

  ghost predicate Spaced(log: seq<Grant>) {
    forall i, j :: 0 <= i < j < |log| ==>
      && log[i].time + GLOBAL_GAP_MS <= log[j].time
      && (log[i].ip == log[j].ip ==> log[i].time + IP_GAP_MS <= log[j].time)
  }

  lemma {:induction false} LastOfIsLast(log: seq<Grant>, ip: nat)
    requires Spaced(log)
    ensures forall i :: 0 <= i < |log| && log[i].ip == ip ==>
      LastOf(log, ip).Some? && log[i].time <= LastOf(log, ip).value
    ensures LastOf(log, ip).Some? ==>
      exists i :: 0 <= i < |log| && log[i].ip == ip && log[i].time == LastOf(log, ip).value
    decreases |log|
  {
    if log != [] {
      LastOfIsLast(log[..|log| - 1], ip);
      assert forall i :: 0 <= i < |log| - 1 ==> log[..|log| - 1][i] == log[i];
    }
  }

  /** Granting no earlier than the full history allows keeps every pair of grants apart. */
  lemma GrantKeepsSpacing(log: seq<Grant>, ip: nat, now: nat)
    requires Spaced(log) && Due(log, ip, now) <= now
    ensures Spaced(log + [Grant(now, ip)])
  {
    LastOfIsLast(log, ip);
  }

  // ---- the pacer

  /** Entries agree with the history, and only expired ones may be missing. */
  ghost predicate Tracks(ips: map<nat, nat>, log: seq<Grant>, clock: nat) {
    && (forall ip :: ip in ips ==> LastOf(log, ip).Some? && ips[ip] == LastOf(log, ip).value + IP_GAP_MS)
    && (forall ip :: ip !in ips && LastOf(log, ip).Some? ==> LastOf(log, ip).value + IP_GAP_MS <= clock)
  }

  function Pruned(ips: map<nat, nat>, now: nat): map<nat, nat> { map a | a in ips && ips[a] > now :: ips[a] }

  lemma PruneTracks(ips: map<nat, nat>, log: seq<Grant>, clock: nat, now: nat)
    requires Tracks(ips, log, clock) && clock <= now
    ensures Tracks(Pruned(ips, now), log, now)
  {}

  lemma GrantTracks(ips: map<nat, nat>, log: seq<Grant>, ip: nat, now: nat)
    requires Tracks(ips, log, now)
    ensures Tracks(ips[ip := now + IP_GAP_MS], log + [Grant(now, ip)], now)
  {
    LastOfAppend(log, Grant(now, ip));
  }

  class Pacer {
    var next: Option<nat>
    var ips: map<nat, nat>
    ghost var log: seq<Grant>
    ghost var clock: nat

    constructor ()
      ensures Valid() && log == [] && clock == 0
    {
      next, ips := None, map[];
      log, clock := [], 0;
    }

    ghost predicate Valid()
      reads this
    {
      && Spaced(log) && Tracks(ips, log, clock)
      && next == (if log == [] then None else Some(log[|log| - 1].time + GLOBAL_GAP_MS))
    }

    /**
      One pass under the lock, for any worker and any non-decreasing time. Although expired entries
      are dropped, the decision and the wait are those of the full grant history.
     */
    method Attempt(ip: nat, now: nat) returns (wait: Option<nat>)
      requires Valid() && clock <= now
      modifies this
      ensures Valid() && clock == now
      ensures wait.None? <==> Due(old(log), ip, now) <= now
      ensures wait.None? ==> log == old(log) + [Grant(now, ip)]
      ensures wait.Some? ==> log == old(log) && wait.value == Due(old(log), ip, now) > now
    {
      PruneTracks(ips, log, clock, now);
      clock := now;
      ips := Pruned(ips, now);
      var global := if next.Some? then next.value else now;
      var local := if ip in ips then ips[ip] else now;
      var due := if global > local then global else local;
      if due > now {
        return Some(due);
      }
      GrantKeepsSpacing(log, ip, now);
      GrantTracks(ips, log, ip, now);
      next := Some(now + GLOBAL_GAP_MS);
      ips := ips[ip := now + IP_GAP_MS];
      log := log + [Grant(now, ip)];
      return None;
    }
  }

  /** Any interleaving of workers: whoever asks, and whenever, the grants stay spaced. */
  method Interleave(pacer: Pacer, asks: seq<(nat, nat)>)
    requires pacer.Valid()
    requires forall i, j :: 0 <= i <= j < |asks| ==> pacer.clock <= asks[i].1 <= asks[j].1
    modifies pacer
    ensures pacer.Valid() && Spaced(pacer.log) && old(pacer.log) <= pacer.log
  {
    for k := 0 to |asks|
      invariant pacer.Valid() && old(pacer.log) <= pacer.log
      invariant forall i :: k <= i < |asks| ==> pacer.clock <= asks[i].1
    {
      var wait := pacer.Attempt(asks[k].0, asks[k].1);
    }
  }
}
