/**
  One TCP permit per IP, with weak table entries and strong counts made explicit. The table of
  semaphores refines a plain map from each IP to its first-come-first-served line of tickets.
 */
module TcpLimits {

  type Ip = nat
  type Ticket = nat
  type Sem = nat

  // ---- the plain rule

  /** The head of a line holds the permit, the others wait in order; an IP without a line is absent. */
  type Lines = map<Ip, seq<Ticket>>

  function Without(line: seq<Ticket>, t: Ticket): seq<Ticket> {
    if line == [] then [] else if line[0] == t then line[1..] else [line[0]] + Without(line[1..], t)
  }

  function Join(lines: Lines, ip: Ip, t: Ticket): Lines {
    lines[ip := (if ip in lines then lines[ip] else []) + [t]]
  }

  function Leave(lines: Lines, ip: Ip, t: Ticket): Lines
    requires ip in lines
  {
    var rest := Without(lines[ip], t);
    if rest == [] then lines - {ip} else lines[ip := rest]
  }

  ghost predicate Distinct(line: seq<Ticket>) {
    forall i, j :: 0 <= i < j < |line| ==> line[i] != line[j]
  }

  lemma {:induction false} WithoutMembers(line: seq<Ticket>, t: Ticket)
    requires Distinct(line) && t in line
    ensures |Without(line, t)| == |line| - 1
    ensures forall u :: u in Without(line, t) <==> u in line && u != t
    decreases |line|
  {
    assert forall u :: u in line <==> u == line[0] || u in line[1..];
    if line[0] != t {
      WithoutMembers(line[1..], t);
    }
  }

  lemma {:induction false} WithoutDistinct(line: seq<Ticket>, t: Ticket)
    requires Distinct(line) && t in line
    ensures Distinct(Without(line, t))
    decreases |line|
  {
    if line[0] != t {
      WithoutDistinct(line[1..], t);
      WithoutMembers(line[1..], t);
      var rest := Without(line[1..], t);
      forall j | 0 <= j < |rest| ensures rest[j] != line[0] {
        assert rest[j] in rest;
      }
    }
  }

  // ---- the program's state

  /**
    `strong` counts the strong references: one per ticket, and one per wait or permit. `holder` and
    `queue` are the semaphore's own bookkeeping of who was granted and who waits.
   */
  datatype Semaphore = Semaphore(strong: nat, permits: nat, holder: seq<Ticket>, queue: seq<Ticket>)

  datatype Registration = Registration(ip: Ip, sem: Sem)

  datatype Tcp = Tcp(table: map<Ip, Sem>, sems: map<Sem, Semaphore>, tickets: map<Ticket, Registration>, nextSem: Sem)

  ghost function Line(s: Semaphore): seq<Ticket> { s.holder + s.queue }

  /** Exactly one ticket holds, and every ticket of the line accounts for two strong references. */
  ghost predicate Served(s: Semaphore) {
    |s.holder| == 1 && s.permits == 0 && Distinct(Line(s)) && s.strong == 2 * |Line(s)|
  }

  /** The line of an IP: served, and made of tickets registered for just this IP and semaphore. */
  ghost predicate LineOk(v: Tcp, ip: Ip)
    requires ip in v.table
  {
    && v.table[ip] in v.sems && Served(v.sems[v.table[ip]])
    && forall t :: t in Line(v.sems[v.table[ip]]) ==> t in v.tickets && v.tickets[t] == Registration(ip, v.table[ip])
  }

  ghost predicate Valid(v: Tcp) {
    && (forall s :: s in v.sems ==> s < v.nextSem)
    && (forall ip :: ip in v.table ==> LineOk(v, ip))
    && (forall t :: t in v.tickets ==> OnItsLine(v, t))
  }

  /** A live ticket is registered with the semaphore its IP's table entry names, and stands in its line. */
  ghost predicate OnItsLine(v: Tcp, t: Ticket)
    requires t in v.tickets
  {
    var r := v.tickets[t];
    r.ip in v.table && r.sem == v.table[r.ip] && r.sem in v.sems && t in Line(v.sems[r.sem])
  }

  ghost function LineAt(v: Tcp, ip: Ip): seq<Ticket>
    requires ip in v.table
  {
    if v.table[ip] in v.sems then Line(v.sems[v.table[ip]]) else []
  }

  ghost function LinesOf(v: Tcp): Lines { map ip | ip in v.table :: LineAt(v, ip) }

  function Admit(s: Semaphore, t: Ticket): Semaphore {
    if s.permits > 0 && s.queue == [] then Semaphore(s.strong + 2, s.permits - 1, s.holder + [t], s.queue)
    else Semaphore(s.strong + 2, s.permits, s.holder, s.queue + [t])
  }

  /** The wait or the permit goes first: the permit passes to the next in the queue. */
  function Release(s: Semaphore, t: Ticket): Semaphore
    requires s.strong > 0
  {
    if t !in s.holder then s.(strong := s.strong - 1, queue := Without(s.queue, t))
    else if s.queue == [] then Semaphore(s.strong - 1, s.permits + 1, Without(s.holder, t), [])
    else Semaphore(s.strong - 1, s.permits, Without(s.holder, t) + [s.queue[0]], s.queue[1..])
  }

  lemma AdmitServes(s: Semaphore, t: Ticket)
    requires (Served(s) && t !in Line(s)) || s == Semaphore(0, 1, [], [])
    ensures Served(Admit(s, t)) && Line(Admit(s, t)) == Line(s) + [t]
  {
    assert Line(Admit(s, t)) == Line(s) + [t];
  }

  lemma ReleaseServes(s: Semaphore, t: Ticket)
    requires Served(s) && t in Line(s)
    ensures Line(Release(s, t)) == Without(Line(s), t)
    ensures Release(s, t).strong == 2 * |Without(Line(s), t)| + 1
    ensures Without(Line(s), t) != [] ==> Served(Release(s, t).(strong := Release(s, t).strong - 1))
    ensures Without(Line(s), t) == [] ==> Release(s, t).strong == 1
  {
    assert Line(s)[0] == s.holder[0] && Line(s)[1..] == s.queue;
    WithoutMembers(Line(s), t);
    WithoutDistinct(Line(s), t);
    if t == s.holder[0] {
      assert s.holder == [t];
      assert Line(Release(s, t)) == s.queue;
    } else {
      assert s.holder == [s.holder[0]];
      assert t !in s.holder;
      assert Line(Release(s, t)) == [s.holder[0]] + Without(s.queue, t);
    }
  }

  // ---- the two operations on the whole state

  ghost function Acquired(v: Tcp, ip: Ip, t: Ticket): Tcp
    requires Valid(v)
  {
    var sem := if ip in v.table then v.table[ip] else v.nextSem;
    var s := if ip in v.table then v.sems[sem] else Semaphore(0, 1, [], []);
    Tcp(v.table[ip := sem], v.sems[sem := Admit(s, t)], v.tickets[t := Registration(ip, sem)],
        if ip in v.table then v.nextSem else v.nextSem + 1)
  }

  /** Different IPs never share a semaphore, because each line's head names only one IP. */
  lemma SemaphoresAreSeparate(v: Tcp, a: Ip, b: Ip)
    requires Valid(v) && a in v.table && b in v.table && v.table[a] == v.table[b]
    ensures a == b
  {
    assert LineOk(v, a) && LineOk(v, b);
    var s := v.sems[v.table[a]];
    var t := s.holder[0];
    assert Line(s)[0] == t && t in Line(s);
    assert v.tickets[t].ip == a;
  }

  /** A change to one IP's line leaves the others alone. */
  lemma OtherLine(v: Tcp, w: Tcp, ip: Ip, sem: Sem, t: Ticket, a: Ip)
    requires Valid(v) && a in v.table && a != ip && a in w.table && w.table[a] == v.table[a]
    requires (ip in v.table && sem == v.table[ip]) || sem == v.nextSem
    requires forall s :: s in v.sems && s != sem ==> s in w.sems && w.sems[s] == v.sems[s]
    requires forall u :: u in v.tickets && u != t ==> u in w.tickets && w.tickets[u] == v.tickets[u]
    requires t !in v.tickets || v.tickets[t].ip == ip
    ensures LineOk(w, a) && w.sems[w.table[a]] == v.sems[v.table[a]] && v.table[a] != sem
  {
    assert LineOk(v, a);
    if v.table[a] == sem { SemaphoresAreSeparate(v, a, ip); }
    assert forall u :: u in Line(v.sems[v.table[a]]) ==> u != t;
  }

  lemma AcquiredLine(v: Tcp, ip: Ip, t: Ticket)
    requires Valid(v) && t !in v.tickets
    ensures LineOk(Acquired(v, ip, t), ip)
    ensures var w := Acquired(v, ip, t); Line(w.sems[w.table[ip]]) == Join(LinesOf(v), ip, t)[ip]
  {
    if ip in v.table {
      assert LineOk(v, ip);
      AdmitServes(v.sems[v.table[ip]], t);
    } else {
      AdmitServes(Semaphore(0, 1, [], []), t);
    }
  }

  lemma AcquiredTicket(v: Tcp, ip: Ip, t: Ticket, u: Ticket)
    requires Valid(v) && t !in v.tickets && u in Acquired(v, ip, t).tickets
    ensures OnItsLine(Acquired(v, ip, t), u)
  {
    AcquiredLine(v, ip, t);
    if u != t {
      assert OnItsLine(v, u);
      if v.tickets[u].ip != ip {
        OtherLine(v, Acquired(v, ip, t), ip, Acquired(v, ip, t).table[ip], t, v.tickets[u].ip);
      }
    }
  }

  lemma AcquiredOther(v: Tcp, ip: Ip, t: Ticket, a: Ip)
    requires Valid(v) && t !in v.tickets && a in v.table && a != ip
    ensures var w := Acquired(v, ip, t); LineOk(w, a) && w.sems[w.table[a]] == v.sems[v.table[a]]
  {
    OtherLine(v, Acquired(v, ip, t), ip, Acquired(v, ip, t).table[ip], t, a);
  }

  lemma AcquireKeepsValid(v: Tcp, ip: Ip, t: Ticket)
    requires Valid(v) && t !in v.tickets
    ensures Valid(Acquired(v, ip, t))
  {
    var w := Acquired(v, ip, t);
    forall a | a in w.table ensures LineOk(w, a) {
      if a == ip { AcquiredLine(v, ip, t); } else { AcquiredOther(v, ip, t, a); }
    }
    forall u | u in w.tickets ensures OnItsLine(w, u) {
      AcquiredTicket(v, ip, t, u);
    }
  }

  lemma AcquiredLineAt(v: Tcp, ip: Ip, t: Ticket, a: Ip)
    requires Valid(v) && t !in v.tickets && a in Acquired(v, ip, t).table
    ensures LineAt(Acquired(v, ip, t), a) == if a in v.table then LineAt(v, a) + (if a == ip then [t] else []) else [t]
  {
    if a == ip { AcquiredLine(v, ip, t); } else { AcquiredOther(v, ip, t, a); }
    assert a in v.table ==> LineOk(v, a);
  }

  lemma SameLines(a: Lines, b: Lines)
    requires a.Keys == b.Keys && forall ip :: ip in a ==> a[ip] == b[ip]
    ensures a == b
  {}

  /** Taking part in the table of semaphores is joining the line of the IP. */
  lemma AcquireRefines(v: Tcp, ip: Ip, t: Ticket)
    requires Valid(v) && t !in v.tickets
    ensures LinesOf(Acquired(v, ip, t)) == Join(LinesOf(v), ip, t)
  {
    var lines, joined := LinesOf(Acquired(v, ip, t)), Join(LinesOf(v), ip, t);
    forall a | a in lines ensures a in joined && lines[a] == joined[a] {
      AcquiredLineAt(v, ip, t, a);
    }
    assert lines.Keys == joined.Keys;
    SameLines(lines, joined);
  }

  ghost function Left(v: Tcp, t: Ticket): Tcp
    requires Valid(v) && t in v.tickets
  {
    var r := v.tickets[t];
    assert OnItsLine(v, t) && LineOk(v, r.ip);
    var s := Release(v.sems[r.sem], t);
    var table := if s.strong == 1 then v.table - {r.ip} else v.table;
    Tcp(table, v.sems[r.sem := s.(strong := s.strong - 1)], v.tickets - {t}, v.nextSem)
  }

  lemma LeftLine(v: Tcp, t: Ticket)
    requires Valid(v) && t in v.tickets
    ensures var w, r := Left(v, t), v.tickets[t];
      && r.ip in v.table && r.sem == v.table[r.ip] && r.sem in v.sems && t in Line(v.sems[r.sem])
      && (r.ip in w.table <==> Without(Line(v.sems[r.sem]), t) != [])
      && (r.ip in w.table ==>
            w.table[r.ip] == r.sem && LineOk(w, r.ip) && Line(w.sems[r.sem]) == Without(Line(v.sems[r.sem]), t))
  {
    var r := v.tickets[t];
    assert OnItsLine(v, t) && LineOk(v, r.ip);
    ReleaseServes(v.sems[r.sem], t);
    WithoutMembers(Line(v.sems[r.sem]), t);
  }

  lemma LeftTicket(v: Tcp, t: Ticket, u: Ticket)
    requires Valid(v) && t in v.tickets && u in Left(v, t).tickets
    ensures OnItsLine(Left(v, t), u)
  {
    var r := v.tickets[t];
    LeftLine(v, t);
    assert OnItsLine(v, u) && LineOk(v, r.ip);
    if v.tickets[u].ip == r.ip {
      WithoutMembers(Line(v.sems[r.sem]), t);
      assert u in Without(Line(v.sems[r.sem]), t);
    } else {
      OtherLine(v, Left(v, t), r.ip, r.sem, t, v.tickets[u].ip);
    }
  }

  lemma LeftOther(v: Tcp, t: Ticket, a: Ip)
    requires Valid(v) && t in v.tickets && a in v.table && a != v.tickets[t].ip
    ensures var w := Left(v, t); a in w.table && LineOk(w, a) && w.sems[w.table[a]] == v.sems[v.table[a]]
  {
    assert OnItsLine(v, t);
    OtherLine(v, Left(v, t), v.tickets[t].ip, v.tickets[t].sem, t, a);
  }

  lemma LeaveKeepsValid(v: Tcp, t: Ticket)
    requires Valid(v) && t in v.tickets
    ensures Valid(Left(v, t))
  {
    var w := Left(v, t);
    LeftLine(v, t);
    forall a | a in w.table ensures LineOk(w, a) {
      if a != v.tickets[t].ip { LeftOther(v, t, a); }
    }
    forall u | u in w.tickets ensures OnItsLine(w, u) {
      LeftTicket(v, t, u);
    }
  }

  lemma LeftLineAt(v: Tcp, t: Ticket)
    requires Valid(v) && t in v.tickets
    ensures var w, ip := Left(v, t), v.tickets[t].ip;
      && ip in v.table && t in LineAt(v, ip)
      && (ip in w.table <==> Without(LineAt(v, ip), t) != [])
      && (ip in w.table ==> LineAt(w, ip) == Without(LineAt(v, ip), t))
      && (forall a :: a in v.table && a != ip ==> a in w.table && LineAt(w, a) == LineAt(v, a))
      && w.table.Keys <= v.table.Keys
  {
    LeftLine(v, t);
    forall a | a in v.table && a != v.tickets[t].ip ensures a in Left(v, t).table && LineAt(Left(v, t), a) == LineAt(v, a) {
      assert LineOk(v, a);
      LeftOther(v, t, a);
    }
  }

  lemma LeaveLines(before: Lines, after: Lines, ip: Ip, t: Ticket)
    requires ip in before && after.Keys <= before.Keys
    requires ip in after <==> Without(before[ip], t) != []
    requires ip in after ==> after[ip] == Without(before[ip], t)
    requires forall a :: a in before && a != ip ==> a in after && after[a] == before[a]
    ensures after == Leave(before, ip, t)
  {
    assert after.Keys == Leave(before, ip, t).Keys;
  }

  /** Dropping a permit or a wait is leaving the line; the entry goes with the last one. */
  lemma LeaveRefines(v: Tcp, t: Ticket)
    requires Valid(v) && t in v.tickets
    ensures v.tickets[t].ip in LinesOf(v) && LinesOf(Left(v, t)) == Leave(LinesOf(v), v.tickets[t].ip, t)
  {
    LeftLineAt(v, t);
    LeaveLines(LinesOf(v), LinesOf(Left(v, t)), v.tickets[t].ip, t);
  }

  // ---- the program

  class TcpState {
    var table: map<Ip, Sem>
    var sems: map<Sem, Semaphore>
    var tickets: map<Ticket, Registration>
    var nextSem: Sem

    constructor ()
      ensures Valid(View()) && LinesOf(View()) == map[]
    {
      table, sems, tickets, nextSem := map[], map[], map[], 0;
    }

    ghost function View(): Tcp
      reads this
    {
      Tcp(table, sems, tickets, nextSem)
    }

    /** Upgrade the weak entry or replace it, register, then take the permit or join the queue. */
    method Acquire(ip: Ip, t: Ticket)
      requires Valid(View()) && t !in tickets
      modifies this
      ensures View() == Acquired(old(View()), ip, t)
    {
      assert ip in table ==> LineOk(View(), ip);
      var sem;
      if ip in table && sems[table[ip]].strong > 0 {
        sem := table[ip];
      } else {
        sem, nextSem := nextSem, nextSem + 1;
        sems := sems[sem := Semaphore(0, 1, [], [])];
      }
      table := table[ip := sem];
      tickets := tickets[t := Registration(ip, sem)];
      sems := sems[sem := Admit(sems[sem], t)];
    }

    /**
      Dropping a permit, or a wait that is cancelled: the acquisition goes first, then the ticket
      looks at the strong count and clears the entry if it holds the last reference.
     */
    method Drop(t: Ticket)
      requires Valid(View()) && t in tickets
      modifies this
      ensures View() == Left(old(View()), t)
    {
      var r := tickets[t];
      assert OnItsLine(View(), t) && LineOk(View(), r.ip);
      sems := sems[r.sem := Release(sems[r.sem], t)];
      if sems[r.sem].strong == 1 {
        table := table - {r.ip};
      }
      tickets := tickets - {t};
      sems := sems[r.sem := sems[r.sem].(strong := sems[r.sem].strong - 1)];
    }
  }

  // ---- every interleaving

  datatype Event = Start(ip: Ip, ticket: Ticket) | Finish(ticket: Ticket)

  ghost predicate Possible(v: Tcp, events: seq<Event>)
    requires Valid(v)
    decreases |events|
  {
    events == [] ||
    match events[0]
    case Start(ip, t) => t !in v.tickets && (AcquireKeepsValid(v, ip, t); Possible(Acquired(v, ip, t), events[1..]))
    case Finish(t) => t in v.tickets && (LeaveKeepsValid(v, t); Possible(Left(v, t), events[1..]))
  }

  ghost function After(v: Tcp, events: seq<Event>): Tcp
    requires Valid(v) && Possible(v, events)
    decreases |events|
  {
    if events == [] then v
    else
      match events[0]
      case Start(ip, t) => AcquireKeepsValid(v, ip, t); After(Acquired(v, ip, t), events[1..])
      case Finish(t) => LeaveKeepsValid(v, t); After(Left(v, t), events[1..])
  }

  ghost function PlainAfter(lines: Lines, owner: map<Ticket, Ip>, events: seq<Event>): Lines
    decreases |events|
  {
    if events == [] then lines
    else
      match events[0]
      case Start(ip, t) => PlainAfter(Join(lines, ip, t), owner[t := ip], events[1..])
      case Finish(t) =>
        if t in owner && owner[t] in lines then PlainAfter(Leave(lines, owner[t], t), owner - {t}, events[1..])
        else PlainAfter(lines, owner, events[1..])
  }

  ghost function Owners(v: Tcp): map<Ticket, Ip> { map t | t in v.tickets :: v.tickets[t].ip }

  lemma OwnersAfter(v: Tcp, w: Tcp, ip: Ip, sem: Sem, t: Ticket)
    ensures w.tickets == v.tickets[t := Registration(ip, sem)] ==> Owners(w) == Owners(v)[t := ip]
    ensures w.tickets == v.tickets - {t} ==> Owners(w) == Owners(v) - {t}
  {}

  /** Any interleaving of acquisitions, cancellations and releases behaves like the plain lines. */
  lemma {:induction false} EveryInterleavingRefines(v: Tcp, events: seq<Event>)
    requires Valid(v) && Possible(v, events)
    ensures Valid(After(v, events))
    ensures LinesOf(After(v, events)) == PlainAfter(LinesOf(v), Owners(v), events)
    decreases |events|
  {
    if events != [] {
      match events[0]
      case Start(ip, t) =>
        AcquireKeepsValid(v, ip, t);
        AcquireRefines(v, ip, t);
        OwnersAfter(v, Acquired(v, ip, t), ip, Acquired(v, ip, t).table[ip], t);
        EveryInterleavingRefines(Acquired(v, ip, t), events[1..]);
      case Finish(t) =>
        LeaveKeepsValid(v, t);
        LeaveRefines(v, t);
        OwnersAfter(v, Left(v, t), 0, 0, t);
        EveryInterleavingRefines(Left(v, t), events[1..]);
    }
  }

  /** The table holds exactly the IPs that have a holder or a waiter, and each has exactly one holder. */
  lemma TableHasExactlyTheLines(v: Tcp)
    requires Valid(v)
    ensures forall ip :: ip in v.table <==> exists t :: t in v.tickets && v.tickets[t].ip == ip
    ensures forall ip :: ip in v.table ==> |v.sems[v.table[ip]].holder| == 1
    ensures forall t, u :: t in v.tickets && u in v.tickets && v.tickets[t].ip == v.tickets[u].ip ==>
      v.tickets[t].sem == v.tickets[u].sem
  {
    forall ip | ip in v.table ensures exists t :: t in v.tickets && v.tickets[t].ip == ip {
      assert LineOk(v, ip);
      var s := v.sems[v.table[ip]];
      assert Line(s)[0] == s.holder[0] && s.holder[0] in Line(s);
    }
    forall t | t in v.tickets ensures v.tickets[t].ip in v.table && v.tickets[t].sem == v.table[v.tickets[t].ip] {
      assert OnItsLine(v, t);
    }
  }

  // ---- the other field order

  /**
    The permit with its two fields swapped: the ticket looks at the strong count while the permit still
    holds its own reference, and only then is the acquisition released.
   */
  ghost function LeftSwapped(v: Tcp, t: Ticket): Tcp
    requires Valid(v) && t in v.tickets
  {
    var r := v.tickets[t];
    assert OnItsLine(v, t) && LineOk(v, r.ip);
    var s := v.sems[r.sem];
    var table := if s.strong == 1 then v.table - {r.ip} else v.table;
    Tcp(table, v.sems[r.sem := Release(s.(strong := s.strong - 1), t)], v.tickets - {t}, v.nextSem)
  }

  lemma ReleaseCommutes(s: Semaphore, t: Ticket)
    requires Served(s) && t in Line(s)
    ensures Release(s.(strong := s.strong - 1), t) == Release(s, t).(strong := Release(s, t).strong - 1)
  {
    assert |Line(s)| >= 1;
  }

  /** A ticket is the last of its line exactly when no other live ticket has its IP. */
  lemma LastOfLine(v: Tcp, t: Ticket)
    requires Valid(v) && t in v.tickets
    ensures v.tickets[t].ip in v.table && t in LineAt(v, v.tickets[t].ip)
    ensures LineAt(v, v.tickets[t].ip) == [t] <==>
      forall u :: u in v.tickets && u != t ==> v.tickets[u].ip != v.tickets[t].ip
  {
    var ip := v.tickets[t].ip;
    assert OnItsLine(v, t) && LineOk(v, ip);
    var line := LineAt(v, ip);
    forall u | u in v.tickets && v.tickets[u].ip == ip ensures u in line {
      assert OnItsLine(v, u);
    }
    if line != [t] {
      WithoutMembers(line, t);
      assert Without(line, t) != [];
      var u := Without(line, t)[0];
      assert u in Without(line, t);
      assert u in v.tickets && v.tickets[u].ip == ip;
    }
  }

  ghost predicate TableMatchesTickets(v: Tcp) {
    forall ip :: ip in v.table <==> exists t :: t in v.tickets && v.tickets[t].ip == ip
  }

  /** Swapping the fields changes nothing but whether the entry is cleared: it never is. */
  lemma SwappedKeepsTable(v: Tcp, t: Ticket)
    requires Valid(v) && t in v.tickets
    ensures LeftSwapped(v, t) == Left(v, t).(table := v.table)
  {
    var r := v.tickets[t];
    assert OnItsLine(v, t) && LineOk(v, r.ip);
    ReleaseCommutes(v.sems[r.sem], t);
  }

  lemma LastReference(v: Tcp, t: Ticket)
    requires Valid(v) && t in v.tickets && LineAt(v, v.tickets[t].ip) == [t]
    ensures var r := v.tickets[t]; v.table[r.ip] == r.sem && Left(v, t).sems[r.sem].strong == 0 && r.ip !in Left(v, t).table
  {
    var r := v.tickets[t];
    assert OnItsLine(v, t) && LineOk(v, r.ip);
    ReleaseServes(v.sems[r.sem], t);
    LeftLine(v, t);
  }

  /**
    With the fields swapped the entry always survives. It outlives every ticket of its IP, with no
    reference left, exactly when the ticket was the last of its line; only then does the order matter.
   */
  lemma WrongDropOrderLeaks(v: Tcp, t: Ticket)
    requires Valid(v) && t in v.tickets
    ensures var w, r := LeftSwapped(v, t), v.tickets[t];
      && r.ip in w.table && (LineAt(v, r.ip) == [t] ==> w.sems[w.table[r.ip]].strong == 0)
      && (LineAt(v, r.ip) == [t] <==> !TableMatchesTickets(w))
      && (LineAt(v, r.ip) == [t] <==> w != Left(v, t))
  {
    var w, r := LeftSwapped(v, t), v.tickets[t];
    SwappedKeepsTable(v, t);
    LastOfLine(v, t);
    if LineAt(v, r.ip) == [t] {
      LastReference(v, t);
      assert r.ip in w.table && forall u :: u in w.tickets ==> w.tickets[u].ip != r.ip;
    } else {
      LeftLineAt(v, t);
      assert w.table == Left(v, t).table;
      LeaveKeepsValid(v, t);
      TableHasExactlyTheLines(Left(v, t));
    }
  }
}
