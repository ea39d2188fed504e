/**
  The iterative lookup of one address family: at most three queries in flight and 32 in all, a
  shortlist of the eight closest live candidates, and peers shared with the other family.
 */
module Lookup {
  import opened Orders
  import opened Ranking
  import opened NodeDistance

  const MAX_IN_FLIGHT: nat := 3
  const MAX_QUERIES: nat := 32
  const MAX_PEERS: nat := 32
  const SHORTLIST: nat := 8
  const MAX_CANDIDATES: nat := 256

  datatype Address = Address(ip: nat, port: nat)

  datatype Node = Node(id: NodeId, address: Address)

  /** `control` faults end the lookup; any other failure only fails its node. */
  datatype Reply = Response(nodes: seq<Node>, peers: seq<Address>) | Failure(control: bool)

  predicate Distinct<T(==)>(s: seq<T>) {
    forall i, j :: 0 <= i < j < |s| ==> s[i] != s[j]
  }

  // ---- peers shared by both families

  class SharedPeers {
    var peers: seq<Address>

    constructor ()
      ensures peers == [] && Valid()
    {
      peers := [];
    }

    ghost predicate Valid()
      reads this
    {
      |peers| <= MAX_PEERS && Distinct(peers)
    }

    /** What either family does to the list, and all it may rely on the other to do. */
    twostate predicate Grows()
      reads this
    {
      old(peers) <= peers && Valid()
    }

    method Collect(found: seq<Address>)
      requires Valid()
      modifies this
      ensures Grows()
      ensures forall p :: p in peers ==> p in old(peers) || p in found
      ensures |peers| < MAX_PEERS ==> forall p :: p in found ==> p in peers
    {
      for i := 0 to |found|
        invariant Grows()
        invariant forall p :: p in peers ==> p in old(peers) || p in found[..i]
        invariant |peers| < MAX_PEERS ==> forall p :: p in found[..i] ==> p in peers
      {
        assert found[..i + 1] == found[..i] + [found[i]];
        if |peers| < MAX_PEERS && found[i] !in peers {
          peers := peers + [found[i]];
        }
      }
      assert found[..|found|] == found;
    }

    /** The other family runs while this one waits. */
    method Interfere()
      requires Valid()
      modifies this
      ensures Grows()
    {
      assert peers + [] == peers;
      var more: seq<Address> :| |peers + more| <= MAX_PEERS && Distinct(peers + more);
      peers := peers + more;
    }
  }

  // ---- search state

  /** `log` lists every query sent, in order. */
  datatype Search = Search(
    candidates: map<NodeId, Address>,
    states: States,
    addresses: set<Address>,
    pending: set<Node>,
    log: seq<Node>)

  ghost predicate Bounded(s: Search) {
    |s.pending| <= MAX_IN_FLIGHT && |s.log| <= MAX_QUERIES
  }

  /** No identifier and no address is ever queried twice. */
  ghost predicate NeverTwice(s: Search) {
    && (forall i, j :: 0 <= i < j < |s.log| ==> s.log[i].id != s.log[j].id && s.log[i].address != s.log[j].address)
    && (forall i :: 0 <= i < |s.log| ==> s.log[i].id in s.states && s.log[i].address in s.addresses)
  }

  ghost predicate StatesMatchPending(s: Search) {
    && (forall n :: n in s.pending ==> n.id in s.states && s.states[n.id] == InFlight)
    && (forall id :: id in s.states ==>
          s.states[id] != Unqueried && (s.states[id] == InFlight ==> exists n :: n in s.pending && n.id == id))
    && (forall m, n :: m in s.pending && n in s.pending && m.id == n.id ==> m == n)
  }

  ghost predicate Sound(s: Search) {
    Bounded(s) && NeverTwice(s) && StatesMatchPending(s)
  }

  function Shortlist(s: Search, target: NodeId): seq<NodeId> {
    ClosestValid(s.candidates.Keys, s.states, target, SHORTLIST)
  }

  ghost predicate Decided(s: Search, ids: seq<NodeId>) {
    forall id :: id in ids ==> id in s.states
  }

  ghost function Fresh(s: Search): set<NodeId> { s.candidates.Keys - s.states.Keys }

  function Collected(seeds: seq<Node>): map<NodeId, Address> {
    if seeds == [] then map[] else Collected(seeds[..|seeds| - 1])[seeds[|seeds| - 1].id := seeds[|seeds| - 1].address]
  }

  /** States are only added, never changed. */
  ghost predicate Extends(states: States, before: States) {
    forall id :: id in before ==> id in states && states[id] == before[id]
  }

  function Query(s: Search, node: Node): Search {
    s.(states := s.states[node.id := InFlight], addresses := s.addresses + {node.address},
       pending := s.pending + {node}, log := s.log + [node])
  }

  /** One shortlist entry: known ones are skipped, a repeated address fails, the rest are queried. */
  function Offer(s: Search, id: NodeId): Search
    requires id in s.candidates
  {
    if id in s.states then s
    else if s.candidates[id] in s.addresses then s.(states := s.states[id := Failed])
    else Query(s, Node(id, s.candidates[id]))
  }

  lemma QueryKeepsLog(s: Search, node: Node)
    requires NeverTwice(s) && node.id !in s.states && node.address !in s.addresses
    ensures NeverTwice(Query(s, node))
  {
    var t := Query(s, node);
    forall i | 0 <= i < |t.log| ensures t.log[i].id in t.states && t.log[i].address in t.addresses {
      assert i == |s.log| || t.log[i] == s.log[i];
    }
    forall i, j | 0 <= i < j < |t.log| ensures t.log[i].id != t.log[j].id && t.log[i].address != t.log[j].address {
      assert t.log[i] == s.log[i] && (j == |s.log| || t.log[j] == s.log[j]);
    }
  }

  lemma QueryKeepsPending(s: Search, node: Node)
    requires StatesMatchPending(s) && node.id !in s.states
    ensures StatesMatchPending(Query(s, node)) && node !in s.pending && node in Query(s, node).pending
  {
    var t := Query(s, node);
    assert node in t.pending;
    forall i | i in t.states && t.states[i] == InFlight ensures exists n :: n in t.pending && n.id == i {
      if i != node.id {
        var n :| n in s.pending && n.id == i;
        assert n in t.pending;
      }
    }
  }

  lemma QueryIsSound(s: Search, node: Node)
    requires Sound(s) && node.id !in s.states && node.address !in s.addresses
    requires |s.pending| < MAX_IN_FLIGHT && |s.log| < MAX_QUERIES
    ensures Sound(Query(s, node)) && Query(s, node).pending != {}
  {
    QueryKeepsLog(s, node);
    QueryKeepsPending(s, node);
  }

  lemma FailIsSound(s: Search, id: NodeId)
    requires Sound(s) && id !in s.states
    ensures Sound(s.(states := s.states[id := Failed]))
  {
    assert StatesMatchPending(s.(states := s.states[id := Failed]));
  }

  lemma OfferIsSound(s: Search, id: NodeId)
    requires Sound(s) && id in s.candidates && |s.pending| < MAX_IN_FLIGHT && |s.log| < MAX_QUERIES
    ensures Sound(Offer(s, id)) && id in Offer(s, id).states
    ensures |Offer(s, id).log| == |s.log| ==> Offer(s, id).pending == s.pending
    ensures |Offer(s, id).log| > |s.log| ==> Offer(s, id).pending != {}
  {
    if id in s.states {
    } else if s.candidates[id] in s.addresses {
      FailIsSound(s, id);
    } else {
      QueryIsSound(s, Node(id, s.candidates[id]));
    }
  }

  lemma OfferExtends(s: Search, id: NodeId)
    requires id in s.candidates
    ensures s.log <= Offer(s, id).log && Extends(Offer(s, id).states, s.states)
    ensures Offer(s, id).candidates == s.candidates && forall i :: i in Offer(s, id).states ==> i == id || i in s.states
  {}

  /** The state after the shortlist entries in `done` were offered to `s0`. */
  ghost predicate Filling(s0: Search, s: Search, done: seq<NodeId>) {
    && Sound(s) && s.candidates == s0.candidates && s0.log <= s.log && Extends(s.states, s0.states)
    && (if |s.log| == |s0.log| then s.pending == s0.pending else s.pending != {})
    && (forall id :: id in s.states ==> id in s0.states || id in done)
  }

  lemma FillStep(s0: Search, s: Search, done: seq<NodeId>, id: NodeId)
    requires Filling(s0, s, done) && Decided(s, done) && id in s.candidates
    requires |s.pending| < MAX_IN_FLIGHT && |s.log| < MAX_QUERIES
    ensures Filling(s0, Offer(s, id), done + [id]) && Decided(Offer(s, id), done + [id])
  {
    OfferIsSound(s, id);
    OfferExtends(s, id);
  }

  lemma TakeOneMore(ids: seq<NodeId>, k: nat)
    requires k < |ids|
    ensures ids[..k + 1] == ids[..k] + [ids[k]] && ids[k] in ids
  {}

  lemma FillingPrefix(s0: Search, s: Search, closest: seq<NodeId>, k: nat)
    requires k <= |closest| && Filling(s0, s, closest[..k])
    ensures Filling(s0, s, closest)
  {}

  /** The nearest entries of the shortlist were considered first, and as many of them as the limits allow. */
  ghost predicate FilledFrom(s0: Search, s: Search, closest: seq<NodeId>, k: nat) {
    && k <= |closest| && Filling(s0, s, closest[..k]) && Decided(s, closest[..k])
    && (k == |closest| || |s.pending| == MAX_IN_FLIGHT || |s.log| == MAX_QUERIES)
  }

  /** Fill the free slots from the shortlist, nearest first. */
  method FillSlots(s0: Search, target: NodeId) returns (s: Search)
    requires Sound(s0)
    ensures Filling(s0, s, Shortlist(s0, target))
    ensures exists k: nat :: FilledFrom(s0, s, Shortlist(s0, target), k)
    ensures |s.pending| < MAX_IN_FLIGHT ==> |s.log| == MAX_QUERIES || Decided(s, Shortlist(s0, target))
  {
    s := s0;
    var closest := Shortlist(s0, target);
    for k := 0 to |closest|
      invariant Filling(s0, s, closest[..k]) && Decided(s, closest[..k])
    {
      if |s.pending| >= MAX_IN_FLIGHT || |s.log| >= MAX_QUERIES {
        FillingPrefix(s0, s, closest, k);
        assert FilledFrom(s0, s, closest, k);
        return;
      }
      TakeOneMore(closest, k);
      FillStep(s0, s, closest[..k], closest[k]);
      s := Offer(s, closest[k]);
    }
    assert closest[..|closest|] == closest;
    assert FilledFrom(s0, s, closest, |closest|);
  }

  function AddCandidates(candidates: map<NodeId, Address>, nodes: seq<Node>): map<NodeId, Address> {
    if nodes == [] then candidates
    else
      var before, n := AddCandidates(candidates, nodes[..|nodes| - 1]), nodes[|nodes| - 1];
      if n.id in before then before else before[n.id := n.address]
  }

  function TrimCandidates(candidates: map<NodeId, Address>, target: NodeId): map<NodeId, Address> {
    if |candidates| <= MAX_CANDIDATES then candidates
    else map id | id in candidates && id in First(candidates.Keys, Closer(target), MAX_CANDIDATES) :: candidates[id]
  }

  /** Trimming keeps the 256 closest, so it never costs a shortlist member its place to a farther node. */
  lemma TrimKeepsClosest(candidates: map<NodeId, Address>, target: NodeId, inside: NodeId, outside: NodeId)
    requires inside in TrimCandidates(candidates, target) && outside in candidates
    requires outside !in TrimCandidates(candidates, target)
    ensures |TrimCandidates(candidates, target)| == MAX_CANDIDATES && Nearer(target, inside, outside)
  {
    CloserOrder(target);
    var kept := First(candidates.Keys, Closer(target), MAX_CANDIDATES);
    FirstSize(candidates.Keys, Closer(target), MAX_CANDIDATES);
    assert TrimCandidates(candidates, target).Keys == kept;
    FirstComesFirst(candidates.Keys, Closer(target), MAX_CANDIDATES, inside, outside);
    assert Closer(target)(inside, outside);
  }

  function Settle(s: Search, node: Node, reply: Reply, trusted: bool, target: NodeId): Search {
    var t := s.(pending := s.pending - {node},
                states := s.states[node.id := if reply.Response? && trusted then Succeeded else Failed]);
    if reply.Response? then t.(candidates := TrimCandidates(AddCandidates(s.candidates, reply.nodes), target)) else t
  }

  lemma SettleIsSound(s: Search, node: Node, reply: Reply, trusted: bool, target: NodeId)
    requires Sound(s) && node in s.pending
    ensures Sound(Settle(s, node, reply, trusted, target))
    ensures |Settle(s, node, reply, trusted, target).pending| == |s.pending| - 1
  {
    var t := Settle(s, node, reply, trusted, target);
    forall id | id in t.states && t.states[id] == InFlight ensures exists n :: n in t.pending && n.id == id {
      var n :| n in s.pending && n.id == id;
      assert n in t.pending;
    }
  }

  // ---- the loop

  method Await(pending: set<Node>, shared: SharedPeers) returns (node: Node, reply: Reply)
    requires pending != {} && shared.Valid()
    modifies shared
    ensures node in pending && shared.Grows()
  {
    shared.Interfere();
    node :| node in pending;
    reply := *;
  }

  /** Every shortlist entry that is left has answered and is trusted. */
  ghost predicate Converged(s: Search, target: NodeId) {
    forall id :: id in Shortlist(s, target) ==> StateOf(s.states, id) == Succeeded
  }

  lemma DecidedMeansConverged(s: Search, target: NodeId)
    requires Sound(s) && s.pending == {} && Decided(s, Shortlist(s, target))
    ensures Converged(s, target)
  {}

  lemma SameKeysSameStates(states: States, before: States)
    requires Extends(states, before) && states.Keys == before.Keys
    ensures states == before
  {}

  /** If everything shortlisted before is decided, a new undecided entry means a state was added. */
  lemma UndecidedMeansProgress(before: Search, s: Search, target: NodeId)
    requires Filling(before, s, Shortlist(before, target))
    requires Decided(s, Shortlist(before, target)) && !Decided(s, Shortlist(s, target))
    ensures |Fresh(s)| < |Fresh(before)|
  {
    if Decided(before, Shortlist(before, target)) {
      SameKeysSameStates(s.states, before.states);
    }
    var id :| id in Shortlist(before, target) && id !in before.states;
    assert id in Fresh(before) && id !in Fresh(s) && Fresh(s) <= Fresh(before);
    SubsetSize(Fresh(s), Fresh(before));
  }

  lemma FreshShrinks(before: Search, s: Search)
    requires s.candidates == before.candidates && Extends(s.states, before.states)
    ensures |Fresh(s)| <= |Fresh(before)|
  {
    SubsetSize(Fresh(s), Fresh(before));
  }

  /**
    The lookup terminates whatever the queried nodes answer, and a normal end below both limits has
    converged. `control` reports the fault that ends a lookup early.
   */
  method Run(target: NodeId, seeds: seq<Node>, shared: SharedPeers, trusted: (NodeId, nat) -> bool)
    returns (control: bool, s: Search)
    requires shared.Valid()
    modifies shared
    ensures shared.Grows()
    ensures Sound(s)
    ensures !control ==>
      |shared.peers| == MAX_PEERS || |s.log| == MAX_QUERIES || (s.pending == {} && Converged(s, target))
  {
    s := Search(Collected(seeds), map[], {}, {}, []);
    control := false;
    while true
      invariant Sound(s) && shared.Grows()
      decreases MAX_QUERIES - |s.log|, |s.pending|, |Fresh(s)|
    {
      if |shared.peers| >= MAX_PEERS {
        return;
      }
      ghost var before := s;
      s := FillSlots(s, target);
      FreshShrinks(before, s);
      if s.pending == {} {
        var again := MoreToTry(before, s, target);
        if again {
          continue;
        }
        return;
      }
      control, s := Receive(s, target, shared, trusted);
      if control {
        return;
      }
    }
  }

  /** With nothing in flight: go on exactly if queries are left and the shortlist has an untried entry. */
  method MoreToTry(ghost before: Search, s: Search, target: NodeId) returns (again: bool)
    requires Filling(before, s, Shortlist(before, target)) && s.pending == {}
    requires |s.log| == MAX_QUERIES || Decided(s, Shortlist(before, target))
    ensures again ==> |Fresh(s)| < |Fresh(before)|
    ensures !again ==> |s.log| == MAX_QUERIES || Converged(s, target)
  {
    again := |s.log| < MAX_QUERIES && exists id :: id in Shortlist(s, target) && id !in s.states;
    if again {
      UndecidedMeansProgress(before, s, target);
    } else if |s.log| < MAX_QUERIES {
      DecidedMeansConverged(s, target);
    }
  }

  /** One reply: a control fault stops the lookup, anything else frees a slot. */
  method Receive(s: Search, target: NodeId, shared: SharedPeers, trusted: (NodeId, nat) -> bool)
    returns (control: bool, t: Search)
    requires Sound(s) && s.pending != {} && shared.Valid()
    modifies shared
    ensures shared.Grows() && Sound(t) && t.log == s.log
    ensures control ==> t == s
    ensures !control ==> |t.pending| == |s.pending| - 1
    ensures !control ==>
      exists n, reply :: n in s.pending && t == Settle(s, n, reply, trusted(n.id, n.address.ip), target)
  {
    var node, reply := Await(s.pending, shared);
    if reply.Failure? && reply.control {
      return true, s;
    }
    SettleIsSound(s, node, reply, trusted(node.id, node.address.ip), target);
    if reply.Response? {
      shared.Collect(reply.peers);
    }
    return false, Settle(s, node, reply, trusted(node.id, node.address.ip), target);
  }
}
