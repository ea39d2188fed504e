/** Node identifiers, the XOR distance, and the shortlist of closest candidates. */
module NodeDistance {
  import opened Orders
  import opened Ranking

  const ID_BITS: nat := 160

  /** A node identifier as its bits, most significant first: byte order and bit order agree. */
  type NodeId = id: seq<bool> | |id| == ID_BITS witness seq(ID_BITS, _ => false)

  predicate BitLess(a: bool, b: bool) { !a && b }

  function Xor(a: seq<bool>, b: seq<bool>): (d: seq<bool>)
    requires |a| == |b|
    ensures |d| == |a|
  {
    if a == [] then [] else [a[0] != b[0]] + Xor(a[1..], b[1..])
  }

  function Distance(a: NodeId, b: NodeId): NodeId { Xor(a, b) }

  predicate Nearer(target: NodeId, a: NodeId, b: NodeId) {
    LexLess(BitLess, Distance(a, target), Distance(b, target))
  }

  function Closer(target: NodeId): (NodeId, NodeId) -> bool {
    (a: NodeId, b: NodeId) => Nearer(target, a, b)
  }

  lemma BitOrder()
    ensures StrictTotal(BitLess)
  {}

  /** No two nodes are equally far from a target, so sorting by distance leaves no ties. */
  lemma {:induction false} XorInjective(t: seq<bool>, a: seq<bool>, b: seq<bool>)
    requires |a| == |b| == |t| && Xor(a, t) == Xor(b, t)
    ensures a == b
  {
    if a != [] {
      assert Xor(a, t)[0] == Xor(b, t)[0] && Xor(a, t)[1..] == Xor(b, t)[1..];
      XorInjective(t[1..], a[1..], b[1..]);
      assert a == [a[0]] + a[1..] && b == [b[0]] + b[1..];
    }
  }

  lemma CloserOrder(target: NodeId)
    ensures StrictTotal(Closer(target))
  {
    BitOrder();
    forall a: NodeId ensures !Nearer(target, a, a) { LexIrreflexive(BitLess, Distance(a, target)); }
    forall a: NodeId, b: NodeId ensures Nearer(target, a, b) || Nearer(target, b, a) || a == b {
      LexConnected(BitLess, Distance(a, target), Distance(b, target));
      if Distance(a, target) == Distance(b, target) { XorInjective(target, a, b); }
    }
    forall a: NodeId, b: NodeId, c: NodeId | Nearer(target, a, b) && Nearer(target, b, c) ensures Nearer(target, a, c) {
      LexTransitive(BitLess, Distance(a, target), Distance(b, target), Distance(c, target));
    }
  }

  datatype CandidateState = Unqueried | InFlight | Succeeded | Failed

  type States = map<NodeId, CandidateState>

  function StateOf(states: States, id: NodeId): CandidateState {
    if id in states then states[id] else Unqueried
  }

  function Live(candidates: set<NodeId>, states: States): set<NodeId> {
    set id | id in candidates && StateOf(states, id) != Failed
  }

  /** Filter out failures, sort by distance, take the first `limit`. */
  function ClosestValid(candidates: set<NodeId>, states: States, target: NodeId, limit: nat): (r: seq<NodeId>)
    ensures |r| == if |Live(candidates, states)| <= limit then |Live(candidates, states)| else limit
    ensures forall id :: id in r ==> id in Live(candidates, states)
  {
    CloserOrder(target);
    Limit(Live(candidates, states), Closer(target), limit)
  }

  /** No candidate left out of the shortlist is live and nearer than one in it. */
  lemma ShortlistIsClosest(candidates: set<NodeId>, states: States, target: NodeId, limit: nat, inside: NodeId,
                           outside: NodeId)
    requires inside in ClosestValid(candidates, states, target, limit)
    requires outside in Live(candidates, states) && outside !in ClosestValid(candidates, states, target, limit)
    ensures Nearer(target, inside, outside)
  {
    CloserOrder(target);
    var live := Live(candidates, states);
    LimitIsFirst(live, Closer(target), limit, inside);
    LimitIsFirst(live, Closer(target), limit, outside);
    FirstComesFirst(live, Closer(target), limit, inside, outside);
    assert Closer(target)(inside, outside);
  }
}
