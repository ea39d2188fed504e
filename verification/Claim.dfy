/** Claiming a job: four exclusive classes tried in a given order, and a fencing generation. */
module Claim {
  import opened Common
  import opened Orders
  import opened Hints
  import opened Records
  import opened JobsDb
  import opened Admission
  import opened Ranking

  datatype ClaimClass = HintClass | RecentClass | RetryClass | HistoryClass

  datatype Claimed = Claimed(
    hash: Hash, generation: nat, class_: ClaimClass, dueAt: int, failedBefore: nat, peers: seq<Peer>, hadValidHint: bool)

  /** The predicate that selects the rows of one class. */
  predicate InClass(db: Db, h: Hash, now: int, legal: Peer -> bool, c: ClaimClass)
    requires h in db.jobs
  {
    match c
    case HintClass => db.jobs[h].generation == 0 && HasFreshHint(db, h, now, legal)
    case RecentClass => db.jobs[h].generation == 0 && IsRecent(db, h, now) && !HasFreshHint(db, h, now, legal)
    case RetryClass => db.jobs[h].generation > 0
    case HistoryClass => db.jobs[h].generation == 0 && !IsRecent(db, h, now) && !HasFreshHint(db, h, now, legal)
  }

  /** The CASE expression that labels a selected row. */
  function LabelOf(db: Db, h: Hash, now: int, legal: Peer -> bool): ClaimClass
    requires h in db.jobs
  {
    if db.jobs[h].generation > 0 then RetryClass
    else if HasFreshHint(db, h, now, legal) then HintClass
    else if IsRecent(db, h, now) then RecentClass
    else HistoryClass
  }

  /** Every row is in exactly the class it is labelled with. */
  lemma ClassesPartition(db: Db, h: Hash, now: int, legal: Peer -> bool, c: ClaimClass)
    requires h in db.jobs
    ensures InClass(db, h, now, legal, c) <==> c == LabelOf(db, h, now, legal)
  {}

  predicate IsDue(db: Db, h: Hash, now: int) {
    h in db.jobs && h in db.hashes && Claimable(db.jobs[h]) && db.jobs[h].dueAt <= now
  }

  function DueRows(db: Db, now: int): set<Hash> { set h | h in db.jobs && IsDue(db, h, now) }

  function DueIn(db: Db, now: int, legal: Peer -> bool, c: ClaimClass): set<Hash> {
    set h | h in db.jobs && IsDue(db, h, now) && InClass(db, h, now, legal, c)
  }

  /** ORDER BY due_at, hash; hashes without a job come last. */
  predicate DueBefore(jobs: map<Hash, Job>, a: Hash, b: Hash) {
    if a in jobs && b in jobs then jobs[a].dueAt < jobs[b].dueAt || (jobs[a].dueAt == jobs[b].dueAt && NameLess(a, b))
    else if a !in jobs && b !in jobs then NameLess(a, b)
    else a in jobs
  }

  function DueOrder(jobs: map<Hash, Job>): (Hash, Hash) -> bool { (a, b) => DueBefore(jobs, a, b) }

  lemma DueOrderIsTotal(jobs: map<Hash, Job>)
    ensures StrictTotal(DueOrder(jobs))
  {
    NameOrder();
  }

  predicate EachOnce(order: seq<ClaimClass>) {
    |order| == 4 && forall c: ClaimClass :: c in order
  }

  // ---- the hints handed out with a claim

  function FreshPeers(db: Db, h: Hash, now: int): set<Peer> {
    set p | p in HintsOf(db.hints, h) && HintsOf(db.hints, h)[p] >= now - PEER_HINT_TTL_MS
  }

  lemma FreshPeerIsHint(db: Db, h: Hash, now: int, p: Peer)
    ensures p in FreshPeers(db, h, now) <==> Key(h, p) in db.hints && db.hints[Key(h, p)] >= now - PEER_HINT_TTL_MS
  {
    assert Key(h, p).peer == p;
  }

  /** With at most eight stored, the limit cuts nothing off. */
  lemma PageIsAll(hints: map<Peer, nat>, current: set<Peer>)
    requires |hints| <= MAX_PEER_HINTS && current <= hints.Keys
    ensures StrictTotal(NewestFirst(hints))
    ensures forall p :: p in Limit(current, NewestFirst(hints), MAX_PEER_HINTS) <==> p in current
  {
    NewestFirstOrder(hints);
    SubsetSize(current, hints.Keys);
    assert |hints| == |hints.Keys|;
    FirstSize(current, NewestFirst(hints), MAX_PEER_HINTS);
    forall p ensures p in Limit(current, NewestFirst(hints), MAX_PEER_HINTS) <==> p in current {
      LimitIsFirst(current, NewestFirst(hints), MAX_PEER_HINTS, p);
    }
  }

  method KeepLegal(page: seq<Peer>, legal: Peer -> bool, ghost lt: (Peer, Peer) -> bool) returns (peers: seq<Peer>)
    requires Ascends(page, lt)
    ensures (forall p :: p in peers <==> p in page && legal(p)) && Ascends(peers, lt)
  {
    peers := [];
    for k := 0 to |page|
      invariant forall p :: p in peers <==> p in page[..k] && legal(p)
      invariant Ascends(peers, lt)
    {
      assert page[..k + 1] == page[..k] + [page[k]];
      forall p | p in peers ensures lt(p, page[k]) {
        var j :| 0 <= j < k && page[j] == p;
      }
      if legal(page[k]) {
        peers := peers + [page[k]];
      }
    }
    assert page[..|page|] == page;
  }

  /** The usable hints of a hash, newest first: the page of eight, filtered by the address policy. */
  method HintsFor(db: Db, h: Hash, now: int, legal: Peer -> bool) returns (peers: seq<Peer>)
    requires FewHints(db)
    ensures peers != [] <==> HasFreshHint(db, h, now, legal)
    ensures forall p :: p in peers <==> p in FreshPeers(db, h, now) && legal(p)
    ensures Ascends(peers, NewestFirst(HintsOf(db.hints, h)))
  {
    var hints, current := HintsOf(db.hints, h), FreshPeers(db, h, now);
    PageIsAll(hints, current);
    var page := Limit(current, NewestFirst(hints), MAX_PEER_HINTS);
    peers := KeepLegal(page, legal, NewestFirst(hints));
    HintExists(db, h, now, legal, peers);
  }

  lemma HintExists(db: Db, h: Hash, now: int, legal: Peer -> bool, peers: seq<Peer>)
    requires forall p :: p in peers <==> p in FreshPeers(db, h, now) && legal(p)
    ensures peers != [] <==> HasFreshHint(db, h, now, legal)
  {
    if peers != [] {
      var p := peers[0];
      assert p in peers;
      FreshPeerIsHint(db, h, now, p);
      assert Key(h, p) in db.hints && legal(Key(h, p).peer);
    }
    if HasFreshHint(db, h, now, legal) {
      var k :| k in db.hints && k.hash == h && db.hints[k] >= now - PEER_HINT_TTL_MS && legal(k.peer);
      FreshPeerIsHint(db, h, now, k.peer);
      assert k == Key(h, k.peer) && k.peer in peers;
    }
  }

  // ---- the claim

  function Started(db: Db, h: Hash, now: int): Db
    requires h in db.jobs
  {
    db.(jobs := db.jobs[h := db.jobs[h].(state := Running, generation := db.jobs[h].generation + 1, updatedAt := now)])
  }

  /** The candidate: first in (due_at, hash) order within the first class of the order that has any. */
  ghost predicate IsNext(db: Db, now: int, legal: Peer -> bool, order: seq<ClaimClass>, h: Hash) {
    exists k :: 0 <= k < |order|
      && (forall j :: 0 <= j < k ==> DueIn(db, now, legal, order[j]) == {})
      && h in DueIn(db, now, legal, order[k])
      && forall g :: g in DueIn(db, now, legal, order[k]) ==> g == h || DueBefore(db.jobs, h, g)
  }

  lemma DueSomewhere(db: Db, h: Hash, now: int, legal: Peer -> bool, order: seq<ClaimClass>)
    requires EachOnce(order) && h in DueRows(db, now)
    ensures exists j :: 0 <= j < |order| && h in DueIn(db, now, legal, order[j])
  {
    var c := LabelOf(db, h, now, legal);
    assert c in order;
    var j :| 0 <= j < |order| && order[j] == c;
    assert h in DueIn(db, now, legal, order[j]);
  }

  method Select(db: Db, now: int, legal: Peer -> bool, order: seq<ClaimClass>) returns (r: Option<Hash>)
    requires EachOnce(order)
    ensures r.None? <==> DueRows(db, now) == {}
    ensures r.Some? ==> IsNext(db, now, legal, order, r.value) && r.value in DueRows(db, now)
  {
    DueOrderIsTotal(db.jobs);
    for k := 0 to |order|
      invariant forall j :: 0 <= j < k ==> DueIn(db, now, legal, order[j]) == {}
    {
      var rows := DueIn(db, now, legal, order[k]);
      if rows != {} {
        var h := Least(rows, DueOrder(db.jobs));
        forall g | g in rows && g != h ensures DueBefore(db.jobs, h, g) {
          assert DueOrder(db.jobs)(h, g);
        }
        return Some(h);
      }
    }
    if DueRows(db, now) != {} {
      ghost var h :| h in DueRows(db, now);
      DueSomewhere(db, h, now, legal, order);
    }
    return None;
  }

  /**
    One claim transaction. It comes back empty exactly when nothing is due; otherwise it starts the
    next job of the order under a new generation and hands out its usable hints.
   */
  method ClaimNext(store: JobStore, now: int, legal: Peer -> bool, order: seq<ClaimClass>) returns (r: Option<Claimed>)
    requires EachOnce(order) && FewHints(store.db)
    modifies store
    ensures r.None? <==> DueRows(old(store.db), now) == {}
    ensures r.None? ==> store.db == old(store.db)
    ensures FewHints(store.db)
    ensures r.Some? ==>
      && IsNext(old(store.db), now, legal, order, r.value.hash) && r.value.hash in old(store.db).jobs
      && store.db == Started(old(store.db), r.value.hash, now)
      && r.value.generation == old(store.db).jobs[r.value.hash].generation + 1
      && r.value.dueAt == old(store.db).jobs[r.value.hash].dueAt
      && r.value.failedBefore == old(store.db).jobs[r.value.hash].attempts
      && r.value.class_ == LabelOf(old(store.db), r.value.hash, now, legal)
      && (r.value.hadValidHint <==> HasFreshHint(old(store.db), r.value.hash, now, legal))
      && (r.value.class_.HintClass? ==> r.value.peers != [])
      && Ascends(r.value.peers, NewestFirst(HintsOf(old(store.db).hints, r.value.hash)))
      && forall p :: p in r.value.peers <==> p in FreshPeers(old(store.db), r.value.hash, now) && legal(p)
  {
    var db := store.db;
    var next := Select(db, now, legal, order);
    if next.None? {
      return None;
    }
    var h := next.value;
    var label_ := LabelOf(db, h, now, legal);
    store.db := Started(db, h, now);
    var peers := HintsFor(db, h, now, legal);
    return Some(Claimed(h, db.jobs[h].generation + 1, label_, db.jobs[h].dueAt, db.jobs[h].attempts, peers, peers != []));
  }
}
