/**
  Peer hints: announcements are merged per peer and trimmed to the eight newest on the spot, and
  expired rows are deleted in bounded batches. Trimming early is shown to lose nothing.
 */
module Hints {
  import opened Orders
  import opened Ranking

  const MAX_PEER_HINTS: nat := 8
  const PEER_HINT_TTL_MS: nat := 1_800_000
  const CLEANUP_BATCH_SIZE: nat := 1024

  datatype Peer = Peer(ip: Name, port: nat)

  predicate PeerLess(a: Peer, b: Peer) {
    NameLess(a.ip, b.ip) || (a.ip == b.ip && a.port < b.port)
  }

  lemma PeerOrder()
    ensures StrictTotal(PeerLess)
  {
    NameOrder();
  }

  /** Observation time of a peer; unknown peers rank after every known one. */
  function SeenAt(m: map<Peer, nat>, p: Peer): int { if p in m then m[p] else -1 }

  predicate Newer(m: map<Peer, nat>, p: Peer, q: Peer) {
    SeenAt(m, p) > SeenAt(m, q) || (SeenAt(m, p) == SeenAt(m, q) && PeerLess(p, q))
  }

  /** ORDER BY observed_at DESC, ip, port. */
  function NewestFirst(m: map<Peer, nat>): (Peer, Peer) -> bool { (p, q) => Newer(m, p, q) }

  lemma NewestFirstOrder(m: map<Peer, nat>)
    ensures StrictTotal(NewestFirst(m))
  {
    PeerOrder();
  }

  function Top(m: map<Peer, nat>): set<Peer> { First(m.Keys, NewestFirst(m), MAX_PEER_HINTS) }

  function Trim(m: map<Peer, nat>): map<Peer, nat> {
    map p | p in m && p in Top(m) :: m[p]
  }

  function Upsert(m: map<Peer, nat>, p: Peer, at: nat): map<Peer, nat> {
    m[p := if p in m && m[p] > at then m[p] else at]
  }

  lemma TrimSize(m: map<Peer, nat>)
    ensures |Trim(m)| <= MAX_PEER_HINTS && Trim(m).Keys == Top(m)
    ensures |m| <= MAX_PEER_HINTS ==> Trim(m) == m
  {
    NewestFirstOrder(m);
    FirstSize(m.Keys, NewestFirst(m), MAX_PEER_HINTS);
    assert Trim(m).Keys == Top(m);
  }

  // ---- one hash, over any run

  /**
    `stored` against the max-merged log of every announcement: above the latest cleanup cutoff it
    holds exactly the members of the top eight of the log, with the same times.
   */
  ghost predicate Tracks(stored: map<Peer, nat>, log: map<Peer, nat>, cutoff: int) {
    && (forall p :: p in stored ==> p in log && stored[p] <= log[p])
    && (forall p :: p in Top(log) && log[p] >= cutoff ==> p in stored && stored[p] == log[p])
    && (forall p :: p in stored && stored[p] >= cutoff ==> p in Top(log) && stored[p] == log[p])
  }

  /** Fewer rivals in a smaller table: a peer with its log time stays in the top eight. */
  lemma TopOfSmaller(small: map<Peer, nat>, large: map<Peer, nat>, q: Peer)
    requires forall p :: p in small ==> p in large && small[p] <= large[p]
    requires q in small && small[q] == large[q] && q in Top(large)
    ensures q in Top(small)
  {
    SubsetSize(Ahead(small.Keys, NewestFirst(small), q), Ahead(large.Keys, NewestFirst(large), q));
  }

  lemma FreshTopIsStored(stored: map<Peer, nat>, log: map<Peer, nat>, cutoff: int, p: Peer, at: nat, q: Peer)
    requires Tracks(stored, log, cutoff)
    requires q in Top(Upsert(log, p, at)) && Upsert(log, p, at)[q] >= cutoff
    ensures q in Upsert(stored, p, at) && Upsert(stored, p, at)[q] == Upsert(log, p, at)[q]
    ensures q in Top(Upsert(stored, p, at))
  {
    if q in log && Upsert(log, p, at)[q] == log[q] {
      TopOfSmaller(log, Upsert(log, p, at), q);
    }
    TopOfSmaller(Upsert(stored, p, at), Upsert(log, p, at), q);
  }

  lemma FreshStoredIsTop(stored: map<Peer, nat>, log: map<Peer, nat>, cutoff: int, p: Peer, at: nat, q: Peer)
    requires Tracks(stored, log, cutoff)
    requires q in Top(Upsert(stored, p, at)) && Upsert(stored, p, at)[q] >= cutoff
    ensures q in Top(Upsert(log, p, at))
  {
    var s, l := Upsert(stored, p, at), Upsert(log, p, at);
    NewestFirstOrder(l);
    if q !in Top(l) {
      FirstSize(l.Keys, NewestFirst(l), MAX_PEER_HINTS);
      forall r | r in Top(l) ensures r in Ahead(s.Keys, NewestFirst(s), q) {
        FirstComesFirst(l.Keys, NewestFirst(l), MAX_PEER_HINTS, r, q);
        FreshTopIsStored(stored, log, cutoff, p, at, r);
      }
      SubsetSize(Top(l), Ahead(s.Keys, NewestFirst(s), q));
    }
  }

  lemma AnnounceTracks(stored: map<Peer, nat>, log: map<Peer, nat>, cutoff: int, p: Peer, at: nat)
    requires Tracks(stored, log, cutoff)
    ensures Tracks(Trim(Upsert(stored, p, at)), Upsert(log, p, at), cutoff)
  {
    var s, l := Upsert(stored, p, at), Upsert(log, p, at);
    forall q | q in Top(l) && l[q] >= cutoff ensures q in Trim(s) && Trim(s)[q] == l[q] {
      FreshTopIsStored(stored, log, cutoff, p, at, q);
    }
    forall q | q in Trim(s) && Trim(s)[q] >= cutoff ensures q in Top(l) && Trim(s)[q] == l[q] {
      FreshStoredIsTop(stored, log, cutoff, p, at, q);
      FreshTopIsStored(stored, log, cutoff, p, at, q);
    }
  }

  datatype HintEvent = Announce(peer: Peer, at: nat) | Cleanup(cutoff: int, deleted: set<Peer>)

  ghost function Store(stored: map<Peer, nat>, e: HintEvent): map<Peer, nat> {
    match e
    case Announce(p, at) => Trim(Upsert(stored, p, at))
    case Cleanup(_, deleted) => stored - deleted
  }

  /** A cleanup may take any of the expired rows: which ones fit the batch depends on other hashes. */
  ghost predicate Allowed(stored: map<Peer, nat>, e: HintEvent) {
    e.Cleanup? ==> forall p :: p in stored && p in e.deleted ==> stored[p] < e.cutoff
  }

  ghost function StoredAfter(events: seq<HintEvent>): map<Peer, nat> {
    if events == [] then map[] else Store(StoredAfter(events[..|events| - 1]), events[|events| - 1])
  }

  ghost predicate AllAllowed(events: seq<HintEvent>) {
    events == [] ||
    (AllAllowed(events[..|events| - 1]) && Allowed(StoredAfter(events[..|events| - 1]), events[|events| - 1]))
  }

  /** The max-merged log of every announcement, trimmed never and cleaned never. */
  ghost function MergedLog(events: seq<HintEvent>): map<Peer, nat> {
    if events == [] then map[]
    else
      var before, e := MergedLog(events[..|events| - 1]), events[|events| - 1];
      if e.Announce? then Upsert(before, e.peer, e.at) else before
  }

  ghost function LatestCutoff(events: seq<HintEvent>): int {
    if events == [] then 0
    else
      var before, e := LatestCutoff(events[..|events| - 1]), events[|events| - 1];
      if e.Cleanup? && e.cutoff > before then e.cutoff else before
  }

  /** Over every run of announcements and cleanups, storing only eight hints loses nothing fresh. */
  lemma {:induction false} EveryRunTracks(events: seq<HintEvent>)
    requires AllAllowed(events)
    ensures Tracks(StoredAfter(events), MergedLog(events), LatestCutoff(events))
    ensures |StoredAfter(events)| <= MAX_PEER_HINTS
    decreases |events|
  {
    if events != [] {
      var before, e := events[..|events| - 1], events[|events| - 1];
      EveryRunTracks(before);
      if e.Announce? {
        AnnounceTracks(StoredAfter(before), MergedLog(before), LatestCutoff(before), e.peer, e.at);
        TrimSize(Upsert(StoredAfter(before), e.peer, e.at));
      } else {
        SubsetSize((StoredAfter(before) - e.deleted).Keys, StoredAfter(before).Keys);
      }
    }
  }

  /** The merged log is the latest time announced for each peer, whatever the order. */
  lemma {:induction false} MergedLogIsLatest(events: seq<HintEvent>, p: Peer)
    ensures p in MergedLog(events) <==> exists e :: e in events && e.Announce? && e.peer == p
    ensures p in MergedLog(events) ==> Announce(p, MergedLog(events)[p]) in events
    ensures forall e :: e in events && e.Announce? && e.peer == p ==>
      p in MergedLog(events) && e.at <= MergedLog(events)[p]
    decreases |events|
  {
    if events != [] {
      var before, last := events[..|events| - 1], events[|events| - 1];
      MergedLogIsLatest(before, p);
      assert events == before + [last];
      if last.Announce? && last.peer == p { assert last in events; }
    }
  }

  ghost predicate SameAnnouncements(a: seq<HintEvent>, b: seq<HintEvent>) {
    forall e: HintEvent :: e.Announce? ==> (e in a <==> e in b)
  }

  lemma SameLogEntry(a: seq<HintEvent>, b: seq<HintEvent>, q: Peer)
    requires SameAnnouncements(a, b) && q in MergedLog(a)
    ensures q in MergedLog(b) && MergedLog(a)[q] == MergedLog(b)[q]
  {
    MergedLogIsLatest(a, q);
    MergedLogIsLatest(b, q);
    var latest := Announce(q, MergedLog(a)[q]);
    assert latest in b;
  }

  lemma SameLog(a: seq<HintEvent>, b: seq<HintEvent>)
    requires SameAnnouncements(a, b)
    ensures MergedLog(a) == MergedLog(b)
  {
    forall q | q in MergedLog(a) ensures q in MergedLog(b) && MergedLog(a)[q] == MergedLog(b)[q] { SameLogEntry(a, b, q); }
    forall q | q in MergedLog(b) ensures q in MergedLog(a) { SameLogEntry(b, a, q); }
  }

  /** Two runs with the same announcements in any order store the same hints above both cutoffs. */
  lemma OrderDoesNotMatter(a: seq<HintEvent>, b: seq<HintEvent>, p: Peer)
    requires AllAllowed(a) && AllAllowed(b) && SameAnnouncements(a, b)
    ensures var cutoff := if LatestCutoff(a) > LatestCutoff(b) then LatestCutoff(a) else LatestCutoff(b);
      p in StoredAfter(a) && StoredAfter(a)[p] >= cutoff ==> p in StoredAfter(b) && StoredAfter(b)[p] == StoredAfter(a)[p]
  {
    EveryRunTracks(a);
    EveryRunTracks(b);
    SameLog(a, b);
  }

  // ---- the table and its two transactions

  datatype Key = Key(hash: Name, peer: Peer)

  type Rows = map<Key, nat>

  function HintsOf(rows: Rows, hash: Name): map<Peer, nat> {
    map k | k in rows && k.hash == hash :: k.peer := rows[k]
  }

  predicate KeyLess(a: Key, b: Key) {
    NameLess(a.hash, b.hash) || (a.hash == b.hash && PeerLess(a.peer, b.peer))
  }

  function ObservedAt(rows: Rows, k: Key): int { if k in rows then rows[k] else -1 }

  predicate Older(rows: Rows, a: Key, b: Key) {
    ObservedAt(rows, a) < ObservedAt(rows, b) || (ObservedAt(rows, a) == ObservedAt(rows, b) && KeyLess(a, b))
  }

  /** ORDER BY observed_at; ties by key. */
  function OldestFirst(rows: Rows): (Key, Key) -> bool { (a, b) => Older(rows, a, b) }

  lemma OldestFirstOrder(rows: Rows)
    ensures StrictTotal(OldestFirst(rows))
  {
    NameOrder();
    PeerOrder();
  }

  function UpsertedRows(rows: Rows, key: Key, at: nat): Rows {
    rows[key := if key in rows && rows[key] > at then rows[key] else at]
  }

  lemma HintsOfRow(rows: Rows, hash: Name, p: Peer)
    ensures p in HintsOf(rows, hash) <==> Key(hash, p) in rows
    ensures p in HintsOf(rows, hash) ==> HintsOf(rows, hash)[p] == rows[Key(hash, p)]
  {
    assert Key(hash, p).peer == p;
  }

  lemma UpsertRow(rows: Rows, key: Key, at: nat, hash: Name)
    ensures HintsOf(UpsertedRows(rows, key, at), hash)
      == if hash == key.hash then Upsert(HintsOf(rows, hash), key.peer, at) else HintsOf(rows, hash)
  {
    var was, now := HintsOf(rows, hash), HintsOf(UpsertedRows(rows, key, at), hash);
    var expected := if hash == key.hash then Upsert(was, key.peer, at) else was;
    forall p ensures (p in now <==> p in expected) && (p in now ==> now[p] == expected[p]) {
      HintsOfRow(rows, hash, p);
      HintsOfRow(UpsertedRows(rows, key, at), hash, p);
    }
  }

  /** DELETE every row of a hash that is not among its newest eight. */
  function TrimmedRows(rows: Rows, hash: Name): Rows {
    map k | k in rows && (k.hash != hash || k.peer in Top(HintsOf(rows, hash))) :: rows[k]
  }

  lemma TrimRows(rows: Rows, hash: Name, other: Name)
    ensures HintsOf(TrimmedRows(rows, hash), other)
      == if other == hash then Trim(HintsOf(rows, hash)) else HintsOf(rows, other)
  {
    forall p | p in Trim(HintsOf(rows, hash)) ensures p in HintsOf(TrimmedRows(rows, hash), hash) {
      assert Key(hash, p) in TrimmedRows(rows, hash);
    }
    forall p | p in HintsOf(rows, other) && other != hash ensures p in HintsOf(TrimmedRows(rows, hash), other) {
      assert Key(other, p) in TrimmedRows(rows, hash);
    }
  }

  /** The hint part of an accepted announcement: upsert, then keep the newest eight. */
  function Announced(rows: Rows, key: Key, at: nat): Rows {
    TrimmedRows(UpsertedRows(rows, key, at), key.hash)
  }

  lemma AnnouncedHints(rows: Rows, key: Key, at: nat, hash: Name)
    ensures HintsOf(Announced(rows, key, at), hash)
      == if hash == key.hash then Trim(Upsert(HintsOf(rows, hash), key.peer, at)) else HintsOf(rows, hash)
  {
    UpsertRow(rows, key, at, key.hash);
    UpsertRow(rows, key, at, hash);
    TrimRows(UpsertedRows(rows, key, at), key.hash, hash);
  }
}
