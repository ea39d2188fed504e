/** The whole save transaction against a table-by-table description of its outcome. */
module IdentityTransaction {
  import opened Common
  import opened Orders
  import opened Records
  import opened MetadataDb
  import opened IdentityStore
  import opened IdentitySave
  import Hints

  // ---- registering one identity

  function Verification(a: Identity, source: Identity): Label {
    if a == source then SourceLabel(source) else HybridDerived
  }

  /** What one save is asked to do, and what the checker found out about the bytes. */
  datatype Plan = Plan(ids: seq<Identity>, source: Identity, key: Name, info: Name, at: int, incomplete: bool)

  /** The alias, the sighting and the link; other swarm keys also lose their job and hints. */
  ghost function RegisteredOne(t: Db, a: Identity, source: Identity, key: Name, id: nat, at: int): Db {
    t.(aliases := t.aliases[a := id], hashes := Upserted(t.hashes, SwarmKey(a), at),
       swarm := Linked(t.swarm, SwarmKey(a), id, Verification(a, source)),
       jobs := if SwarmKey(a) == key then t.jobs else Closed(t.jobs, SwarmKey(a), at),
       hints := if SwarmKey(a) == key then t.hints else WithoutHints(t.hints, SwarmKey(a)))
  }

  /** The row that the aliases are to lead to: no other row is found under them, and it is not damaged. */
  ghost predicate Ready(t: Db, env: Env, ids: seq<Identity>, id: nat, info: Name) {
    && id in t.metadata && t.metadata[id].info == info && GenuineRow(t.aliases, env, id, info)
    && AllLead(t, ids, id)
  }

  /** The sighting and the link of the swarm key, and the end of any other lookup of the torrent. */
  method LinkSwarm(t: Db, swarm: Name, id: nat, proof: Label, key: Name, at: int) returns (p: Db)
    requires Consistent(t) && id in t.metadata
    ensures Consistent(p)
    ensures p == t.(hashes := Upserted(t.hashes, swarm, at), swarm := Linked(t.swarm, swarm, id, proof),
      jobs := if swarm == key then t.jobs else Closed(t.jobs, swarm, at),
      hints := if swarm == key then t.hints else WithoutHints(t.hints, swarm))
  {
    LinkKeeps(t, swarm, at, id, proof);
    p := UpsertHash(t, swarm, at);
    p := UpsertLink(p, swarm, id, proof);
    if swarm != key {
      CloseKeeps(p, swarm, at);
      p := CloseLookup(p, swarm, at);
    }
  }

  method RegisterOne(ghost env: Env, t: Db, a: Identity, source: Identity, key: Name, id: nat, at: int,
                     ghost info: Name)
    returns (p: Db)
    requires Core(t, env) && DigestLengths(env) && Genuine(env, a, info) && LeadsOnlyTo(t, a, id)
    requires id in t.metadata && t.metadata[id].info == info && GenuineRow(t.aliases, env, id, info)
    ensures Core(p, env) && GenuineRow(p.aliases, env, id, info)
    ensures p == RegisteredOne(t, a, source, key, id, at)
  {
    AliasKeepsIdentities(t, env, a, id, info);
    assert a in t.aliases ==> t.aliases[a := id] == t.aliases;
    AliasesKeep(t, t.aliases[a := id]);
    p := InsertAlias(t, a, id);
    p := LinkSwarm(p, SwarmKey(a), id, Verification(a, source), key, at);
  }

  // ---- registering all of them

  ghost function Aliased(aliases: map<Identity, nat>, ids: seq<Identity>, id: nat): map<Identity, nat> {
    if ids == [] then aliases else Aliased(aliases, ids[..|ids| - 1], id)[ids[|ids| - 1] := id]
  }

  ghost function AllSeen(hashes: map<Name, Seen>, ids: seq<Identity>, at: int): map<Name, Seen> {
    if ids == [] then hashes else Upserted(AllSeen(hashes, ids[..|ids| - 1], at), SwarmKey(ids[|ids| - 1]), at)
  }

  ghost function AllLinked(swarm: map<Link, Label>, ids: seq<Identity>, source: Identity, id: nat): map<Link, Label> {
    if ids == [] then swarm
    else
      var a := ids[|ids| - 1];
      Linked(AllLinked(swarm, ids[..|ids| - 1], source, id), SwarmKey(a), id, Verification(a, source))
  }

  ghost function AllClosed(jobs: map<Name, Job>, ids: seq<Identity>, key: Name, at: int): map<Name, Job> {
    if ids == [] then jobs
    else
      var before, swarm := AllClosed(jobs, ids[..|ids| - 1], key, at), SwarmKey(ids[|ids| - 1]);
      if swarm == key then before else Closed(before, swarm, at)
  }

  ghost function AllDropped(hints: Hints.Rows, ids: seq<Identity>, key: Name): Hints.Rows {
    if ids == [] then hints
    else
      var before, swarm := AllDropped(hints, ids[..|ids| - 1], key), SwarmKey(ids[|ids| - 1]);
      if swarm == key then before else WithoutHints(before, swarm)
  }

  ghost function RegisteredDb(t: Db, ids: seq<Identity>, source: Identity, key: Name, id: nat, at: int): Db {
    t.(aliases := Aliased(t.aliases, ids, id), hashes := AllSeen(t.hashes, ids, at),
       swarm := AllLinked(t.swarm, ids, source, id), jobs := AllClosed(t.jobs, ids, key, at),
       hints := AllDropped(t.hints, ids, key))
  }

  lemma AliasKeepsLead(t: Db, p: Db, a: Identity, b: Identity, id: nat)
    requires p.metadata == t.metadata && p.aliases == t.aliases[a := id] && LeadsOnlyTo(t, b, id)
    ensures LeadsOnlyTo(p, b, id)
  {
    forall i | i in RowsOf(p, b) ensures i == id {
      assert i == id || i in RowsOf(t, b);
    }
  }

  ghost predicate AllLead(t: Db, ids: seq<Identity>, id: nat) {
    forall k :: 0 <= k < |ids| ==> LeadsOnlyTo(t, ids[k], id)
  }

  lemma RegisteredNext(t: Db, ids: seq<Identity>, k: nat, source: Identity, key: Name, id: nat, at: int)
    requires k < |ids|
    ensures RegisteredDb(t, ids[..k + 1], source, key, id, at)
      == RegisteredOne(RegisteredDb(t, ids[..k], source, key, id, at), ids[k], source, key, id, at)
  {
    assert ids[..k + 1][..k] == ids[..k] && ids[..k + 1][k] == ids[k];
  }

  lemma AllKeepLead(t: Db, ids: seq<Identity>, a: Identity, source: Identity, key: Name, id: nat, at: int)
    requires AllLead(t, ids, id)
    ensures AllLead(RegisteredOne(t, a, source, key, id, at), ids, id)
  {
    forall k | 0 <= k < |ids| ensures LeadsOnlyTo(RegisteredOne(t, a, source, key, id, at), ids[k], id) {
      AliasKeepsLead(t, RegisteredOne(t, a, source, key, id, at), a, ids[k], id);
    }
  }

  /** The first `k` identities registered one after the other. */
  ghost function RegisteredUpTo(t: Db, ids: seq<Identity>, k: nat, source: Identity, key: Name, id: nat, at: int): Db
    requires k <= |ids|
  {
    if k == 0 then t else RegisteredOne(RegisteredUpTo(t, ids, k - 1, source, key, id, at), ids[k - 1], source, key, id, at)
  }

  lemma {:induction false} RegisteredInTurn(t: Db, ids: seq<Identity>, k: nat, source: Identity, key: Name, id: nat,
                                            at: int)
    requires k <= |ids|
    ensures RegisteredUpTo(t, ids, k, source, key, id, at) == RegisteredDb(t, ids[..k], source, key, id, at)
    decreases k
  {
    if k > 0 {
      RegisteredInTurn(t, ids, k - 1, source, key, id, at);
      RegisteredNext(t, ids, k - 1, source, key, id, at);
    }
  }

  lemma RegisteredAll(t: Db, ids: seq<Identity>, source: Identity, key: Name, id: nat, at: int)
    ensures RegisteredUpTo(t, ids, |ids|, source, key, id, at) == RegisteredDb(t, ids, source, key, id, at)
  {
    RegisteredInTurn(t, ids, |ids|, source, key, id, at);
    assert ids[..|ids|] == ids;
  }

  method RegisterNext(ghost env: Env, t: Db, ids: seq<Identity>, k: nat, source: Identity, key: Name, id: nat,
                      at: int, ghost info: Name)
    returns (p: Db)
    requires Core(t, env) && DigestLengths(env) && FromInfo(ids, env, info) && Ready(t, env, ids, id, info) && k < |ids|
    ensures Core(p, env) && Ready(p, env, ids, id, info) && p == RegisteredOne(t, ids[k], source, key, id, at)
  {
    AllKeepLead(t, ids, ids[k], source, key, id, at);
    p := RegisterOne(env, t, ids[k], source, key, id, at, info);
  }

  method Register(ghost env: Env, t: Db, ids: seq<Identity>, source: Identity, key: Name, id: nat, at: int,
                  ghost info: Name)
    returns (p: Db)
    requires Core(t, env) && DigestLengths(env) && FromInfo(ids, env, info) && Ready(t, env, ids, id, info)
    ensures Core(p, env) && p == RegisteredDb(t, ids, source, key, id, at)
  {
    p := t;
    for k := 0 to |ids|
      invariant Core(p, env) && Ready(p, env, ids, id, info) && p == RegisteredUpTo(t, ids, k, source, key, id, at)
    {
      p := RegisterNext(env, p, ids, k, source, key, id, at, info);
    }
    RegisteredAll(t, ids, source, key, id, at);
  }

  // ---- the catalog row of the saved torrent

  predicate Current(catalog: map<Name, CatalogRow>, hash: Name) {
    hash in catalog && Known(catalog[hash]) && !catalog[hash].stale
  }

  function EnsuredCatalog(catalog: map<Name, CatalogRow>, hash: Name, incomplete: bool): map<Name, CatalogRow> {
    if Current(catalog, hash) then catalog else catalog[hash := CatalogRow(Some(incomplete), false)]
  }

  /** A current row is left alone; a missing, unknown or stale one is written again. */
  method EnsureCatalog(db: Db, hash: Name, incomplete: bool) returns (p: Db)
    requires Consistent(db) && hash in RowHashes(db.metadata)
    ensures Consistent(p) && p == db.(catalog := EnsuredCatalog(db.catalog, hash, incomplete), counters := p.counters)
  {
    p := db;
    if !Current(db.catalog, hash) {
      PutCatalogKeeps(db, hash, CatalogRow(Some(incomplete), false));
      p := PutCatalogRow(db, hash, CatalogRow(Some(incomplete), false));
    }
  }

  // ---- the transaction

  /** The rows after the first loop: the second row, if any, folded into the first. */
  ghost function Folded(db: Db, keep: Option<nat>, drop: Option<nat>): Db {
    if keep.Some? && drop.Some? && keep.value in db.metadata && drop.value in db.metadata then
      db.(metadata := MergedRows(db.metadata, keep.value, drop.value), aliases := Repointed(db.aliases, keep.value, drop.value),
          swarm := LinksWithout(CopiedLinks(db.swarm, keep.value, drop.value), drop.value),
          catalog := db.catalog - {db.metadata[drop.value].hash})
    else db
  }

  ghost function PlacedMetadata(metadata: map<nat, Row>, existing: Option<nat>, hash: Name, info: Name,
                                at: int): map<nat, Row> {
    if existing.Some? && existing.value in metadata then metadata[existing.value := metadata[existing.value].(hash := hash)]
    else metadata[FreshId(metadata) := Row(hash, info, at)]
  }

  ghost function PlacedCatalog(m: Db, existing: Option<nat>, hash: Name): map<Name, CatalogRow> {
    if existing.Some? && existing.value in m.metadata && m.metadata[existing.value].hash != hash
    then m.catalog - {m.metadata[existing.value].hash}
    else m.catalog
  }

  /** The row holds the bytes under its canonical hash; a catalog row of another hash is gone. */
  ghost function PlacedDb(m: Db, existing: Option<nat>, hash: Name, info: Name, at: int): Db {
    m.(metadata := PlacedMetadata(m.metadata, existing, hash, info, at), catalog := PlacedCatalog(m, existing, hash))
  }

  ghost function SavedId(db: Db, keep: Option<nat>): nat { keep.GetOr(FreshId(db.metadata)) }

  /** The row is placed, its identities are registered and its catalog row is ensured. */
  ghost function StoredDb(m: Db, existing: Option<nat>, s: Plan, id: nat): Db
    requires 1 <= |s.ids|
  {
    var placed := PlacedDb(m, existing, s.ids[0].hash, s.info, s.at);
    var registered := RegisteredDb(placed, s.ids, s.source, s.key, id, s.at);
    registered.(catalog := EnsuredCatalog(registered.catalog, s.ids[0].hash, s.incomplete))
  }

  /** Every table but the counters after a successful save; `CountersAgree` fixes those. */
  ghost function SavedDb(db: Db, keep: Option<nat>, drop: Option<nat>, s: Plan): Db
    requires 1 <= |s.ids| <= 2
  {
    StoredDb(Folded(db, keep, drop), keep, s, SavedId(db, keep))
  }

  ghost predicate SameButCounters(a: Db, b: Db) { a == b.(counters := a.counters) }

  lemma GatheredIsFolded(env: Env, db: Db, t: Db, ids: seq<Identity>, existing: Option<nat>, info: Name)
    requires |ids| <= 2 && Gathering(env, db, t, ids, existing, info)
    ensures SameButCounters(t, Folded(db, Keep(db, ids), Drop(db, ids)))
  {}

  lemma SettledLeads(t: Db, ids: seq<Identity>, existing: Option<nat>, id: nat)
    requires Settled(t, ids, existing) && (existing.Some? ==> existing.value == id)
    ensures AllLead(t, ids, id)
    ensures existing.None? ==> forall k :: 0 <= k < |ids| ==> RowsOf(t, ids[k]) == {}
  {
    forall k | 0 <= k < |ids| ensures LeadsOnlyTo(t, ids[k], id) && (existing.None? ==> RowsOf(t, ids[k]) == {}) {
      assert ids[k] in ids;
      forall i | i in RowsOf(t, ids[k]) ensures existing == Some(i) {}
    }
  }

  lemma InsertLeads(t: Db, p: Db, a: Identity, id: nat, row: Row)
    requires RowsOf(t, a) == {} && p.aliases == t.aliases && p.metadata == t.metadata[id := row]
    ensures LeadsOnlyTo(p, a, id)
  {
    forall i | i in RowsOf(p, a) ensures i == id {
      assert i == id || IsRowOf(t, a, i) == (i in RowsOf(t, a));
    }
  }

  lemma RenameLeads(t: Db, p: Db, a: Identity, id: nat, row: Row)
    requires LeadsOnlyTo(t, a, id) && p.aliases == t.aliases && p.metadata == t.metadata[id := row]
    ensures LeadsOnlyTo(p, a, id)
  {
    forall i | i in RowsOf(p, a) ensures i == id {
      assert i == id || i in RowsOf(t, a);
    }
  }

  /** The row under its canonical hash, whether it had to be inserted or only renamed. */
  method Place(ghost env: Env, t: Db, ids: seq<Identity>, existing: Option<nat>, info: Name, at: int)
    returns (p: Db, id: nat)
    requires Core(t, env) && DigestLengths(env) && FromInfo(ids, env, info)
    requires Settled(t, ids, existing) && 1 <= |info| <= MAX_INFO
    requires existing.Some? ==>
      && existing.value in t.metadata && t.metadata[existing.value].info == info
      && GenuineRow(t.aliases, env, existing.value, info)
    ensures Core(p, env) && SameButCounters(p, PlacedDb(t, existing, ids[0].hash, info, at))
    ensures id == existing.GetOr(FreshId(t.metadata))
    ensures Ready(p, env, ids, id, info) && p.metadata[id].hash == ids[0].hash
  {
    SettledLeads(t, ids, existing, existing.GetOr(0));
    if existing.Some? {
      id := existing.value;
      p := RenameRow(env, t, ids[0], info, id);
      forall k | 0 <= k < |ids| ensures LeadsOnlyTo(p, ids[k], id) {
        RenameLeads(t, p, ids[k], id, t.metadata[id].(hash := ids[0].hash));
      }
    } else {
      p, id := InsertRow(env, t, ids[0], info, at);
      forall k | 0 <= k < |ids| ensures LeadsOnlyTo(p, ids[k], id) {
        InsertLeads(t, p, ids[k], id, Row(ids[0].hash, info, at));
      }
    }
  }

  ghost function IdsOf(env: Env, key: Name, info: Name): (ids: seq<Identity>)
    requires MatchIdentity(env, info, key).Some?
    ensures FromInfo(ids, env, info)
  {
    Identities(env, info, MatchIdentity(env, info, key).value)
  }

  ghost function PlanOf(env: Env, key: Name, info: Name, at: int): (s: Plan)
    requires MatchIdentity(env, info, key).Some?
  {
    Plan(IdsOf(env, key, info), MatchIdentity(env, info, key).value, key, info, at, env.searchIncomplete(info))
  }

  /** Why a save is refused, if it is. */
  ghost function Refusal(db: Db, env: Env, info: Name, key: Name): Outcome<()> {
    if info == [] || |info| > MAX_INFO then Invalid
    else if MatchIdentity(env, info, key).None? then Conflict
    else if !env.completeDictionary(info) then Invalid
    else if Clashes(db, IdsOf(env, key, info), info) then Conflict
    else Done(())
  }

  /** A save that is not refused leaves exactly the tables of `SavedDb`. */
  ghost predicate Accepted(db: Db, after: Db, env: Env, key: Name, info: Name, at: int) {
    && Inv(db, env) && Inv(after, env) && Refusal(db, env, info, key).Done?
    && var s := PlanOf(env, key, info, at);
       !Clashes(db, s.ids, info) && SameButCounters(after, SavedDb(db, Keep(db, s.ids), Drop(db, s.ids), s))
  }

  /** One save, whatever its outcome: a refused one changes nothing. */
  ghost predicate Saves(db: Db, after: Db, env: Env, key: Name, info: Name, at: int, r: Outcome<nat>) {
    match Refusal(db, env, info, key)
    case Invalid => r == Invalid && after == db
    case Conflict => r == Conflict && after == db
    case Done(_) => Accepted(db, after, env, key, info, at) && r == Done(SavedId(db, Keep(db, IdsOf(env, key, info))))
  }

  lemma CountersPassThrough(t: Db, m: Db, existing: Option<nat>, s: Plan, id: nat)
    requires 1 <= |s.ids| && SameButCounters(t, m)
    ensures SameButCounters(StoredDb(t, existing, s, id), StoredDb(m, existing, s, id))
  {}

  /** Everything after the first loop. */
  method StoreFound(ghost env: Env, t: Db, existing: Option<nat>, s: Plan) returns (p: Db, id: nat)
    requires Core(t, env) && DigestLengths(env) && FromInfo(s.ids, env, s.info) && Settled(t, s.ids, existing)
    requires 1 <= |s.info| <= MAX_INFO
    requires existing.Some? ==>
      && existing.value in t.metadata && t.metadata[existing.value].info == s.info
      && GenuineRow(t.aliases, env, existing.value, s.info)
    ensures id == existing.GetOr(FreshId(t.metadata)) && Core(p, env)
    ensures SameButCounters(p, StoredDb(t, existing, s, id))
  {
    var placed;
    placed, id := Place(env, t, s.ids, existing, s.info, s.at);
    var registered := Register(env, placed, s.ids, s.source, s.key, id, s.at, s.info);
    assert registered.metadata[id].hash in RowHashes(registered.metadata);
    p := EnsureCatalog(registered, registered.metadata[id].hash, s.incomplete);
  }

  /** Everything after the bytes were found worth storing: find and merge, place, register, catalogue. */
  method StoreInfo(ghost env: Env, db: Db, s: Plan) returns (r: Outcome<(Db, nat)>)
    requires Core(db, env) && DigestLengths(env) && FromInfo(s.ids, env, s.info) && 1 <= |s.info| <= MAX_INFO
    ensures !r.Invalid? && (r.Conflict? <==> Clashes(db, s.ids, s.info))
    ensures r.Done? ==>
      && Core(r.value.0, env) && SameButCounters(r.value.0, SavedDb(db, Keep(db, s.ids), Drop(db, s.ids), s))
      && r.value.1 == SavedId(db, Keep(db, s.ids))
  {
    var gathered := Gather(env, db, s.ids, s.info);
    if gathered.Conflict? {
      return Conflict;
    }
    var (t, existing) := gathered.value;
    GatheredIsFolded(env, db, t, s.ids, existing, s.info);
    var p, id := StoreFound(env, t, existing, s);
    CountersPassThrough(t, Folded(db, Keep(db, s.ids), Drop(db, s.ids)), existing, s, id);
    return Done((p, id));
  }

  class MetadataStore {
    var db: Db

    constructor (initial: Db)
      ensures db == initial
    {
      db := initial;
    }

    /**
      Commit or roll back: a refused save changes nothing, an accepted one leaves exactly the tables
      of `SavedDb`, and the identity invariants, the constraints and the counters hold in either case.
     */
    method Save(env: Env, key: Name, info: Name, at: int) returns (r: Outcome<nat>)
      requires DigestLengths(env) && Inv(db, env)
      modifies this
      ensures Inv(db, env) && Saves(old(db), db, env, key, info, at, r)
    {
      if info == [] || |info| > MAX_INFO {
        return Invalid;
      }
      var source := MatchIdentity(env, info, key);
      if source.None? {
        return Conflict;
      }
      if !env.completeDictionary(info) {
        return Invalid;
      }
      var s := Plan(Identities(env, info, source.value), source.value, key, info, at, env.searchIncomplete(info));
      var stored := StoreInfo(env, db, s);
      if stored.Conflict? {
        return Conflict;
      }
      SavedIsInv(db, stored.value.0, env, s);
      db := stored.value.0;
      return Done(stored.value.1);
    }
  }

  // ---- what a save means

  lemma {:induction false} AliasedAt(aliases: map<Identity, nat>, ids: seq<Identity>, id: nat, a: Identity)
    ensures a in Aliased(aliases, ids, id) <==> a in aliases || a in ids
    ensures a in ids ==> Aliased(aliases, ids, id)[a] == id
    ensures a !in ids && a in aliases ==> Aliased(aliases, ids, id)[a] == aliases[a]
    decreases |ids|
  {
    if ids != [] {
      AliasedAt(aliases, ids[..|ids| - 1], id, a);
      assert ids == ids[..|ids| - 1] + [ids[|ids| - 1]];
    }
  }

  ghost predicate Touches(ids: seq<Identity>, key: Name) {
    exists k :: 0 <= k < |ids| && SwarmKey(ids[k]) == key
  }

  lemma TouchesNext(ids: seq<Identity>, key: Name)
    requires ids != []
    ensures Touches(ids, key) <==> Touches(ids[..|ids| - 1], key) || SwarmKey(ids[|ids| - 1]) == key
  {
    var before := ids[..|ids| - 1];
    if Touches(before, key) {
      var k :| 0 <= k < |before| && SwarmKey(before[k]) == key;
      assert ids[k] == before[k];
    }
    if Touches(ids, key) && SwarmKey(ids[|ids| - 1]) != key {
      var k :| 0 <= k < |ids| && SwarmKey(ids[k]) == key;
      assert before[k] == ids[k];
    }
  }

  /** The source's own key gets the full label; a derived key only fills a gap. */
  lemma {:induction false} LinkedAt(swarm: map<Link, Label>, ids: seq<Identity>, source: Identity, id: nat, l: Link)
    ensures var after := AllLinked(swarm, ids, source, id);
      && (l in after <==> l in swarm || (l.id == id && Touches(ids, l.key)))
      && (l in after ==>
            after[l] == if l.id == id && l.key == SwarmKey(source) && source in ids then SourceLabel(source)
                        else if l in swarm then swarm[l]
                        else HybridDerived)
    decreases |ids|
  {
    if ids != [] {
      LinkedAt(swarm, ids[..|ids| - 1], source, id, l);
      TouchesNext(ids, l.key);
      assert source in ids <==> source in ids[..|ids| - 1] || source == ids[|ids| - 1];
    }
  }

  ghost predicate Leads(aliases: map<Identity, nat>, ids: seq<Identity>, id: nat) {
    forall a :: a in ids ==> a in aliases && aliases[a] == id
  }

  lemma AliasedLeads(aliases: map<Identity, nat>, ids: seq<Identity>, id: nat)
    ensures Leads(Aliased(aliases, ids, id), ids, id)
  {
    forall a | a in ids ensures a in Aliased(aliases, ids, id) && Aliased(aliases, ids, id)[a] == id {
      AliasedAt(aliases, ids, id, a);
    }
  }

  ghost function SavedRows(metadata: map<nat, Row>, keep: Option<nat>, drop: Option<nat>, s: Plan): map<nat, Row>
    requires 1 <= |s.ids|
    requires keep.Some? ==> keep.value in metadata
    requires drop.Some? ==> keep.Some? && drop.value in metadata && drop.value != keep.value
  {
    if keep.None? then metadata[FreshId(metadata) := Row(s.ids[0].hash, s.info, s.at)]
    else
      var rows := if drop.Some? then MergedRows(metadata, keep.value, drop.value) else metadata;
      rows[keep.value := rows[keep.value].(hash := s.ids[0].hash)]
  }

  /** What a save may fold together: rows that hold exactly the saved bytes. */
  ghost predicate Foldable(metadata: map<nat, Row>, keep: Option<nat>, drop: Option<nat>, info: Name) {
    && (keep.Some? ==> keep.value in metadata && metadata[keep.value].info == info)
    && (drop.Some? ==> keep.Some? && drop.value in metadata && drop.value != keep.value && metadata[drop.value].info == info)
  }

  lemma FoundRowsAreFoldable(db: Db, ids: seq<Identity>, info: Name)
    requires |ids| <= 2 && !Clashes(db, ids, info)
    ensures Foldable(db.metadata, Keep(db, ids), Drop(db, ids), info)
  {
    if Keep(db, ids).Some? { RowOfIsOneOf(db, if RowOf(db, ids[0]).Some? then ids[0] else ids[1]); }
    if Drop(db, ids).Some? { RowOfIsOneOf(db, ids[1]); }
  }

  lemma PlacedRows(db: Db, keep: Option<nat>, drop: Option<nat>, s: Plan)
    requires 1 <= |s.ids| && Foldable(db.metadata, keep, drop, s.info)
    ensures var m := Folded(db, keep, drop);
      PlacedDb(m, keep, s.ids[0].hash, s.info, s.at).metadata == SavedRows(db.metadata, keep, drop, s)
  {
    if keep.Some? && drop.Some? {
      assert keep.value in MergedRows(db.metadata, keep.value, drop.value);
    }
  }

  lemma PlacedLinks(m: Db, keep: Option<nat>, hash: Name, info: Name, at: int)
    ensures var p := PlacedDb(m, keep, hash, info, at); p.aliases == m.aliases && p.swarm == m.swarm && p.jobs == m.jobs
  {}

  lemma RegisteredTables(t: Db, ids: seq<Identity>, source: Identity, key: Name, id: nat, at: int)
    ensures var p := RegisteredDb(t, ids, source, key, id, at);
      && p.metadata == t.metadata && p.aliases == Aliased(t.aliases, ids, id)
      && p.swarm == AllLinked(t.swarm, ids, source, id) && p.jobs == AllClosed(t.jobs, ids, key, at)
  {}

  /** The tables of `SavedDb`, one by one. */
  lemma SavedTables(db: Db, keep: Option<nat>, drop: Option<nat>, s: Plan)
    requires 1 <= |s.ids| <= 2 && Foldable(db.metadata, keep, drop, s.info)
    ensures var after, m, id := SavedDb(db, keep, drop, s), Folded(db, keep, drop), SavedId(db, keep);
      && after.metadata == SavedRows(db.metadata, keep, drop, s)
      && after.aliases == Aliased(m.aliases, s.ids, id)
      && after.swarm == AllLinked(m.swarm, s.ids, s.source, id)
      && after.jobs == AllClosed(db.jobs, s.ids, s.key, s.at)
  {
    PlacedRows(db, keep, drop, s);
    var m := Folded(db, keep, drop);
    PlacedLinks(m, keep, s.ids[0].hash, s.info, s.at);
    RegisteredTables(PlacedDb(m, keep, s.ids[0].hash, s.info, s.at), s.ids, s.source, s.key, SavedId(db, keep), s.at);
  }

  /** At most one row is gone, it held the same bytes, and no row's bytes change. */
  lemma SaveKeepsBytes(metadata: map<nat, Row>, keep: Option<nat>, drop: Option<nat>, s: Plan)
    requires 1 <= |s.ids| && Foldable(metadata, keep, drop, s.info)
    ensures var after, id := SavedRows(metadata, keep, drop, s), keep.GetOr(FreshId(metadata));
      && id in after && after[id].info == s.info && after[id].hash == s.ids[0].hash
      && (forall i :: i in metadata && i in after ==>
            after[i].info == metadata[i].info && (i == id || after[i].hash == metadata[i].hash))
      && (forall i :: i in after ==> i == id || i in metadata)
      && (forall i :: i in metadata && i !in after ==> metadata[i].info == s.info && drop == Some(i))
  {}

  lemma FoldedAliases(db: Db, keep: Option<nat>, drop: Option<nat>, info: Name, a: Identity)
    requires Foldable(db.metadata, keep, drop, info)
    ensures var m := Folded(db, keep, drop).aliases;
      && (a in m <==> a in db.aliases)
      && (a in m ==> m[a] == if drop == Some(db.aliases[a]) then keep.value else db.aliases[a])
  {}

  lemma HashesStayAliases(db: Db, after: Db, own: Identity, id: nat)
    requires HashesAreAliases(db.metadata, db.aliases) && CanonicalIsAlias(after.metadata, after.aliases)
    requires Canonical(own.hash) == own && own in after.aliases && forall a :: a in db.aliases ==> a in after.aliases
    requires forall i :: i in after.metadata ==>
      if i == id then after.metadata[i].hash == own.hash else i in db.metadata && after.metadata[i].hash == db.metadata[i].hash
    ensures HashesAreAliases(after.metadata, after.aliases)
  {}

  lemma SavedAliases(db: Db, keep: Option<nat>, drop: Option<nat>, info: Name, ids: seq<Identity>, id: nat)
    requires Foldable(db.metadata, keep, drop, info)
    ensures var after := Aliased(Folded(db, keep, drop).aliases, ids, id);
      && (forall a :: a in ids ==> a in after)
      && (forall a :: a in db.aliases ==> a in after)
  {
    var m := Folded(db, keep, drop).aliases;
    forall a | a in db.aliases || a in ids ensures a in Aliased(m, ids, id) {
      AliasedAt(m, ids, id, a);
      FoldedAliases(db, keep, drop, info, a);
    }
  }

  /** After a save every row is still an alias under its own hash. */
  lemma SavedIsInv(db: Db, after: Db, env: Env, s: Plan)
    requires Inv(db, env) && Core(after, env) && DigestLengths(env) && FromInfo(s.ids, env, s.info)
    requires !Clashes(db, s.ids, s.info)
    requires SameButCounters(after, SavedDb(db, Keep(db, s.ids), Drop(db, s.ids), s))
    ensures Inv(after, env)
  {
    var keep, drop := Keep(db, s.ids), Drop(db, s.ids);
    FoundRowsAreFoldable(db, s.ids, s.info);
    SavedTables(db, keep, drop, s);
    SaveKeepsBytes(db.metadata, keep, drop, s);
    SavedAliases(db, keep, drop, s.info, s.ids, SavedId(db, keep));
    assert s.ids[0] in s.ids && WellFormed(s.ids[0]);
    HashesStayAliases(db, after, s.ids[0], SavedId(db, keep));
  }

  /** If every identity is an alias of one row, the next lookup finds that row and nothing to merge. */
  lemma NextSaveFindsRow(db: Db, ids: seq<Identity>, id: nat)
    requires UniqueHashes(db.metadata) && CanonicalIsAlias(db.metadata, db.aliases)
    requires 1 <= |ids| <= 2 && id in db.metadata && Leads(db.aliases, ids, id)
    ensures Keep(db, ids) == Some(id) && Drop(db, ids).None?
    ensures forall a :: a in ids ==> RowsOf(db, a) == {id}
  {
    forall a | a in ids ensures RowOf(db, a) == Some(id) && RowsOf(db, a) == {id} {
      assert id in RowsOf(db, a);
      RowOfIs(db, a, id);
      forall i | i in RowsOf(db, a) ensures i == id { AtMostOneRow(db, a, i, id); }
    }
  }

  // ---- one accepted save

  /** The tables of an accepted save, without how it was decided. */
  ghost predicate SavedAs(db: Db, after: Db, keep: Option<nat>, drop: Option<nat>, s: Plan) {
    && 1 <= |s.ids| <= 2 && Foldable(db.metadata, keep, drop, s.info)
    && after.metadata == SavedRows(db.metadata, keep, drop, s)
    && after.aliases == Aliased(Folded(db, keep, drop).aliases, s.ids, SavedId(db, keep))
    && after.swarm == AllLinked(Folded(db, keep, drop).swarm, s.ids, s.source, SavedId(db, keep))
    && after.jobs == AllClosed(db.jobs, s.ids, s.key, s.at)
  }

  lemma SavedDbIsSavedAs(db: Db, after: Db, ids: seq<Identity>, s: Plan)
    requires 1 <= |ids| <= 2 && s.ids == ids && !Clashes(db, ids, s.info)
    requires SameButCounters(after, SavedDb(db, Keep(db, ids), Drop(db, ids), s))
    ensures SavedAs(db, after, Keep(db, ids), Drop(db, ids), s)
  {
    FoundRowsAreFoldable(db, ids, s.info);
    SavedTables(db, Keep(db, ids), Drop(db, ids), s);
  }

  lemma AcceptedTables(db: Db, after: Db, env: Env, key: Name, info: Name, at: int)
    requires Accepted(db, after, env, key, info, at)
    ensures var s := PlanOf(env, key, info, at); SavedAs(db, after, Keep(db, s.ids), Drop(db, s.ids), s)
  {
    var s := PlanOf(env, key, info, at);
    SavedDbIsSavedAs(db, after, s.ids, s);
  }

  /**
    After an accepted save all identities of the bytes lead to one row that holds exactly them under
    the canonical hash; only a row with the same bytes is gone, and no other row's bytes differ.
   */
  lemma SaveReachesOneRow(db: Db, after: Db, env: Env, key: Name, info: Name, at: int)
    requires Accepted(db, after, env, key, info, at)
    ensures var ids := IdsOf(env, key, info);
      ReachesOneRow(db, after, ids, SavedId(db, Keep(db, ids)), info)
  {
    var s := PlanOf(env, key, info, at);
    AcceptedTables(db, after, env, key, info, at);
    SavedAsReaches(db, after, Keep(db, s.ids), Drop(db, s.ids), s);
  }

  ghost predicate ReachesOneRow(db: Db, after: Db, ids: seq<Identity>, id: nat, info: Name)
    requires ids != []
  {
    && id in after.metadata && after.metadata[id].info == info && after.metadata[id].hash == ids[0].hash
    && Leads(after.aliases, ids, id)
    && (forall i :: i in db.metadata && i in after.metadata ==> after.metadata[i].info == db.metadata[i].info)
    && (forall i :: i in db.metadata && i !in after.metadata ==> db.metadata[i].info == info)
  }

  lemma SavedAsReaches(db: Db, after: Db, keep: Option<nat>, drop: Option<nat>, s: Plan)
    requires SavedAs(db, after, keep, drop, s)
    ensures ReachesOneRow(db, after, s.ids, SavedId(db, keep), s.info)
  {
    SaveKeepsBytes(db.metadata, keep, drop, s);
    AliasedLeads(Folded(db, keep, drop).aliases, s.ids, SavedId(db, keep));
  }

  /** The bytes that each identity leads to. */
  ghost function BytesOf(db: Db): map<Identity, Name> {
    map a | a in db.aliases && db.aliases[a] in db.metadata :: db.metadata[db.aliases[a]].info
  }

  lemma SavedBytesAt(db: Db, after: Db, keep: Option<nat>, drop: Option<nat>, s: Plan, a: Identity)
    requires SavedAs(db, after, keep, drop, s) && a !in s.ids
    requires forall b :: b in db.aliases ==> db.aliases[b] in db.metadata
    ensures a in BytesOf(after) <==> a in BytesOf(db)
    ensures a in BytesOf(db) ==> BytesOf(after)[a] == BytesOf(db)[a]
  {
    SaveKeepsBytes(db.metadata, keep, drop, s);
    AliasedAt(Folded(db, keep, drop).aliases, s.ids, SavedId(db, keep), a);
    FoldedAliases(db, keep, drop, s.info, a);
  }

  lemma SavedBytesElsewhere(db: Db, after: Db, keep: Option<nat>, drop: Option<nat>, s: Plan)
    requires SavedAs(db, after, keep, drop, s) && forall b :: b in db.aliases ==> db.aliases[b] in db.metadata
    ensures BytesOf(after) == BytesOf(db) + (map a | a in s.ids :: s.info)
  {
    SavedAsReaches(db, after, keep, drop, s);
    forall a | a in s.ids ensures a in BytesOf(after) && BytesOf(after)[a] == s.info {
      assert a in after.aliases && after.aliases[a] == SavedId(db, keep);
    }
    forall a | a !in s.ids
      ensures (a in BytesOf(after) <==> a in BytesOf(db)) && (a in BytesOf(db) ==> BytesOf(after)[a] == BytesOf(db)[a])
    {
      SavedBytesAt(db, after, keep, drop, s, a);
    }
    AddedBytes(BytesOf(db), BytesOf(after), s.ids, s.info);
  }

  lemma AddedBytes(was: map<Identity, Name>, now: map<Identity, Name>, ids: seq<Identity>, info: Name)
    requires forall a :: a in ids ==> a in now && now[a] == info
    requires forall a :: a !in ids ==> (a in now <==> a in was) && (a in was ==> now[a] == was[a])
    ensures now == was + (map a | a in ids :: info)
  {}

  lemma AcceptedAgrees(db: Db, env: Env, key: Name, info: Name)
    requires Inv(db, env) && DigestLengths(env) && Refusal(db, env, info, key).Done?
    ensures forall a :: a in IdsOf(env, key, info) && a in BytesOf(db) ==> BytesOf(db)[a] == info
  {
    var ids := IdsOf(env, key, info);
    assert !Clashes(db, ids, info);
    NoClashMeansSameBytes(db, env, ids, info);
  }

  /** A save makes its own identities lead to its bytes and never changes where another identity leads. */
  lemma SaveOnlyAdds(db: Db, after: Db, env: Env, key: Name, info: Name, at: int)
    requires DigestLengths(env) && Accepted(db, after, env, key, info, at)
    ensures BytesOf(after) == BytesOf(db) + (map a | a in IdsOf(env, key, info) :: info)
    ensures forall a :: a in IdsOf(env, key, info) && a in BytesOf(db) ==> BytesOf(db)[a] == info
  {
    var s := PlanOf(env, key, info, at);
    AcceptedTables(db, after, env, key, info, at);
    SavedBytesElsewhere(db, after, Keep(db, s.ids), Drop(db, s.ids), s);
    AcceptedAgrees(db, env, key, info);
  }

  /** Every row is an alias under its own hash, so the lookup of an identity is that of its alias. */
  lemma RowOfAlias(db: Db, a: Identity)
    requires UniqueHashes(db.metadata) && CanonicalIsAlias(db.metadata, db.aliases)
    requires HashesAreAliases(db.metadata, db.aliases)
    requires WellFormed(a) && forall b :: b in db.aliases ==> db.aliases[b] in db.metadata && WellFormed(b)
    ensures RowOf(db, a) == if a in db.aliases then Some(db.aliases[a]) else None
  {
    forall i | i in RowsOf(db, a) ensures a in db.aliases && db.aliases[a] == i {
      assert db.metadata[i].hash == a.hash ==> Canonical(db.metadata[i].hash) == a;
    }
    if a in db.aliases { assert db.aliases[a] in RowsOf(db, a); }
  }

  /** So a clash is an identity that already leads to other bytes. */
  lemma ClashIsOtherBytes(db: Db, env: Env, ids: seq<Identity>, info: Name)
    requires Inv(db, env) && forall a :: a in ids ==> WellFormed(a)
    ensures Clashes(db, ids, info) <==> exists a :: a in ids && a in BytesOf(db) && BytesOf(db)[a] != info
  {
    forall a | a in ids ensures RowOf(db, a) == if a in db.aliases then Some(db.aliases[a]) else None {
      RowOfAlias(db, a);
    }
    ClashByAlias(db, ids, info);
  }

  lemma NoClashMeansSameBytes(db: Db, env: Env, ids: seq<Identity>, info: Name)
    requires Inv(db, env) && DigestLengths(env) && FromInfo(ids, env, info) && !Clashes(db, ids, info)
    ensures forall a :: a in ids && a in BytesOf(db) ==> BytesOf(db)[a] == info
  {
    ClashIsOtherBytes(db, env, ids, info);
  }

  lemma ClashByAlias(db: Db, ids: seq<Identity>, info: Name)
    requires forall a :: a in ids ==> RowOf(db, a) == if a in db.aliases then Some(db.aliases[a]) else None
    requires forall a :: a in db.aliases ==> db.aliases[a] in db.metadata
    ensures Clashes(db, ids, info) <==> exists a :: a in ids && a in BytesOf(db) && BytesOf(db)[a] != info
  {
    if Clashes(db, ids, info) {
      var k :| 0 <= k < |ids| && RowOf(db, ids[k]).Some? && db.metadata[RowOf(db, ids[k]).value].info != info;
      assert ids[k] in ids && ids[k] in BytesOf(db);
    }
    if a :| a in ids && a in BytesOf(db) && BytesOf(db)[a] != info {
      var k :| 0 <= k < |ids| && ids[k] == a;
      assert RowOf(db, ids[k]).Some?;
    }
  }

  /** Aliases of damaged rows: those that are no digest of the bytes they lead to. */
  ghost function Damage(db: Db, env: Env): set<Identity> { WrongIn(BytesOf(db), env) }

  ghost function WrongIn(bytes: map<Identity, Name>, env: Env): set<Identity> {
    set a | a in bytes && !Genuine(env, a, bytes[a])
  }

  lemma AddedDamage(env: Env, was: map<Identity, Name>, now: map<Identity, Name>, ids: seq<Identity>, info: Name)
    requires FromInfo(ids, env, info) && now == was + (map a | a in ids :: info)
    requires forall a :: a in ids && a in was ==> was[a] == info
    ensures WrongIn(now, env) == WrongIn(was, env)
  {}

  /** No save adds a wrong alias or touches an existing one. */
  lemma SaveKeepsDamage(db: Db, after: Db, env: Env, key: Name, info: Name, at: int)
    requires DigestLengths(env) && Accepted(db, after, env, key, info, at)
    ensures Damage(after, env) == Damage(db, env)
  {
    SaveOnlyAdds(db, after, env, key, info, at);
    AddedDamage(env, BytesOf(db), BytesOf(after), IdsOf(env, key, info), info);
  }

  // ---- saving a hybrid from both sides

  ghost predicate KeysOf(ids: seq<Identity>, one: Identity, two: Identity, key: Name, other: Name) {
    && one in ids && two in ids && SwarmKey(one) == key && SwarmKey(two) == other && key != other
    && forall k :: Touches(ids, k) <==> k in {key, other}
  }

  /** Two registrations of the same identities, each from its own key. */
  lemma LinkTwice(base: map<Link, Label>, ids: seq<Identity>, one: Identity, two: Identity, key: Name, other: Name,
                  id: nat, l: Link)
    requires KeysOf(ids, one, two, key, other)
    ensures var second := AllLinked(AllLinked(base, ids, one, id), ids, two, id);
      && (l in second <==> l in base || (l.id == id && l.key in {key, other}))
      && (l in second ==>
            second[l] == if l.id == id && l.key == key then SourceLabel(one)
                         else if l.id == id && l.key == other then SourceLabel(two)
                         else base[l])
  {
    LinkedAt(base, ids, one, id, l);
    LinkedAt(AllLinked(base, ids, one, id), ids, two, id, l);
  }

  lemma BothOrdersLinkAlike(base: map<Link, Label>, ids: seq<Identity>, one: Identity, two: Identity, key: Name,
                            other: Name, id: nat)
    requires KeysOf(ids, one, two, key, other) && KeysOf(ids, two, one, other, key)
    ensures AllLinked(AllLinked(base, ids, one, id), ids, two, id) == AllLinked(AllLinked(base, ids, two, id), ids, one, id)
  {
    var a := AllLinked(AllLinked(base, ids, one, id), ids, two, id);
    var b := AllLinked(AllLinked(base, ids, two, id), ids, one, id);
    forall l: Link ensures (l in a <==> l in b) && (l in a ==> a[l] == b[l]) {
      LinkTwice(base, ids, one, two, key, other, id, l);
      LinkTwice(base, ids, two, one, other, key, id, l);
    }
  }

  lemma HybridKeys(env: Env, info: Name)
    requires DigestLengths(env) && env.validHybrid(info) && env.isV2(info)
    requires SwarmKey(Digest(env, KindV2, info)) != env.sha1(info)
    ensures var one, two := Digest(env, KindV1, info), Digest(env, KindV2, info);
      && Identities(env, info, one) == [one, two] == Identities(env, info, two)
      && MatchIdentity(env, info, SwarmKey(one)) == Some(one) && MatchIdentity(env, info, SwarmKey(two)) == Some(two)
      && KeysOf([one, two], one, two, SwarmKey(one), SwarmKey(two)) && KeysOf([one, two], two, one, SwarmKey(two), SwarmKey(one))
  {
    var one, two := Digest(env, KindV1, info), Digest(env, KindV2, info);
    assert SwarmKey(one) == one.hash;
    var ids := [one, two];
    assert ids[0] == one && ids[1] == two;
  }

  lemma SettledDoesNotClash(db: Db, ids: seq<Identity>, id: nat, info: Name)
    requires id in db.metadata && db.metadata[id].info == info && forall a :: a in ids ==> RowsOf(db, a) == {id}
    ensures !Clashes(db, ids, info)
  {
    forall k | 0 <= k < |ids| ensures RowOf(db, ids[k]) == Some(id) {
      assert ids[k] in ids;
    }
  }

  /** After a save, the lookup of the same identities finds the saved row and nothing to merge. */
  lemma SavedRowIsFoundAgain(db: Db, first: Db, env: Env, info: Name, key: Name, at: int)
    requires Accepted(db, first, env, key, info, at)
    ensures var ids := IdsOf(env, key, info);
      Keep(first, ids) == Some(SavedId(db, Keep(db, ids))) && Drop(first, ids).None? && !Clashes(first, ids, info)
  {
    var ids := IdsOf(env, key, info);
    SaveReachesOneRow(db, first, env, key, info, at);
    NextSaveFindsRow(first, ids, SavedId(db, Keep(db, ids)));
    SettledDoesNotClash(first, ids, SavedId(db, Keep(db, ids)), info);
  }

  /** Apart from clashes, what is refused depends on the bytes alone. */
  lemma OnlyClashesRefuse(db: Db, first: Db, env: Env, info: Name, key: Name, other: Name)
    requires Refusal(db, env, info, key).Done? && MatchIdentity(env, info, other).Some?
    requires IdsOf(env, other, info) == IdsOf(env, key, info) && !Clashes(first, IdsOf(env, key, info), info)
    ensures Refusal(first, env, info, other).Done?
  {}

  /** After a save of the same bytes from the other side, nothing stands in the way of the second. */
  lemma SecondSaveIsAccepted(db: Db, first: Db, env: Env, info: Name, key: Name, other: Name, at: int)
    requires Accepted(db, first, env, key, info, at) && MatchIdentity(env, info, other).Some?
    requires IdsOf(env, other, info) == IdsOf(env, key, info)
    ensures Refusal(first, env, info, other).Done?
    ensures var ids := IdsOf(env, key, info); Keep(first, ids) == Some(SavedId(db, Keep(db, ids))) && Drop(first, ids).None?
  {
    SavedRowIsFoundAgain(db, first, env, info, key, at);
    OnlyClashesRefuse(db, first, env, info, key, other);
  }

  /** Which of its keys the bytes are saved under makes no difference to whether they are refused. */
  lemma SameRefusal(db: Db, env: Env, info: Name, key: Name, other: Name)
    requires MatchIdentity(env, info, key).Some? && MatchIdentity(env, info, other).Some?
    requires IdsOf(env, other, info) == IdsOf(env, key, info)
    ensures Refusal(db, env, info, key) == Refusal(db, env, info, other)
  {}

  /** Two saves of the same bytes: both are accepted and reach the same row, or both are refused alike. */
  lemma BothOrNeither(db: Db, first: Db, second: Db, env: Env, info: Name, key: Name, other: Name, at: int, later: int,
                      r: Outcome<nat>, q: Outcome<nat>)
    requires MatchIdentity(env, info, key).Some? && MatchIdentity(env, info, other).Some?
    requires IdsOf(env, other, info) == IdsOf(env, key, info)
    requires Saves(db, first, env, key, info, at, r) && Saves(first, second, env, other, info, later, q)
    ensures if Refusal(db, env, info, key).Done?
            then Accepted(db, first, env, key, info, at) && Accepted(first, second, env, other, info, later)
            else first == second == db
    ensures q == r == match Refusal(db, env, info, key)
                      case Invalid => Invalid
                      case Conflict => Conflict
                      case Done(_) => Done(SavedId(db, Keep(db, IdsOf(env, key, info))))
  {
    if Refusal(db, env, info, key).Done? {
      SecondSaveIsAccepted(db, first, env, info, key, other, at);
    } else {
      SameRefusal(db, env, info, key, other);
    }
  }

  lemma TwiceSavedAs(db: Db, first: Db, second: Db, keep: Option<nat>, drop: Option<nat>, s: Plan, t: Plan)
    requires SavedAs(db, first, keep, drop, s)
    requires SavedAs(first, second, Some(SavedId(db, keep)), None, t) && t.ids == s.ids
    ensures var base, id := Folded(db, keep, drop), SavedId(db, keep);
      && second.aliases == Aliased(Aliased(base.aliases, s.ids, id), s.ids, id)
      && second.swarm == AllLinked(AllLinked(base.swarm, s.ids, s.source, id), s.ids, t.source, id)
  {}

  /** The aliases and labels after saving `info` twice, first under the key of `one` and then under that of `two`. */
  lemma TwoSaves(db: Db, first: Db, second: Db, env: Env, info: Name, key: Name, other: Name, at: int, later: int)
    requires Accepted(db, first, env, key, info, at) && MatchIdentity(env, info, other).Some?
    requires IdsOf(env, other, info) == IdsOf(env, key, info)
    requires Accepted(first, second, env, other, info, later)
    ensures var s, t := PlanOf(env, key, info, at), PlanOf(env, other, info, later);
      var keep, drop := Keep(db, s.ids), Drop(db, s.ids);
      var base, id := Folded(db, keep, drop), SavedId(db, keep);
      && second.aliases == Aliased(Aliased(base.aliases, s.ids, id), s.ids, id)
      && second.swarm == AllLinked(AllLinked(base.swarm, s.ids, s.source, id), s.ids, t.source, id)
  {
    var s, t := PlanOf(env, key, info, at), PlanOf(env, other, info, later);
    AcceptedTables(db, first, env, key, info, at);
    AcceptedTables(first, second, env, other, info, later);
    SavedRowIsFoundAgain(db, first, env, info, key, at);
    TwiceSavedAs(db, first, second, Keep(db, s.ids), Drop(db, s.ids), s, t);
  }

  /**
    Saving a hybrid under v1 then v2, or v2 then v1, at any four times: either both orders are refused
    throughout, or all four saves are accepted, and the aliases and labels come out the same.
   */
  lemma HybridOrderDoesNotMatter(db: Db, a: Db, ab: Db, b: Db, ba: Db, env: Env, info: Name,
                                 times: (int, int, int, int), r: (Outcome<nat>, Outcome<nat>, Outcome<nat>, Outcome<nat>))
    requires DigestLengths(env) && env.validHybrid(info) && env.isV2(info)
    requires SwarmKey(Digest(env, KindV2, info)) != env.sha1(info)
    requires Inv(db, env)
    requires var one, two := SwarmKey(Digest(env, KindV1, info)), SwarmKey(Digest(env, KindV2, info));
      && Saves(db, a, env, one, info, times.0, r.0) && Saves(a, ab, env, two, info, times.1, r.1)
      && Saves(db, b, env, two, info, times.2, r.2) && Saves(b, ba, env, one, info, times.3, r.3)
    ensures ab.aliases == ba.aliases && ab.swarm == ba.swarm
    ensures r.0 == r.1 == r.2 == r.3
  {
    var one, two := Digest(env, KindV1, info), Digest(env, KindV2, info);
    var key, other, ids := SwarmKey(one), SwarmKey(two), [one, two];
    HybridKeys(env, info);
    SameRefusal(db, env, info, key, other);
    BothOrNeither(db, a, ab, env, info, key, other, times.0, times.1, r.0, r.1);
    BothOrNeither(db, b, ba, env, info, other, key, times.2, times.3, r.2, r.3);
    if Refusal(db, env, info, key).Done? {
      TwoSaves(db, a, ab, env, info, key, other, times.0, times.1);
      TwoSaves(db, b, ba, env, info, other, key, times.2, times.3);
      var keep, drop := Keep(db, ids), Drop(db, ids);
      BothOrdersLinkAlike(Folded(db, keep, drop).swarm, ids, one, two, key, other, SavedId(db, keep));
    }
  }
}
