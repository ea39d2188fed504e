/**
  Resumable sample ingest. A segment may be confirmed, fail, or be abandoned while its command stays
  queued and commits later; replaying it until it is confirmed is shown to have exactly-once effect.
 */
module Ingest {
  import opened Common
  import opened Records
  import opened JobsDb
  import opened Admission
  import opened Discovery

  datatype Batch = Batch(samples: seq<Hash>, at: int)

  datatype Segment = Segment(hashes: seq<Hash>, at: int)

  /** What the caller learns of a command: only a confirmation proves that it committed. */
  datatype Reply = Confirmed | Failed | Cancelled

  datatype RunResult = Finished | Errored | Stopped

  predicate Storable(s: Segment) { |s.hashes| <= SEGMENT && s.at >= 0 }

  function Carried(s: Segment): set<Obs> { ObsOf(s.hashes, s.at) }

  /** Every observation in the batches. */
  ghost function SampledIn(batches: seq<Batch>): set<Obs> { set b, h | b in batches && h in b.samples :: Obs(h, b.at) }

  lemma SampledSplits(batches: seq<Batch>, b: Batch)
    ensures SampledIn(batches + [b]) == SampledIn(batches) + ObsOf(b.samples, b.at)
  {
    forall o | o in SampledIn(batches) + ObsOf(b.samples, b.at) ensures o in SampledIn(batches + [b]) {
      if o in ObsOf(b.samples, b.at) {
        assert b in batches + [b];
      } else {
        var c :| c in batches && o.hash in c.samples && o.at == c.at;
        assert c in batches + [b];
      }
    }
  }

  /** Queued commands leave in order. */
  ghost predicate Leaves(before: seq<Segment>, after: seq<Segment>) {
    |after| <= |before| && after == before[|before| - |after|..]
  }

  lemma LeavesNext(before: seq<Segment>, after: seq<Segment>)
    requires Leaves(before, after) && after != []
    ensures Leaves(before, after[1..]) && after[0] in before && (|after| == 1 ==> after[0] == before[|before| - 1])
  {}

  /** Only queued commands and other writers add observations. */
  ghost predicate Gains(before: seq<Segment>, was: set<Obs>, applied: set<Obs>, others: set<Obs>) {
    forall o :: o in applied ==> o in was || o in others || exists s :: s in before && o in Carried(s)
  }

  /** The database thread: commands run whole, in the order they were queued. */
  class Storage {
    const store: JobStore
    const config: Config
    var queued: seq<Segment>
    ghost var start: Table
    ghost var applied: set<Obs>
    ghost var others: set<Obs>

    ghost predicate Valid()
      reads this, store
    {
      && IsMerge(start, applied, store.db.hashes) && others <= applied
      && forall s :: s in queued ==> Storable(s)
    }

    constructor (store: JobStore, config: Config)
      ensures Valid() && this.store == store && queued == [] && start == store.db.hashes
      ensures applied == {} && others == {}
    {
      this.store := store;
      this.config := config;
      queued, start, applied, others := [], store.db.hashes, {}, {};
    }

    /** Run the oldest command: its transaction commits or rolls back. */
    method Execute() returns (committed: bool)
      requires Valid() && queued != []
      modifies this, store
      ensures Valid() && queued == old(queued[1..]) && start == old(start) && others == old(others)
      ensures applied == if committed then old(applied) + Carried(old(queued[0])) else old(applied)
    {
      var s := queued[0];
      assert s in queued;
      queued := queued[1..];
      committed := *;
      if committed {
        var now: int :| now >= 0;
        SavedMerges(start, applied, store.db.hashes, s.hashes, s.at);
        var r := SaveHashes(store, s.hashes, s.at, now, config);
        applied := applied + Carried(s);
      }
    }

    /** Another writer merges one observation of its own. */
    method Elsewhere(h: Hash, at: int)
      requires Valid()
      modifies this, store
      ensures Valid() && queued == old(queued) && start == old(start)
      ensures others == old(others) + {Obs(h, at)} && applied == old(applied) + {Obs(h, at)}
    {
      UpsertMerges(start, applied, store.db.hashes, h, at);
      store.db := store.db.(hashes := Upserted(store.db.hashes, h, at));
      others, applied := others + {Obs(h, at)}, applied + {Obs(h, at)};
    }

    /** Any number of queued commands and of other writers' transactions. */
    method Background() returns (committed: bool)
      requires Valid()
      modifies this, store
      ensures Valid() && start == old(start) && old(others) <= others && old(applied) <= applied
      ensures Leaves(old(queued), queued) && Gains(old(queued), old(applied), applied, others)
      ensures committed && queued == [] ==> old(queued) != [] && Carried(old(queued[|queued| - 1])) <= applied
    {
      committed := false;
      ghost var before, was, theirs := queued, applied, others;
      var turns: int :| turns >= 0;
      for k := 0 to turns
        invariant Valid() && start == old(start) && theirs <= others && was <= applied
        invariant Leaves(before, queued) && Gains(before, was, applied, others)
        invariant committed && queued == [] ==> before != [] && Carried(before[|before| - 1]) <= applied
      {
        if * {
          var h, at := *, *;
          Elsewhere(h, at);
        } else if queued != [] {
          LeavesNext(before, queued);
          committed := Execute();
        }
      }
    }

    /** Send one segment and wait. Confirmation means that it, and everything queued before it, has run. */
    method Save(s: Segment) returns (r: Reply)
      requires Valid() && Storable(s)
      modifies this, store
      ensures Valid() && start == old(start) && old(others) <= others && old(applied) <= applied
      ensures Gains(old(queued) + [s], old(applied), applied, others)
      ensures forall t :: t in queued ==> t in old(queued) || t == s
      ensures r.Confirmed? ==> queued == [] && Carried(s) <= applied
    {
      if * {
        return Failed;
      } else if * {
        return Cancelled;
      }
      queued := queued + [s];
      ghost var sent := queued;
      var committed := Background();
      forall t | t in queued ensures t in sent {}
      var acknowledged: bool := *;
      if queued == [] && committed && acknowledged {
        return Confirmed;
      } else if * {
        return Failed;
      }
      return Cancelled;
    }
  }

  function NextSegment(b: Batch, offset: nat): Segment
    requires offset <= |b.samples|
  {
    var end := if offset + SEGMENT < |b.samples| then offset + SEGMENT else |b.samples|;
    Segment(b.samples[offset..end], b.at)
  }

  /** Confirming the next segment confirms a longer prefix of the batch, and nothing outside the batch. */
  lemma NextPrefix(b: Batch, offset: nat)
    requires offset < |b.samples|
    ensures var next := NextSegment(b, offset);
      && |next.hashes| > 0 && offset + |next.hashes| <= |b.samples| && |next.hashes| <= SEGMENT
      && ObsOf(b.samples[..offset + |next.hashes|], b.at) == ObsOf(b.samples[..offset], b.at) + Carried(next)
  {
    var next := NextSegment(b, offset);
    assert b.samples[..offset + |next.hashes|] == b.samples[..offset] + next.hashes;
  }

  // ---- where ingest stands, on values

  /** `earlier` batches are complete; of the current one the first `offset` samples are confirmed. */
  datatype Position = Position(earlier: seq<Batch>, current: Option<Batch>, offset: nat)

  ghost predicate Placed(p: Position) { p.current.Some? ==> p.offset <= |p.current.value.samples| }

  ghost function ReceivedAt(p: Position): seq<Batch> {
    p.earlier + if p.current.Some? then [p.current.value] else []
  }

  /** Observations covered by confirmed segments. */
  ghost function Covered(p: Position): set<Obs>
    requires Placed(p)
  {
    SampledIn(p.earlier) + if p.current.Some? then ObsOf(p.current.value.samples[..p.offset], p.current.value.at) else {}
  }

  /** Only copies of the next segment can still be queued. */
  ghost predicate Replays(p: Position, queued: seq<Segment>)
    requires Placed(p)
  {
    queued != [] ==>
      && p.current.Some? && p.offset < |p.current.value.samples|
      && forall s :: s in queued ==> s == NextSegment(p.current.value, p.offset)
  }

  /** The offset never passes an unconfirmed segment, and nothing but received samples was applied. */
  ghost predicate Exact(p: Position, applied: set<Obs>, others: set<Obs>)
    requires Placed(p)
  {
    others + Covered(p) <= applied && applied <= others + SampledIn(ReceivedAt(p))
  }

  lemma OnlySampled(p: Position, queued: seq<Segment>, was: set<Obs>, applied: set<Obs>, theirs: set<Obs>,
                    others: set<Obs>)
    requires Placed(p) && Replays(p, queued) && Exact(p, was, theirs)
    requires theirs <= others <= applied && was <= applied && Gains(queued, was, applied, others)
    ensures Exact(p, applied, others)
  {
    forall o | o in applied && o !in was && o !in others ensures o in SampledIn(ReceivedAt(p)) {
      var b := p.current.value;
      assert o in Carried(NextSegment(b, p.offset)) && b in ReceivedAt(p);
    }
  }

  lemma LeavesReplays(p: Position, before: seq<Segment>, after: seq<Segment>)
    requires Placed(p) && Replays(p, before) && Leaves(before, after)
    ensures Replays(p, after)
  {
    forall s | s in after ensures s in before {
      var i :| 0 <= i < |after| && after[i] == s;
      assert before[|before| - |after| + i] == s;
    }
  }

  lemma ConfirmedAdvances(p: Position, applied: set<Obs>, others: set<Obs>)
    requires Placed(p) && p.current.Some? && p.offset < |p.current.value.samples| && Exact(p, applied, others)
    requires Carried(NextSegment(p.current.value, p.offset)) <= applied
    ensures var p' := p.(offset := p.offset + |NextSegment(p.current.value, p.offset).hashes|);
      p'.offset > p.offset && Placed(p') && Exact(p', applied, others)
  {
    NextPrefix(p.current.value, p.offset);
  }

  lemma CompleteIsExact(p: Position, applied: set<Obs>, others: set<Obs>)
    requires Placed(p) && p.current.Some? && p.offset == |p.current.value.samples| && Exact(p, applied, others)
    ensures var p' := Position(ReceivedAt(p), None, p.offset); Exact(p', applied, others)
  {
    var b := p.current.value;
    SampledSplits(p.earlier, b);
    assert b.samples[..p.offset] == b.samples;
  }

  lemma TakeIsExact(earlier: seq<Batch>, offset: nat, b: Batch, applied: set<Obs>, others: set<Obs>)
    requires Exact(Position(earlier, None, offset), applied, others)
    ensures Exact(Position(earlier, Some(b), 0), applied, others)
  {
    SampledSplits(earlier, b);
    assert ObsOf(b.samples[..0], b.at) == {};
  }

  /** With no batch in hand, exactly the samples received so far have been applied. */
  lemma NothingLeft(earlier: seq<Batch>, offset: nat, applied: set<Obs>, others: set<Obs>)
    requires Exact(Position(earlier, None, offset), applied, others)
    ensures applied == others + SampledIn(earlier) && earlier + [] + [] == earlier
  {
    assert earlier + [] == earlier;
  }

  lemma TakeDelivers(earlier: seq<Batch>, inbox: seq<Batch>)
    requires inbox != []
    ensures earlier + [inbox[0]] + inbox[1..] == earlier + [] + inbox
  {}

  class SampleIngest {
    const storage: Storage
    var current: Option<Batch>
    var offset: nat
    var error: bool
    /** What the channel still delivers before it closes. */
    var inbox: seq<Batch>
    ghost var completed: seq<Batch>

    ghost function Here(): Position
      reads this
    {
      Position(completed, current, offset)
    }

    ghost predicate Valid()
      reads this, storage, storage.store
    {
      && storage.Valid() && Placed(Here()) && (error ==> current.Some?)
      && Replays(Here(), storage.queued) && Exact(Here(), storage.applied, storage.others)
    }

    /** Every batch the channel has delivered or will deliver, in order. */
    ghost function Delivered(): seq<Batch>
      reads this
    {
      ReceivedAt(Here()) + inbox
    }

    constructor (storage: Storage, inbox: seq<Batch>)
      requires storage.Valid() && storage.queued == [] && storage.applied == storage.others
      ensures Valid() && this.storage == storage && Delivered() == inbox && !error
    {
      this.storage := storage;
      this.inbox := inbox;
      current, offset, error, completed := None, 0, false, [];
    }

    /** Between runs abandoned commands may still execute, and other writers go on. */
    method Idle()
      requires Valid()
      modifies storage, storage.store
      ensures Valid() && storage.start == old(storage.start)
    {
      ghost var queued, was, theirs := storage.queued, storage.applied, storage.others;
      var _ := storage.Background();
      LeavesReplays(Here(), queued, storage.queued);
      OnlySampled(Here(), queued, was, storage.applied, theirs, storage.others);
    }

    /** Send the next segment and advance only when it is confirmed. */
    method SaveNext() returns (r: Reply)
      requires Valid() && current.Some? && offset < |current.value.samples| && current.value.at >= 0
      modifies this`offset, storage, storage.store
      ensures Valid() && storage.start == old(storage.start)
      ensures if r.Confirmed? then offset > old(offset) && storage.queued == [] else offset == old(offset)
    {
      var next := NextSegment(current.value, offset);
      NextPrefix(current.value, offset);
      ghost var here, queued, was, theirs := Here(), storage.queued, storage.applied, storage.others;
      r := storage.Save(next);
      OnlySampled(here, queued + [next], was, storage.applied, theirs, storage.others);
      if r.Confirmed? {
        ConfirmedAdvances(here, storage.applied, storage.others);
        offset := offset + |next.hashes|;
      }
    }

    method Take()
      requires Valid() && current.None? && inbox != []
      modifies this`current, this`offset, this`inbox
      ensures Valid() && Delivered() == old(Delivered()) && |inbox| == old(|inbox|) - 1 && current.Some?
      ensures error == old(error) && completed == old(completed)
    {
      TakeIsExact(completed, offset, inbox[0], storage.applied, storage.others);
      TakeDelivers(completed, inbox);
      current, offset, inbox := Some(inbox[0]), 0, inbox[1..];
    }

    method Complete()
      requires Valid() && current.Some? && offset == |current.value.samples|
      modifies this`completed, this`current, this`error
      ensures Valid() && Delivered() == old(Delivered()) && inbox == old(inbox) && current.None? && !error
      ensures old(completed) <= completed
    {
      CompleteIsExact(Here(), storage.applied, storage.others);
      ghost var all := ReceivedAt(Here());
      assert all + [] == all;
      completed, current, error := all, None, false;
    }

    /** Consume the current batch: true when all of it is confirmed. */
    method SaveBatch() returns (r: Reply)
      requires Valid() && current.Some?
      modifies this, storage, storage.store
      ensures Valid() && storage.start == old(storage.start)
      ensures Delivered() == old(Delivered()) && inbox == old(inbox) && old(completed) <= completed
      ensures if r.Confirmed? then current.None? else current == old(current) && offset >= old(offset)
      ensures r.Confirmed? ==> old(current.value.at) >= 0 && !error
      ensures r.Failed? ==> error
      ensures r.Cancelled? ==> error == old(error)
    {
      var batch := current.value;
      if batch.at < 0 {
        error := true;
        return Failed;
      }
      while offset < |batch.samples|
        invariant Valid() && storage.start == old(storage.start) && current == Some(batch) && offset >= old(offset)
        invariant completed == old(completed) && inbox == old(inbox) && error == old(error)
        decreases |batch.samples| - offset
      {
        r := SaveNext();
        if r.Failed? {
          error := true;
        }
        if !r.Confirmed? {
          return;
        }
      }
      Complete();
      return Confirmed;
    }

    /**
      Consume until the channel closes, a save fails or the wait is cancelled. Whatever happened in
      earlier runs, a run that finishes leaves the hash table equal to its start merged with every
      sample of every batch ever delivered, and with what other writers added.
     */
    method Run() returns (r: RunResult)
      requires Valid()
      modifies this, storage, storage.store
      ensures Valid() && storage.start == old(storage.start) && Delivered() == old(Delivered())
      ensures old(completed) <= completed
      ensures r.Finished? ==> !error && storage.queued == [] && completed == old(Delivered())
      ensures r.Finished? ==>
        IsMerge(storage.start, storage.others + SampledIn(old(Delivered())), storage.store.db.hashes)
      ensures r.Errored? ==> error
      ensures r.Stopped? && error ==> old(error)
    {
      while true
        invariant Valid() && storage.start == old(storage.start) && Delivered() == old(Delivered())
        invariant old(completed) <= completed && (error ==> old(error))
        decreases |inbox|, current.Some?
      {
        if current.None? {
          if * {
            return Stopped;
          }
          if inbox == [] {
            NothingLeft(completed, offset, storage.applied, storage.others);
            return Finished;
          }
          Take();
        }
        var reply := SaveBatch();
        if reply.Failed? {
          return Errored;
        } else if reply.Cancelled? {
          return Stopped;
        }
      }
    }
  }
}
