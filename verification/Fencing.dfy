/**
  Fencing over whole runs: claims interleaved with every other transaction that writes jobs. Each
  transaction is shown to be a step of such a run, and no two claims of a run can be confused.
 */
module Fencing {
  import opened Common
  import opened Records
  import opened JobsDb
  import opened Claim
  import IS = IdentityStore
  import IT = IdentityTransaction
  import opened MetadataDb
  import Backfill

  datatype Step = Step(before: map<Hash, Job>, after: map<Hash, Job>, claim: Option<(Hash, nat)>)

  ghost predicate StepAllowed(s: Step) {
    && Evolves(s.before, s.after)
    && (s.claim.Some? ==>
          var (h, g) := s.claim.value;
          h in s.before && s.before[h].generation < g && h in s.after && s.after[h].generation >= g)
  }

  ghost predicate RunAllowed(steps: seq<Step>) {
    && (forall i :: 0 <= i < |steps| ==> StepAllowed(steps[i]))
    && (forall i :: 0 <= i < |steps| - 1 ==> steps[i].after == steps[i + 1].before)
  }

  lemma {:induction false} GenerationsGrow(steps: seq<Step>, i: nat, j: nat, h: Hash)
    requires RunAllowed(steps) && i < j < |steps| && h in steps[i].after
    ensures h in steps[j].before && steps[i].after[h].generation <= steps[j].before[h].generation
    decreases j - i
  {
    if i + 1 < j {
      assert StepAllowed(steps[i + 1]) && steps[i].after == steps[i + 1].before;
      GenerationsGrow(steps, i + 1, j, h);
    }
  }

  /** No two claims of a run share hash and generation: a stale worker never matches a newer claim. */
  lemma ClaimsAreFenced(steps: seq<Step>, i: nat, j: nat)
    requires RunAllowed(steps) && i < j < |steps| && steps[i].claim.Some? && steps[j].claim.Some?
    ensures steps[i].claim != steps[j].claim
    ensures steps[i].claim.value.0 == steps[j].claim.value.0 ==> steps[i].claim.value.1 < steps[j].claim.value.1
  {
    assert StepAllowed(steps[i]) && StepAllowed(steps[j]);
    GenerationsGrow(steps, i, j, steps[i].claim.value.0);
  }

  // ---- the transactions that write jobs are steps of such a run

  lemma ClaimIsAllowed(db: JobsDb.Db, h: Hash, now: int)
    requires h in db.jobs
    ensures StepAllowed(Step(db.jobs, Started(db, h, now).jobs, Some((h, db.jobs[h].generation + 1))))
  {}

  lemma AdmissionIsAllowed(db: JobsDb.Db, h: Hash, now: int)
    ensures StepAllowed(Step(db.jobs, Enqueued(db, h, now).jobs, None))
  {}

  /** Both backfill sweeps. */
  lemma BackfillIsAllowed(before: JobsDb.Db, after: JobsDb.Db, scanned: seq<Hash>)
    requires Backfill.JobsGrow(before, after, scanned)
    ensures StepAllowed(Step(before.jobs, after.jobs, None))
  {}

  lemma {:induction false} ClosingEvolves(jobs: map<Hash, Job>, ids: seq<Identity>, key: Hash, at: int)
    ensures Evolves(jobs, IT.AllClosed(jobs, ids, key, at))
    decreases |ids|
  {
    if ids != [] {
      ClosingEvolves(jobs, ids[..|ids| - 1], key, at);
    }
  }

  lemma SavedAsIsAllowed(db: MetadataDb.Db, after: MetadataDb.Db, keep: Option<nat>, drop: Option<nat>, s: IT.Plan)
    requires IT.SavedAs(db, after, keep, drop, s)
    ensures StepAllowed(Step(db.jobs, after.jobs, None))
  {
    ClosingEvolves(db.jobs, s.ids, s.key, s.at);
  }

  /** A save closes the jobs of the torrent's other keys under a new generation. */
  lemma SaveIsAllowed(db: MetadataDb.Db, after: MetadataDb.Db, env: IS.Env, key: Hash, info: Hash, at: int)
    requires IT.Accepted(db, after, env, key, info, at)
    ensures StepAllowed(Step(db.jobs, after.jobs, None))
  {
    var s := IT.PlanOf(env, key, info, at);
    IT.AcceptedTables(db, after, env, key, info, at);
    SavedAsIsAllowed(db, after, IS.Keep(db, s.ids), IS.Drop(db, s.ids), s);
  }

  /** A job that a save closes carries a generation that no claim has been given. */
  lemma CloseOutdatesClaims(jobs: map<Hash, Job>, h: Hash, at: int)
    requires h in jobs && jobs[h].state != Succeeded
    ensures var after := Closed(jobs, h, at);
      after[h].state == Succeeded && after[h].generation == jobs[h].generation + 1 && after[h].updatedAt >= at
  {}
}
