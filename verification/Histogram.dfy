/**
  Fixed-bucket durations. The buckets are the saturated tallies of every sample recorded, and the
  quantile read from them is compared with the exact nearest-rank sample.
 */
module Histogram {
  import opened Common

  datatype Buckets = Network | Diagnostic

  datatype Quantile = Quantile(upperBound: Option<nat>, exceeds: Option<nat>)

  const BUCKETS: nat := 23

  const NETWORK_BOUNDS: seq<nat> := [1, 5, 10, 50, 100, 500, 1000, 2000, 5000, 10000, 30000, 60000, 180000]

  const DIAGNOSTIC_BOUNDS: seq<nat> := [
    1, 5, 10, 50, 100, 500, 1000, 2000, 5000, 10000, 30000, 60000, 180000, 300000, 600000, 1800000,
    3600000, 7200000, 21600000, 43200000, 64800000, 86400000]

  function Bounds(kind: Buckets): seq<nat> {
    match kind
    case Network => NETWORK_BOUNDS
    case Diagnostic => DIAGNOSTIC_BOUNDS
  }

  predicate Ascending(bounds: seq<nat>) {
    forall i, j :: 0 <= i < j < |bounds| ==> bounds[i] < bounds[j]
  }

  lemma BoundsAscend(kind: Buckets)
    ensures Ascending(Bounds(kind)) && 0 < |Bounds(kind)| < BUCKETS
  {
    var b := Bounds(kind);
    assert forall i :: 0 <= i < |b| - 1 ==> b[i] < b[i + 1];
    StepsAscend(b);
  }

  lemma {:induction false} StepsAscend(b: seq<nat>)
    requires forall i :: 0 <= i < |b| - 1 ==> b[i] < b[i + 1]
    ensures Ascending(b)
  {
    if |b| > 1 {
      StepsAscend(b[..|b| - 1]);
      forall i, j | 0 <= i < j < |b| ensures b[i] < b[j] {
        assert b[|b| - 2] < b[|b| - 2 + 1];
        if j < |b| - 1 { assert b[..|b| - 1][i] < b[..|b| - 1][j]; }
        else if i < |b| - 2 { assert b[..|b| - 1][i] < b[..|b| - 1][|b| - 2]; }
      }
    }
  }

  /** Bucket `i` holds the samples above the previous bound and at or below its own. */
  predicate InBucket(bounds: seq<nat>, ms: nat, i: nat) {
    i <= |bounds| && (forall j :: 0 <= j < i ==> bounds[j] < ms) && (i < |bounds| ==> ms <= bounds[i])
  }

  function BucketOf(bounds: seq<nat>, ms: nat): (i: nat)
    ensures InBucket(bounds, ms, i)
  {
    if bounds == [] || ms <= bounds[0] then 0 else 1 + BucketOf(bounds[1..], ms)
  }

  lemma BucketIsUnique(bounds: seq<nat>, ms: nat, i: nat)
    requires InBucket(bounds, ms, i)
    ensures i == BucketOf(bounds, ms)
  {}

  /** Larger samples never fall into lower buckets. */
  lemma BucketsAreOrdered(bounds: seq<nat>, a: nat, b: nat)
    requires Ascending(bounds) && a <= b
    ensures BucketOf(bounds, a) <= BucketOf(bounds, b)
  {}

  // ---- counting samples

  function Tally(bounds: seq<nat>, samples: seq<nat>, i: nat): nat {
    if samples == [] then 0
    else Tally(bounds, samples[..|samples| - 1], i) + if BucketOf(bounds, samples[|samples| - 1]) == i then 1 else 0
  }

  /** Samples in the buckets before `i`. */
  function Before(bounds: seq<nat>, samples: seq<nat>, i: nat): nat {
    if samples == [] then 0
    else Before(bounds, samples[..|samples| - 1], i) + if BucketOf(bounds, samples[|samples| - 1]) < i then 1 else 0
  }

  function Less(samples: seq<nat>, v: nat): nat {
    if samples == [] then 0 else Less(samples[..|samples| - 1], v) + if samples[|samples| - 1] < v then 1 else 0
  }

  /** Nearest rank by counting: fewer than `rank` samples are smaller, and at least `rank` are not larger. */
  predicate IsNearestRank(samples: seq<nat>, rank: nat, v: nat) {
    Less(samples, v) < rank <= Less(samples, v + 1)
  }

  lemma {:induction false} TallyStep(bounds: seq<nat>, samples: seq<nat>, i: nat)
    ensures Before(bounds, samples, i + 1) == Before(bounds, samples, i) + Tally(bounds, samples, i)
    decreases |samples|
  {
    if samples != [] { TallyStep(bounds, samples[..|samples| - 1], i); }
  }

  lemma {:induction false} BeforeEnds(bounds: seq<nat>, samples: seq<nat>, i: nat)
    ensures Before(bounds, samples, 0) == 0
    ensures i > |bounds| ==> Before(bounds, samples, i) == |samples|
    decreases |samples|
  {
    if samples != [] { BeforeEnds(bounds, samples[..|samples| - 1], i); }
  }

  lemma {:induction false} BeforeGrows(bounds: seq<nat>, samples: seq<nat>, i: nat, j: nat)
    requires i <= j
    ensures Before(bounds, samples, i) <= Before(bounds, samples, j)
    decreases |samples|
  {
    if samples != [] { BeforeGrows(bounds, samples[..|samples| - 1], i, j); }
  }

  /** The buckets before that of `v` hold only smaller samples; up to and including it, all that are not larger. */
  lemma {:induction false} BucketBrackets(bounds: seq<nat>, samples: seq<nat>, v: nat)
    requires Ascending(bounds)
    ensures Before(bounds, samples, BucketOf(bounds, v)) <= Less(samples, v)
    ensures Less(samples, v + 1) <= Before(bounds, samples, BucketOf(bounds, v) + 1)
    decreases |samples|
  {
    if samples != [] {
      var last := samples[|samples| - 1];
      BucketBrackets(bounds, samples[..|samples| - 1], v);
      if last >= v { BucketsAreOrdered(bounds, v, last); }
      if last <= v { BucketsAreOrdered(bounds, last, v); }
    }
  }

  lemma {:induction false} TallyJoins(bounds: seq<nat>, a: seq<nat>, b: seq<nat>, i: nat)
    ensures Tally(bounds, a + b, i) == Tally(bounds, a, i) + Tally(bounds, b, i)
    decreases |b|
  {
    if b == [] {
      assert a + b == a;
    } else {
      TallyJoins(bounds, a, b[..|b| - 1], i);
      assert (a + b)[..|a + b| - 1] == a + b[..|b| - 1];
    }
  }

  // ---- what the stored, saturated buckets say

  function Sum(stored: seq<nat>): nat {
    if stored == [] then 0 else Sum(stored[..|stored| - 1]) + stored[|stored| - 1]
  }

  ghost predicate Stores(bounds: seq<nat>, samples: seq<nat>, stored: seq<nat>) {
    forall i :: 0 <= i < |stored| ==> stored[i] == Sat(Tally(bounds, samples, i))
  }

  /** A prefix of the stored buckets is exact unless it already exceeds 64 bits. */
  lemma {:induction false} StoredPrefix(bounds: seq<nat>, samples: seq<nat>, stored: seq<nat>)
    requires Stores(bounds, samples, stored)
    ensures Sum(stored) <= Before(bounds, samples, |stored|)
    ensures Sum(stored) == Before(bounds, samples, |stored|) || Sum(stored) >= U64_MAX
    decreases |stored|
  {
    if stored == [] {
      BeforeEnds(bounds, samples, 0);
    } else {
      StoredPrefix(bounds, samples, stored[..|stored| - 1]);
      TallyStep(bounds, samples, |stored| - 1);
    }
  }

  /** Hence the saturating fold over all buckets is the saturated number of samples. */
  lemma StoredCount(bounds: seq<nat>, samples: seq<nat>, stored: seq<nat>)
    requires Stores(bounds, samples, stored) && |stored| > |bounds|
    ensures Sat(Sum(stored)) == Sat(|samples|)
  {
    StoredPrefix(bounds, samples, stored);
    BeforeEnds(bounds, samples, |stored|);
  }

  lemma {:induction false} SumGrows(stored: seq<nat>, i: nat, j: nat)
    requires i <= j <= |stored|
    ensures Sum(stored[..i]) <= Sum(stored[..j])
    decreases j
  {
    if i < j {
      SumGrows(stored, i, j - 1);
      assert stored[..j][..j - 1] == stored[..j - 1];
    }
  }

  function Rank(count: nat, percent: nat): nat { (count * percent + 99) / 100 }

  lemma RankBounds(count: nat, more: nat, percent: nat)
    requires 1 <= percent <= 100 && 0 < count <= more
    ensures 1 <= Rank(count, percent) <= count && Rank(count, percent) <= Rank(more, percent)
  {
    assert percent <= count * percent <= count * 100;
    assert count * percent <= more * percent;
  }

  /** Bucket `i` is where the running sum of the stored buckets first reaches the rank. */
  ghost predicate Reaches(stored: seq<nat>, rank: nat, i: nat) {
    i < |stored| && Sum(stored[..i]) < rank <= Sum(stored[..i + 1])
  }

  lemma FoundAt(bounds: seq<nat>, samples: seq<nat>, stored: seq<nat>, rank: nat, exact: nat, i: nat, v: nat)
    requires Ascending(bounds) && Stores(bounds, samples, stored) && |stored| > |bounds|
    requires rank <= exact && rank <= U64_MAX && Reaches(stored, rank, i) && IsNearestRank(samples, exact, v)
    ensures i <= BucketOf(bounds, v)
    ensures i == BucketOf(bounds, v) <==> Sum(stored[..BucketOf(bounds, v)]) < rank
    ensures rank == exact ==> i == BucketOf(bounds, v)
  {
    var b := BucketOf(bounds, v);
    BucketBrackets(bounds, samples, v);
    StoredPrefix(bounds, samples, stored[..b]);
    StoredPrefix(bounds, samples, stored[..b + 1]);
    if i < b { SumGrows(stored, i + 1, b); }
    if i > b { SumGrows(stored, b + 1, i); }
  }

  /**
    The bucket found is never above that of the true nearest-rank sample, however many samples were
    recorded. It is that bucket exactly when the stored buckets before it have not filled up to the
    rank, which is always so while the samples themselves can be counted in 64 bits.
   */
  lemma FoundBucket(bounds: seq<nat>, samples: seq<nat>, stored: seq<nat>, percent: nat, i: nat, v: nat)
    requires Ascending(bounds) && Stores(bounds, samples, stored) && |stored| > |bounds|
    requires 1 <= percent <= 100 && samples != [] && Reaches(stored, Rank(Sat(|samples|), percent), i)
    requires IsNearestRank(samples, Rank(|samples|, percent), v)
    ensures i <= BucketOf(bounds, v)
    ensures i == BucketOf(bounds, v) <==> Sum(stored[..BucketOf(bounds, v)]) < Rank(Sat(|samples|), percent)
    ensures |samples| <= U64_MAX ==> i == BucketOf(bounds, v)
  {
    RankBounds(Sat(|samples|), |samples|, percent);
    FoundAt(bounds, samples, stored, Rank(Sat(|samples|), percent), Rank(|samples|, percent), i, v);
  }

  /** There is such a sample for every rank that occurs, and only one. */
  lemma {:induction false} NearestRankExists(samples: seq<nat>, rank: nat, above: nat)
    requires 0 < rank <= Less(samples, above)
    ensures exists v: nat :: v < above && IsNearestRank(samples, rank, v)
    decreases above
  {
    if above == 0 {
      NoneBelowZero(samples);
    } else if Less(samples, above - 1) < rank {
      assert IsNearestRank(samples, rank, above - 1);
    } else {
      NearestRankExists(samples, rank, above - 1);
    }
  }

  lemma NoneBelowZero(samples: seq<nat>)
    ensures Less(samples, 0) == 0
  {}

  lemma {:induction false} LessGrows(samples: seq<nat>, v: nat, w: nat)
    requires v <= w
    ensures Less(samples, v) <= Less(samples, w)
    decreases |samples|
  {
    if samples != [] { LessGrows(samples[..|samples| - 1], v, w); }
  }

  lemma NearestRankIsUnique(samples: seq<nat>, rank: nat, v: nat, w: nat)
    requires IsNearestRank(samples, rank, v) && IsNearestRank(samples, rank, w)
    ensures v == w
  {
    if v < w { LessGrows(samples, v + 1, w); }
    if w < v { LessGrows(samples, w + 1, v); }
  }

  function Repeat(ms: nat, n: nat): (r: seq<nat>)
    ensures |r| == n
  {
    if n == 0 then [] else Repeat(ms, n - 1) + [ms]
  }

  lemma {:induction false} RepeatCounts(bounds: seq<nat>, ms: nat, n: nat, i: nat, v: nat)
    ensures Tally(bounds, Repeat(ms, n), i) == if BucketOf(bounds, ms) == i then n else 0
    ensures Less(Repeat(ms, n), v) == if ms < v then n else 0
  {
    if n > 0 { RepeatCounts(bounds, ms, n - 1, i, v); }
  }

  lemma {:induction false} LessJoins(a: seq<nat>, b: seq<nat>, v: nat)
    ensures Less(a + b, v) == Less(a, v) + Less(b, v)
    decreases |b|
  {
    if b == [] {
      assert a + b == a;
    } else {
      LessJoins(a, b[..|b| - 1], v);
      assert (a + b)[..|a + b| - 1] == a + b[..|b| - 1];
    }
  }

  lemma HalvesCount(v: nat)
    requires v in {5, 6}
    ensures Less(Repeat(1, U64_MAX) + Repeat(5, U64_MAX), v) == if v == 5 then U64_MAX else 2 * U64_MAX
  {
    RepeatCounts(NETWORK_BOUNDS, 1, U64_MAX, 0, v);
    RepeatCounts(NETWORK_BOUNDS, 5, U64_MAX, 0, v);
    LessJoins(Repeat(1, U64_MAX), Repeat(5, U64_MAX), v);
  }

  lemma FirstBucketIsFull()
    ensures BucketOf(NETWORK_BOUNDS, 5) == 1
    ensures Tally(NETWORK_BOUNDS, Repeat(1, U64_MAX) + Repeat(5, U64_MAX), 0) == U64_MAX
  {
    BucketIsUnique(NETWORK_BOUNDS, 1, 0);
    BucketIsUnique(NETWORK_BOUNDS, 5, 1);
    RepeatCounts(NETWORK_BOUNDS, 1, U64_MAX, 0, 5);
    RepeatCounts(NETWORK_BOUNDS, 5, U64_MAX, 0, 5);
    TallyJoins(NETWORK_BOUNDS, Repeat(1, U64_MAX), Repeat(5, U64_MAX), 0);
  }

  /** Past 64 bits the answer can be too low: with the first bucket full, the maximum is reported as 1 ms, not 5. */
  lemma SaturationReadsLow(stored: seq<nat>)
    requires |stored| == BUCKETS && Stores(NETWORK_BOUNDS, Repeat(1, U64_MAX) + Repeat(5, U64_MAX), stored)
    ensures var samples := Repeat(1, U64_MAX) + Repeat(5, U64_MAX);
      && IsNearestRank(samples, Rank(|samples|, 100), 5) && BucketOf(NETWORK_BOUNDS, 5) == 1
      && Reaches(stored, Rank(Sat(|samples|), 100), 0)
  {
    HalvesCount(5);
    HalvesCount(6);
    FirstBucketIsFull();
    assert stored[..1][..0] == [] && stored[..1][0] == stored[0];
  }

  /** The answer read off bucket `i`: its bound, or only the last bound when it is the overflow bucket. */
  function Answer(bounds: seq<nat>, i: nat): Quantile
    requires bounds != []
  {
    if i < |bounds| then Quantile(Some(bounds[i]), None) else Quantile(None, Some(bounds[|bounds| - 1]))
  }

  /** The answer encloses `v`: at or below its bound and above the one before, or above the last. */
  ghost predicate Encloses(bounds: seq<nat>, q: Quantile, v: nat) {
    match q
    case Quantile(Some(bound), None) =>
      v <= bound && exists i :: 0 <= i < |bounds| && bounds[i] == bound && (i > 0 ==> bounds[i - 1] < v)
    case Quantile(None, Some(last)) => bounds != [] && last == bounds[|bounds| - 1] && last < v
    case _ => false
  }

  lemma AnswerEncloses(bounds: seq<nat>, v: nat)
    requires bounds != []
    ensures Encloses(bounds, Answer(bounds, BucketOf(bounds, v)), v)
  {}

  lemma MergedStores(bounds: seq<nat>, a: seq<nat>, b: seq<nat>, was: seq<nat>, added: seq<nat>, now: seq<nat>)
    requires |was| == |added| == |now| && Stores(bounds, a, was) && Stores(bounds, b, added)
    requires forall i :: 0 <= i < |now| ==> now[i] == Sat(was[i] + added[i])
    ensures Stores(bounds, a + b, now)
  {
    forall i | 0 <= i < |now| ensures now[i] == Sat(Tally(bounds, a + b, i)) {
      TallyJoins(bounds, a, b, i);
    }
  }

  class Histogram {
    const kind: Buckets
    const buckets: array<nat>
    ghost var samples: seq<nat>

    ghost predicate Valid()
      reads this, buckets
    {
      buckets.Length == BUCKETS && Stores(Bounds(kind), samples, buckets[..])
    }

    constructor (kind: Buckets)
      ensures Valid() && fresh(buckets) && this.kind == kind && samples == []
    {
      this.kind := kind;
      buckets := new nat[BUCKETS](_ => 0);
      samples := [];
    }

    /** Count a sample in the first bucket whose bound is not below it. */
    method Record(ms: nat)
      requires Valid()
      modifies this`samples, buckets
      ensures Valid() && samples == old(samples) + [ms]
    {
      var bounds := Bounds(kind);
      BoundsAscend(kind);
      var i := 0;
      while i < |bounds| && ms > bounds[i]
        invariant i <= |bounds| && forall j :: 0 <= j < i ==> bounds[j] < ms
      {
        i := i + 1;
      }
      BucketIsUnique(bounds, ms, i);
      buckets[i] := Sat(buckets[i] + 1);
      samples := samples + [ms];
      assert samples[..|samples| - 1] == old(samples);
    }

    /** Merging is the same as having recorded both lists of samples. */
    method Merge(other: Histogram)
      requires Valid() && other.Valid() && other.kind == kind && other.buckets != buckets
      modifies this`samples, buckets
      ensures Valid() && samples == old(samples) + other.samples
    {
      ghost var was, added := buckets[..], other.buckets[..];
      for i := 0 to BUCKETS
        invariant forall j :: 0 <= j < i ==> buckets[j] == Sat(was[j] + added[j])
        invariant forall j :: i <= j < BUCKETS ==> buckets[j] == was[j]
        invariant samples == old(samples)
      {
        buckets[i] := Sat(buckets[i] + other.buckets[i]);
      }
      MergedStores(Bounds(kind), samples, other.samples, was, added, buckets[..]);
      samples := samples + other.samples;
    }

    /** The saturating fold is the saturated number of samples. */
    method Count() returns (n: nat)
      requires Valid()
      ensures n == Sat(|samples|)
    {
      n := 0;
      for i := 0 to BUCKETS
        invariant n == Sat(Sum(buckets[..i]))
      {
        assert buckets[..i + 1][..i] == buckets[..i];
        n := Sat(n + buckets[i]);
      }
      assert buckets[..BUCKETS] == buckets[..];
      BoundsAscend(kind);
      StoredCount(Bounds(kind), samples, buckets[..]);
    }

    /**
      No answer exactly when nothing was recorded. Otherwise the scan always ends inside the buckets,
      and the answer encloses the exact nearest-rank sample as long as 64 bits can count the samples.
     */
    method ReadQuantile(percent: nat) returns (q: Quantile)
      requires Valid() && 1 <= percent <= 100
      ensures q == Quantile(None, None) <==> samples == []
      ensures samples != [] ==>
        exists i :: Reaches(buckets[..], Rank(Sat(|samples|), percent), i) && q == Answer(Bounds(kind), i)
      ensures |samples| <= U64_MAX ==>
        forall v :: IsNearestRank(samples, Rank(|samples|, percent), v) ==> Encloses(Bounds(kind), q, v)
    {
      var bounds := Bounds(kind);
      BoundsAscend(kind);
      var count := Count();
      if count == 0 {
        return Quantile(None, None);
      }
      var rank := Rank(count, percent);
      RankBounds(count, count, percent);
      var seen := 0;
      for i := 0 to BUCKETS
        invariant seen == Sum(buckets[..i]) && seen < rank
      {
        assert buckets[..i + 1][..i] == buckets[..i];
        assert buckets[..][..i] == buckets[..i] && buckets[..][..i + 1] == buckets[..i + 1];
        seen := seen + buckets[i];
        if seen >= rank {
          q := Answer(bounds, i);
          forall v | |samples| <= U64_MAX && IsNearestRank(samples, Rank(|samples|, percent), v) ensures Encloses(bounds, q, v) {
            FoundBucket(bounds, samples, buckets[..], percent, i, v);
            AnswerEncloses(bounds, v);
          }
          return;
        }
      }
      assert buckets[..BUCKETS] == buckets[..];
      StoredCount(bounds, samples, buckets[..]);
      assert false;
      q := Quantile(None, None);
    }
  }
}
