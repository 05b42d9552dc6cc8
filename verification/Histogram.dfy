/**
 * The latency histogram of services/api/src/lib/metrics.ts: thirteen bounds,
 * fourteen counters, and quantiles interpolated inside one bucket. Values are
 * reals, so the arithmetic is exact; `toFixed(2)` is `Round2`.
 */
module Histogram {

  // ------------------------------------------------------------------ the bounds

  const BOUNDS: nat := 13

  function Bound(i: nat): real
    requires i < BOUNDS
  {
    [1.0, 2.5, 5.0, 10.0, 25.0, 50.0, 100.0, 250.0, 500.0, 1000.0, 2500.0, 5000.0, 10000.0][i]
  }

  lemma BoundsAscend()
    ensures Bound(0) > 0.0
    ensures forall i, j :: 0 <= i < j < BOUNDS ==> Bound(i) < Bound(j)
  {
  }

  /** The bounds are 1, 2.5 and 5 milliseconds and ten times each, up to ten seconds. */
  lemma BoundsByDecade()
    ensures Bound(0) == 1.0 && Bound(1) == 2.5 && Bound(2) == 5.0 && BOUNDS == 13
    ensures forall i :: 0 <= i < 10 ==> Bound(i + 3) == 10.0 * Bound(i)
  {
  }

  /** The bucket of a value: the first bound it does not exceed, or the overflow bucket. */
  function BucketFrom(value: real, i: nat): (b: nat)
    requires i <= BOUNDS
    ensures i <= b <= BOUNDS
    ensures b < BOUNDS ==> value <= Bound(b)
    ensures forall j :: i <= j < b ==> value > Bound(j)
    decreases BOUNDS - i
  {
    if i == BOUNDS || value <= Bound(i) then i else BucketFrom(value, i + 1)
  }

  function BucketOf(value: real): nat {
    BucketFrom(value, 0)
  }

  lemma BucketAtMost(value: real, i: nat)
    requires i < BOUNDS
    ensures BucketOf(value) <= i <==> value <= Bound(i)
  {
    hide Bound;
    BoundsAscend();
  }

  // -------------------------------------------------------------- all observations

  function CountIn(seen: seq<real>, bucket: nat): nat {
    if seen == [] then 0
    else CountIn(seen[..|seen| - 1], bucket) + if BucketOf(seen[|seen| - 1]) == bucket then 1 else 0
  }

  function CountLe(seen: seq<real>, x: real): nat {
    if seen == [] then 0
    else CountLe(seen[..|seen| - 1], x) + if seen[|seen| - 1] <= x then 1 else 0
  }

  function Sum(seen: seq<real>): real {
    if seen == [] then 0.0 else Sum(seen[..|seen| - 1]) + seen[|seen| - 1]
  }

  /** The largest observation, or zero when none is larger. */
  function Largest(seen: seq<real>): (m: real)
    ensures m >= 0.0 && forall i :: 0 <= i < |seen| ==> seen[i] <= m
    ensures m == 0.0 || m in seen
  {
    if seen == [] then 0.0
    else
      var m := Largest(seen[..|seen| - 1]);
      assert seen == seen[..|seen| - 1] + [seen[|seen| - 1]];
      if seen[|seen| - 1] > m then seen[|seen| - 1] else m
  }

  /** The counters that a history of observations leaves. */
  function Counts(seen: seq<real>): (counts: seq<nat>)
    ensures |counts| == BOUNDS + 1
    ensures forall i :: 0 <= i <= BOUNDS ==> counts[i] == CountIn(seen, i)
  {
    seq(BOUNDS + 1, i requires 0 <= i <= BOUNDS => CountIn(seen, i))
  }

  /** The counters of the buckets before `i`, added up. */
  function Cumulative(counts: seq<nat>, i: nat): nat
    requires i <= |counts|
  {
    if i == 0 then 0 else Cumulative(counts, i - 1) + counts[i - 1]
  }

  lemma CountInMore(seen: seq<real>, v: real, i: nat)
    ensures CountIn(seen + [v], i) == CountIn(seen, i) + if BucketOf(v) == i then 1 else 0
  {
    hide BucketOf;
    assert (seen + [v])[..|seen|] == seen;
  }

  lemma {:induction false} CumulativeMore(seen: seq<real>, v: real, i: nat)
    requires i <= BOUNDS + 1
    ensures Cumulative(Counts(seen + [v]), i) == Cumulative(Counts(seen), i) + if BucketOf(v) < i then 1 else 0
  {
    if i == 0 {
    } else {
      hide BucketOf, CountIn, Counts;
      CumulativeMore(seen, v, i - 1);
      CountInMore(seen, v, i - 1);
    }
  }

  lemma {:induction false} CumulativeNone(i: nat)
    requires i <= BOUNDS + 1
    ensures Cumulative(Counts([]), i) == 0
  {
    if i == 0 {
    } else {
      CumulativeNone(i - 1);
    }
  }

  /** The counters up to a bound count exactly the observations not above it. */
  lemma {:induction false} CumulativeIsCount(seen: seq<real>, i: nat)
    requires i <= BOUNDS
    ensures Cumulative(Counts(seen), i + 1) == if i < BOUNDS then CountLe(seen, Bound(i)) else |seen|
  {
    hide Bound, BucketOf, Counts, Cumulative;
    if seen == [] {
      CumulativeNone(i + 1);
    } else {
      var (before, v) := (seen[..|seen| - 1], seen[|seen| - 1]);
      assert before + [v] == seen;
      CumulativeIsCount(before, i);
      CumulativeMore(before, v, i + 1);
      if i < BOUNDS { BucketAtMost(v, i); } else { BucketTop(v); }
    }
  }

  lemma BucketTop(v: real)
    ensures BucketOf(v) <= BOUNDS
  {
  }

  lemma {:induction false} CumulativeMonotone(counts: seq<nat>, i: nat, j: nat)
    requires i <= j <= |counts|
    ensures Cumulative(counts, i) <= Cumulative(counts, j)
  {
    if i < j { CumulativeMonotone(counts, i, j - 1); }
  }

  // --------------------------------------------------------------------- quantiles

  /** `Number(x.toFixed(2))`: the nearest hundredth, ties upwards. */
  function Round2(x: real): real {
    (x * 100.0 + 0.5).Floor as real / 100.0
  }

  lemma Round2Monotone(x: real, y: real)
    requires x <= y
    ensures Round2(x) <= Round2(y)
  {
    assert (x * 100.0 + 0.5).Floor <= (y * 100.0 + 0.5).Floor;
  }

  /** The first bucket whose cumulative count reaches the target. */
  function Locate(counts: seq<nat>, target: real, i: nat): (b: nat)
    requires i <= |counts|
    ensures i <= b <= |counts|
    ensures b < |counts| ==> Cumulative(counts, b + 1) as real >= target
    ensures forall j :: i < j <= b ==> (Cumulative(counts, j) as real) < target
    decreases |counts| - i
  {
    if i == |counts| || Cumulative(counts, i + 1) as real >= target then i else Locate(counts, target, i + 1)
  }

  function LowerOf(bucket: nat): real
    requires bucket <= BOUNDS
  {
    if bucket == 0 then 0.0 else Bound(bucket - 1)
  }

  /** `this.maximum || lower` in the overflow bucket. */
  function UpperOf(bucket: nat, maximum: real): real
    requires bucket <= BOUNDS
  {
    if bucket < BOUNDS then Bound(bucket) else if maximum != 0.0 then maximum else LowerOf(bucket)
  }

  function Interpolate(lower: real, upper: real, within: nat, count: nat, target: real): real
    requires count > 0
  {
    lower + (upper - lower) * ((target - within as real) / count as real)
  }

  /** The rank a quantile asks for. */
  function Target(q: real, total: nat): real {
    q * total as real
  }

  /** Linear interpolation inside the bucket, before rounding. */
  function Interpolated(counts: seq<nat>, maximum: real, target: real, bucket: nat): real
    requires bucket <= BOUNDS && |counts| == BOUNDS + 1 && counts[bucket] > 0
  {
    Interpolate(LowerOf(bucket), UpperOf(bucket, maximum), Cumulative(counts, bucket), counts[bucket], target)
  }

  function Quantile(counts: seq<nat>, total: nat, maximum: real, q: real): real
    requires |counts| == BOUNDS + 1
  {
    if total == 0 then 0.0
    else
      var target := Target(q, total);
      var bucket := Locate(counts, target, 0);
      if bucket == |counts| then maximum
      else if counts[bucket] == 0 then UpperOf(bucket, maximum)
      else Round2(Interpolated(counts, maximum, target, bucket))
  }

  /** `findIndex`, with the overflow bucket for "not found". */
  method FindBucket(value: real) returns (index: nat)
    ensures index == BucketOf(value)
  {
    hide Bound;
    index := 0;
    while index < BOUNDS && value > Bound(index)
      invariant index <= BOUNDS
      invariant BucketFrom(value, index) == BucketOf(value)
    {
      index := index + 1;
    }
  }

  lemma CountsMore(seen: seq<real>, v: real)
    ensures BucketOf(v) <= BOUNDS
    ensures Counts(seen + [v]) == Counts(seen)[BucketOf(v) := CountIn(seen, BucketOf(v)) + 1]
    ensures Sum(seen + [v]) == Sum(seen) + v
    ensures Largest(seen + [v]) == if v > Largest(seen) then v else Largest(seen)
  {
    hide Counts, BucketOf, Largest, CountIn;
    BucketTop(v);
    assert (seen + [v])[..|seen|] == seen;
    LargestMore(seen, v);
    forall i | 0 <= i <= BOUNDS
      ensures Counts(seen + [v])[i] == Counts(seen)[i] + if BucketOf(v) == i then 1 else 0
    {
      CountInMore(seen, v, i);
    }
  }

  lemma LargestMore(seen: seq<real>, v: real)
    ensures Largest(seen + [v]) == if v > Largest(seen) then v else Largest(seen)
  {
    assert (seen + [v])[..|seen|] == seen;
  }

  // ------------------------------------------------------------------- the class

  datatype Snapshot = Snapshot(count: nat, sum: real, buckets: seq<nat>, p50: real, p95: real, p99: real, max: real)

  class Histogram {
    const counts: array<nat>
    var sum: real
    var total: nat
    var maximum: real
    ghost var seen: seq<real>

    /** The four fields are what the observations since the last reset amount to. */
    ghost predicate Valid()
      reads this, counts
    {
      && counts[..] == Counts(seen)
      && sum == Sum(seen)
      && total == |seen|
      && maximum == Largest(seen)
    }

    constructor ()
      ensures Valid() && seen == [] && fresh(counts)
    {
      counts := new nat[BOUNDS + 1](_ => 0);
      sum, total, maximum, seen := 0.0, 0, 0.0, [];
    }

    method Observe(valueMs: real)
      requires Valid()
      modifies this, counts
      ensures Valid() && seen == old(seen) + [valueMs]
    {
      hide CountIn, Sum, Largest;
      var index := FindBucket(valueMs);
      CountsMore(seen, valueMs);
      sum := sum + valueMs;
      total := total + 1;
      if valueMs > maximum {
        maximum := valueMs;
      }
      counts[index] := counts[index] + 1;
      seen := seen + [valueMs];
    }

    method QuantileAt(q: real) returns (value: real)
      requires Valid()
      ensures value == Quantile(counts[..], total, maximum, q)
    {
      hide Bound, Round2, Interpolate, Target;
      if total == 0 {
        return 0.0;
      }
      var target := Target(q, total);
      var cumulative := 0;
      ghost var all := counts[..];
      for i := 0 to counts.Length
        invariant cumulative == Cumulative(all, i)
        invariant Locate(all, target, 0) == Locate(all, target, i)
      {
        var bucketCount := counts[i];
        assert bucketCount == all[i];
        if (cumulative + bucketCount) as real >= target {
          var lower := if i == 0 then 0.0 else Bound(i - 1);
          var upper := if i == BOUNDS then (if maximum != 0.0 then maximum else lower) else Bound(i);
          if bucketCount == 0 {
            return upper;
          }
          return Round2(Interpolate(lower, upper, cumulative, bucketCount, target));
        }
        cumulative := cumulative + bucketCount;
      }
      value := maximum;
    }

    /** Every bucket of a snapshot counts the observations not above its bound. */
    method TakeSnapshot() returns (s: Snapshot)
      requires Valid()
      ensures s.count == |seen| && s.sum == Round2(Sum(seen)) && s.max == Round2(Largest(seen))
      ensures |s.buckets| == BOUNDS + 1 && s.buckets[BOUNDS] == |seen|
      ensures forall i :: 0 <= i < BOUNDS ==> s.buckets[i] == CountLe(seen, Bound(i))
      ensures s.p50 == Quantile(Counts(seen), |seen|, Largest(seen), 0.5)
      ensures s.p95 == Quantile(Counts(seen), |seen|, Largest(seen), 0.95)
      ensures s.p99 == Quantile(Counts(seen), |seen|, Largest(seen), 0.99)
    {
      hide Bound, Quantile, Round2, CountIn, CountLe;
      var cumulative := 0;
      var buckets: seq<nat> := [];
      ghost var all := counts[..];
      for i := 0 to BOUNDS
        invariant |buckets| == i && cumulative == Cumulative(all, i)
        invariant forall j :: 0 <= j < i ==> buckets[j] == CountLe(seen, Bound(j))
      {
        assert counts[i] == all[i];
        cumulative := cumulative + counts[i];
        CumulativeIsCount(seen, i);
        buckets := buckets + [cumulative];
      }
      buckets := buckets + [total];
      var p50 := QuantileAt(0.5);
      var p95 := QuantileAt(0.95);
      var p99 := QuantileAt(0.99);
      s := Snapshot(total, Round2(sum), buckets, p50, p95, p99, Round2(maximum));
    }

    method Reset()
      requires Valid()
      modifies this, counts
      ensures Valid() && seen == []
    {
      for i := 0 to counts.Length
        invariant forall j :: 0 <= j < i ==> counts[j] == 0
      {
        counts[i] := 0;
      }
      sum, total, maximum, seen := 0.0, 0, 0.0, [];
    }
  }

  // ------------------------------------------------- what the quantiles stand for

  ghost predicate Sorted(s: seq<real>) {
    forall i, j :: 0 <= i < j < |s| ==> s[i] <= s[j]
  }

  /** The smallest integer not below `x`. */
  function Ceil(x: real): int {
    -((-x).Floor)
  }

  lemma {:induction false} CountConcat(a: seq<real>, b: seq<real>, x: real)
    ensures CountLe(a + b, x) == CountLe(a, x) + CountLe(b, x)
  {
    if b == [] {
      assert a + b == a;
    } else {
      assert (a + b)[..|a + b| - 1] == a + b[..|b| - 1];
      CountConcat(a, b[..|b| - 1], x);
    }
  }

  lemma CancelOne(a: multiset<real>, b: multiset<real>, x: real)
    requires a + multiset{x} == b + multiset{x}
    ensures a == b
  {
    assert a == a + multiset{x} - multiset{x};
    assert b == b + multiset{x} - multiset{x};
  }

  /** Rearranging observations changes no count. */
  lemma {:induction false} CountPermuted(s: seq<real>, t: seq<real>, x: real)
    requires multiset(s) == multiset(t)
    ensures CountLe(s, x) == CountLe(t, x)
    decreases |s|
  {
    if s == [] {
      assert |multiset(t)| == 0;
    } else {
      var (before, last) := (s[..|s| - 1], s[|s| - 1]);
      assert s == before + [last];
      assert last in multiset(t);
      var j :| 0 <= j < |t| && t[j] == last;
      var (left, right) := (t[..j], t[j + 1..]);
      assert t == left + [last] + right;
      assert multiset(s) == multiset(before) + multiset{last};
      assert multiset(t) == multiset(left + right) + multiset{last};
      CancelOne(multiset(before), multiset(left + right), last);
      CountPermuted(before, left + right, x);
      CountConcat(left, right, x);
      CountConcat(left + [last], right, x);
      CountConcat(left, [last], x);
      CountConcat(before, [last], x);
    }
  }

  /** In sorted order the k-th value is at most `x` exactly when k values are. */
  lemma {:induction false} SortedRank(s: seq<real>, x: real, k: nat)
    requires Sorted(s) && 1 <= k <= |s|
    ensures s[k - 1] <= x <==> CountLe(s, x) >= k
    decreases |s|
  {
    CountAtMost(s, x);
    if k < |s| {
      SortedRank(s[..|s| - 1], x, k);
    } else if s[k - 1] <= x {
      CountAll(s, x);
    } else {
      CountAtMost(s[..k - 1], x);
    }
  }

  lemma {:induction false} CountAtMost(s: seq<real>, x: real)
    ensures CountLe(s, x) <= |s|
  {
    if s == [] {
    } else {
      CountAtMost(s[..|s| - 1], x);
    }
  }

  lemma {:induction false} CountAll(s: seq<real>, x: real)
    requires forall i :: 0 <= i < |s| ==> s[i] <= x
    ensures CountLe(s, x) == |s|
  {
    if s == [] {
    } else {
      CountAll(s[..|s| - 1], x);
    }
  }

  lemma Reaches(count: int, x: real)
    ensures count as real >= x <==> count >= Ceil(x)
  {
  }

  /** For 0 < q <= 1 the rank is one of the observations' ranks. */
  lemma RankInRange(q: real, n: nat)
    requires 0.0 < q <= 1.0 && n > 0
    ensures 0.0 < Target(q, n) <= n as real
    ensures 1 <= Ceil(Target(q, n)) <= n
  {
    var N := n as real;
    assert q * N > 0.0;
    assert (1.0 - q) * N >= 0.0;
    assert (1.0 - q) * N == N - q * N;
    Reaches(n, q * N);
    Reaches(0, q * N);
  }

  /** The loop of `quantile` stops at a bucket that exists and is not empty. */
  lemma LocatedNonEmpty(seen: seq<real>, q: real)
    requires seen != [] && 0.0 < q <= 1.0
    ensures var (counts, target) := (Counts(seen), Target(q, |seen|)); var b := Locate(counts, target, 0);
      && b <= BOUNDS && counts[b] > 0
      && (Cumulative(counts, b) as real) < target <= (Cumulative(counts, b) + counts[b]) as real
  {
    hide Bound, CountIn, Target, Ceil;
    var (counts, target) := (Counts(seen), Target(q, |seen|));
    var b := Locate(counts, target, 0);
    RankInRange(q, |seen|);
    CumulativeIsCount(seen, BOUNDS);
    assert b <= BOUNDS;
    assert Cumulative(counts, b + 1) == Cumulative(counts, b) + counts[b];
  }

  /** That bucket holds the ceil(q*n)-th smallest of the observations. */
  lemma LocatedBucket(seen: seq<real>, sorted: seq<real>, q: real)
    requires seen != [] && 0.0 < q <= 1.0
    requires Sorted(sorted) && multiset(sorted) == multiset(seen)
    ensures var target := Target(q, |seen|);
      && |sorted| == |seen| && 1 <= Ceil(target) <= |seen|
      && BucketOf(sorted[Ceil(target) - 1]) == Locate(Counts(seen), target, 0)
  {
    hide Bound, BucketOf, CountIn, CountLe, Target, Ceil;
    var (counts, target) := (Counts(seen), Target(q, |seen|));
    var (b, k) := (Locate(counts, target, 0), Ceil(target));
    assert |sorted| == |multiset(sorted)| == |multiset(seen)| == |seen|;
    RankInRange(q, |seen|);
    LocatedNonEmpty(seen, q);
    var v := sorted[k - 1];
    Reaches(Cumulative(counts, b + 1), target);
    Reaches(Cumulative(counts, b), target);
    BucketTop(v);
    assert Cumulative(counts, b + 1) == Cumulative(counts, b) + counts[b];
    if b < BOUNDS {
      CumulativeIsCount(seen, b);
      CountPermuted(sorted, seen, Bound(b));
      SortedRank(sorted, Bound(b), k);
      BucketAtMost(v, b);
    }
    if b > 0 {
      CumulativeIsCount(seen, b - 1);
      CountPermuted(sorted, seen, Bound(b - 1));
      SortedRank(sorted, Bound(b - 1), k);
      BucketAtMost(v, b - 1);
    }
  }

  /** Interpolation by a share in (0, 1] stays in (lower, upper]. */
  lemma InterpolateRange(lower: real, upper: real, within: nat, count: nat, target: real)
    requires lower < upper && count > 0
    requires (within as real) < target <= (within + count) as real
    ensures lower < Interpolate(lower, upper, within, count, target) <= upper
  {
    var share := (target - within as real) / count as real;
    ShareInRange(target - within as real, count as real);
    GapTimesShare(upper - lower, share);
  }

  lemma ShareInRange(part: real, whole: real)
    requires 0.0 < part <= whole
    ensures 0.0 < part / whole <= 1.0
  {
    var share := part / whole;
    assert share * whole == part;
    assert (1.0 - share) * whole == whole - part;
  }

  lemma GapTimesShare(gap: real, share: real)
    requires gap > 0.0 && 0.0 < share <= 1.0
    ensures 0.0 < gap * share <= gap
  {
    assert gap * (1.0 - share) >= 0.0;
    assert gap * (1.0 - share) == gap - gap * share;
  }

  lemma OverflowIsLarge(seen: seq<real>)
    requires CountIn(seen, BOUNDS) > 0
    ensures Largest(seen) > Bound(BOUNDS - 1)
  {
    hide Bound, Largest;
    var i := SomeIn(seen, BOUNDS);
    BucketAtMost(seen[i], BOUNDS - 1);
  }

  lemma {:induction false} SomeIn(seen: seq<real>, bucket: nat) returns (i: nat)
    requires CountIn(seen, bucket) > 0
    ensures i < |seen| && BucketOf(seen[i]) == bucket
  {
    i := |seen| - 1;
    if BucketOf(seen[i]) != bucket {
      i := SomeIn(seen[..i], bucket);
    }
  }

  lemma BucketEdges(seen: seq<real>, b: nat)
    requires b <= BOUNDS && CountIn(seen, b) > 0
    ensures LowerOf(b) < UpperOf(b, Largest(seen))
  {
    hide Bound, CountIn, Largest;
    BoundsAscend();
    if b == BOUNDS { OverflowIsLarge(seen); }
  }

  lemma BetweenEdges(seen: seq<real>, b: nat, x: real)
    requires b <= BOUNDS && LowerOf(b) < x <= UpperOf(b, Largest(seen))
    ensures BucketOf(x) == b
  {
    hide Bound, BucketOf;
    BucketTop(x);
    BoundsAscend();
    if b < BOUNDS { BucketAtMost(x, b); }
    if b > 0 { BucketAtMost(x, b - 1); }
  }

  /**
   * A quantile, before rounding, lies in the same bucket as the exact one: the
   * ceil(q*n)-th smallest of all observations, whatever they were.
   */
  lemma QuantileBucket(seen: seq<real>, sorted: seq<real>, q: real)
    requires seen != [] && 0.0 < q <= 1.0
    requires Sorted(sorted) && multiset(sorted) == multiset(seen)
    ensures var (counts, target) := (Counts(seen), Target(q, |seen|));
      var b := Locate(counts, target, 0);
      && b <= BOUNDS && counts[b] > 0
      && Quantile(counts, |seen|, Largest(seen), q) == Round2(Interpolated(counts, Largest(seen), target, b))
      && |sorted| == |seen| && 1 <= Ceil(target) <= |seen|
      && BucketOf(Interpolated(counts, Largest(seen), target, b)) == BucketOf(sorted[Ceil(target) - 1])
  {
    hide Bound, BucketOf, CountIn, Round2, Interpolate, LowerOf, UpperOf, Target, Ceil, Largest;
    LocatedNonEmpty(seen, q);
    LocatedBucket(seen, sorted, q);
    var (counts, target) := (Counts(seen), Target(q, |seen|));
    var b := Locate(counts, target, 0);
    BucketEdges(seen, b);
    InterpolateRange(LowerOf(b), UpperOf(b, Largest(seen)), Cumulative(counts, b), counts[b], target);
    BetweenEdges(seen, b, Interpolated(counts, Largest(seen), target, b));
  }

  lemma InterpolateMonotone(lower: real, upper: real, within: nat, count: nat, x: real, y: real)
    requires lower < upper && count > 0 && x <= y
    ensures Interpolate(lower, upper, within, count, x) <= Interpolate(lower, upper, within, count, y)
  {
    var (a, b) := ((x - within as real) / count as real, (y - within as real) / count as real);
    assert b - a == (y - x) / count as real;
    assert b - a >= 0.0;
    assert (upper - lower) * (b - a) >= 0.0;
    assert (upper - lower) * (b - a) == (upper - lower) * b - (upper - lower) * a;
  }

  lemma LocateMonotone(counts: seq<nat>, x: real, y: real)
    requires x <= y
    ensures Locate(counts, x, 0) <= Locate(counts, y, 0)
  {
  }

  lemma TargetMonotone(p: real, q: real, n: nat)
    requires p <= q
    ensures Target(p, n) <= Target(q, n)
  {
    assert (q - p) * n as real >= 0.0;
    assert (q - p) * n as real == q * n as real - p * n as real;
  }

  /** A target inside its bucket's share of the observations. */
  ghost predicate TargetIn(counts: seq<nat>, x: real, b: nat) {
    && |counts| == BOUNDS + 1 && b <= BOUNDS && counts[b] > 0
    && Cumulative(counts, b) as real < x <= (Cumulative(counts, b) + counts[b]) as real
  }

  lemma InterpolatedOrder(seen: seq<real>, x: real, y: real, b: nat, c: nat)
    requires TargetIn(Counts(seen), x, b) && TargetIn(Counts(seen), y, c) && x <= y && b <= c
    ensures Interpolated(Counts(seen), Largest(seen), x, b) <= Interpolated(Counts(seen), Largest(seen), y, c)
  {
    hide Bound, CountIn, Interpolate, Largest, Cumulative;
    var (counts, m) := (Counts(seen), Largest(seen));
    BucketEdges(seen, b);
    BucketEdges(seen, c);
    InterpolateRange(LowerOf(b), UpperOf(b, m), Cumulative(counts, b), counts[b], x);
    InterpolateRange(LowerOf(c), UpperOf(c, m), Cumulative(counts, c), counts[c], y);
    if b == c {
      InterpolateMonotone(LowerOf(b), UpperOf(b, m), Cumulative(counts, b), counts[b], x, y);
    } else {
      BoundsAscend();
      assert UpperOf(b, m) <= LowerOf(c);
    }
  }

  /** Larger quantiles are never smaller: p50 <= p95 <= p99 in every snapshot. */
  lemma QuantilesOrdered(seen: seq<real>, p: real, q: real)
    requires 0.0 < p <= q <= 1.0
    ensures Quantile(Counts(seen), |seen|, Largest(seen), p) <= Quantile(Counts(seen), |seen|, Largest(seen), q)
  {
    hide Bound, CountIn, Round2, Interpolate, Interpolated, Target, Largest, Counts, Cumulative;
    if seen != [] {
      var (counts, m) := (Counts(seen), Largest(seen));
      var (x, y) := (Target(p, |seen|), Target(q, |seen|));
      var (b, c) := (Locate(counts, x, 0), Locate(counts, y, 0));
      TargetMonotone(p, q, |seen|);
      LocateMonotone(counts, x, y);
      LocatedNonEmpty(seen, p);
      LocatedNonEmpty(seen, q);
      InterpolatedOrder(seen, x, y, b, c);
      Round2Monotone(Interpolated(counts, m, x, b), Interpolated(counts, m, y, c));
    }
  }

  // ------------------------------------------------------- what a quantile returns

  /** How many observations lie in the buckets before `b`, and up to its end. */
  function Before(seen: seq<real>, b: nat): nat
    requires b <= BOUNDS
  {
    if b == 0 then 0 else CountLe(seen, Bound(b - 1))
  }

  function UpTo(seen: seq<real>, b: nat): nat
    requires b <= BOUNDS
  {
    if b < BOUNDS then CountLe(seen, Bound(b)) else |seen|
  }

  /** The point of the bucket that lies as far along it as the rank `q * n` lies among its observations. */
  ghost predicate LiesAt(seen: seq<real>, q: real, b: nat, x: real) {
    && b <= BOUNDS
    && var (lower, upper) := (if b == 0 then 0.0 else Bound(b - 1), if b < BOUNDS then Bound(b) else Largest(seen));
    && var (before, upTo) := (Before(seen, b), UpTo(seen, b));
    && (before as real) < q * |seen| as real <= upTo as real
    && upTo > before && AsFarAlong(lower, upper, before, upTo - before, q * |seen| as real, x)
  }

  /** `x` divides the edges as the target divides the counts. */
  predicate AsFarAlong(lower: real, upper: real, before: nat, count: nat, target: real, x: real) {
    (x - lower) * count as real == (upper - lower) * (target - before as real)
  }

  lemma CumulativeIsBefore(seen: seq<real>, b: nat)
    requires b <= BOUNDS
    ensures Cumulative(Counts(seen), b) == Before(seen, b)
    ensures Cumulative(Counts(seen), b) + Counts(seen)[b] == UpTo(seen, b)
  {
    hide Bound, CountLe, Counts;
    CumulativeIsCount(seen, b);
    if b > 0 { CumulativeIsCount(seen, b - 1); }
    assert Cumulative(Counts(seen), b + 1) == Cumulative(Counts(seen), b) + Counts(seen)[b];
  }

  lemma InterpolateSolves(lower: real, upper: real, within: nat, count: nat, target: real)
    requires count > 0
    ensures AsFarAlong(lower, upper, within, count, target, Interpolate(lower, upper, within, count, target))
  {
    var (gap, part, whole) := (upper - lower, target - within as real, count as real);
    assert part / whole * whole == part;
    assert gap * (part / whole) * whole == gap * (part / whole * whole);
  }

  /** The nearest hundredth. */
  lemma Round2Near(x: real)
    ensures -0.005 <= Round2(x) - x <= 0.005
    ensures (Round2(x) * 100.0).Floor as real == Round2(x) * 100.0
  {
  }

  lemma UpperAtEnd(seen: seq<real>)
    requires CountIn(seen, BOUNDS) > 0
    ensures UpperOf(BOUNDS, Largest(seen)) == Largest(seen)
  {
    hide Bound, CountIn, Largest;
    BoundsAscend();
    OverflowIsLarge(seen);
  }

  lemma InterpolatedLies(seen: seq<real>, q: real, b: nat)
    requires TargetIn(Counts(seen), Target(q, |seen|), b)
    ensures LiesAt(seen, q, b, Interpolated(Counts(seen), Largest(seen), Target(q, |seen|), b))
  {
    hide Bound, CountIn, CountLe, Interpolate, Largest, Cumulative, Before, UpTo, AsFarAlong;
    CumulativeIsBefore(seen, b);
    if b == BOUNDS { UpperAtEnd(seen); }
    var (counts, upper) := (Counts(seen), UpperOf(b, Largest(seen)));
    InterpolateSolves(LowerOf(b), upper, Cumulative(counts, b), counts[b], Target(q, |seen|));
  }

  /**
   * A quantile really interpolates: it is the nearest hundredth to the point of
   * its bucket that lies as far along as the rank among the bucket's
   * observations.
   */
  lemma QuantileInterpolates(seen: seq<real>, q: real) returns (b: nat, x: real)
    requires seen != [] && 0.0 < q <= 1.0
    ensures LiesAt(seen, q, b, x)
    ensures Quantile(Counts(seen), |seen|, Largest(seen), q) == Round2(x)
    ensures -0.005 <= Quantile(Counts(seen), |seen|, Largest(seen), q) - x <= 0.005
  {
    hide Bound, CountIn, CountLe, Round2, Interpolated, Largest, Counts, Cumulative, Target, LiesAt;
    var (counts, target) := (Counts(seen), Target(q, |seen|));
    b := Locate(counts, target, 0);
    LocatedNonEmpty(seen, q);
    x := Interpolated(counts, Largest(seen), target, b);
    InterpolatedLies(seen, q, b);
    Round2Near(x);
  }
}
