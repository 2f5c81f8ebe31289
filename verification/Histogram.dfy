/** Bucketed histograms: internal/custommetrics/histogram.go. Counts are unsigned 64-bit and wrap around. */
module Histogram {
  import opened Common
  import opened Reals

  /** uint64 arithmetic. */
  function Add64(a: nat, b: nat): nat {
    (a + b) % TWO64
  }

  function Sub64(a: nat, b: nat): nat {
    (a - b) % TWO64
  }

  /** bounds are the upper bounds of the buckets; counts are cumulative. */
  datatype Snapshot = Snapshot(bounds: seq<real>, counts: seq<nat>, totalCount: nat, sum: real, min: real, max: real)

  datatype DataPoint = DataPoint(count: nat, sum: real, min: Option<real>, max: Option<real>,
                                 explicitBounds: seq<real>, bucketCounts: seq<nat>)

  /** A snapshot that real observations can produce; a maximum of zero or less means that none is known. */
  ghost predicate WellFormed(s: Snapshot) {
    && |s.counts| <= |s.bounds| + 1
    && (forall i :: 0 <= i < |s.bounds| ==> s.bounds[i] > 0.0)
    && (forall i, j :: 0 <= i < j < |s.bounds| ==> s.bounds[i] < s.bounds[j])
    && (forall i, j :: 0 <= i < j < |s.counts| ==> s.counts[i] <= s.counts[j])
    && (if s.counts == [] then s.totalCount == 0 else s.totalCount == s.counts[|s.counts| - 1])
    && s.totalCount < TWO64
    && (s.max > 0.0 && s.bounds != [] ==> s.max >= s.bounds[|s.bounds| - 1])
  }

  // ---- Quantiles ----

  /** The value the last bucket is taken to end at. */
  function UpperBound(s: Snapshot, i: nat): real {
    if i < |s.bounds| then s.bounds[i]
    else if s.max > 0.0 then s.max
    else if |s.bounds| > 0 then s.bounds[|s.bounds| - 1] * 2.0
    else 1.0
  }

  /** Leading empty buckets do not move the lower end: it stays at zero until a bucket is filled. */
  function LowerBound(s: Snapshot, i: nat): real
    requires i < |s.counts| && i <= |s.bounds|
  {
    if i == 0 || s.counts[i - 1] == 0 then 0.0 else s.bounds[i - 1]
  }

  function CountBefore(s: Snapshot, i: nat): nat
    requires i < |s.counts|
  {
    if i == 0 then 0 else s.counts[i - 1]
  }

  /** Bucket i is the first filled one whose cumulative count reaches the rank. */
  ghost predicate IsBucketOf(s: Snapshot, rank: real, i: nat) {
    && i < |s.counts| && s.counts[i] > 0 && s.counts[i] as real >= rank
    && forall j :: 0 <= j < i ==> s.counts[j] == 0 || (s.counts[j] as real) < rank
  }

  /** The point x/n of the way from lo to hi. */
  function Blend(lo: real, hi: real, x: real, n: real): real
    requires n != 0.0
  {
    lo + x / n * (hi - lo)
  }

  lemma BlendInside(lo: real, hi: real, x: real, n: real)
    requires lo <= hi && 0.0 <= x <= n && n > 0.0
    ensures lo <= Blend(lo, hi, x, n) <= hi
  {
    DivideBack(x, n);
    Cancel(0.0, x / n, n);
    Cancel(x / n, 1.0, n);
    assert (1.0 - x / n) * (hi - lo) >= 0.0;
  }

  lemma BlendGrows(lo: real, hi: real, x1: real, x2: real, n: real)
    requires lo <= hi && x1 <= x2 && n > 0.0
    ensures Blend(lo, hi, x1, n) <= Blend(lo, hi, x2, n)
  {
    DivideBack(x1, n);
    DivideBack(x2, n);
    Cancel(x1 / n, x2 / n, n);
    assert (x2 / n - x1 / n) * (hi - lo) >= 0.0;
  }

  /** Linear interpolation inside bucket i. */
  function Interpolate(s: Snapshot, i: nat, rank: real): real
    requires i < |s.counts| && i <= |s.bounds| && CountBefore(s, i) < s.counts[i]
  {
    Blend(LowerBound(s, i), UpperBound(s, i),
          rank - CountBefore(s, i) as real, (s.counts[i] - CountBefore(s, i)) as real)
  }

  function Clamp(q: real): (r: real)
    ensures 0.0 <= r <= 1.0 && (0.0 <= q <= 1.0 ==> r == q) && (q < 0.0 ==> r == 0.0) && (q > 1.0 ==> r == 1.0)
  {
    if q < 0.0 then 0.0 else if q > 1.0 then 1.0 else q
  }

  function Rank(s: Snapshot, q: real): real {
    Clamp(q) * s.totalCount as real
  }

  /** r is the interpolation at the rank in bucket i, the first to reach it. */
  ghost predicate IsValueAt(s: Snapshot, rank: real, i: nat, r: real) {
    i <= |s.bounds| && IsBucketOf(s, rank, i) && CountBefore(s, i) < s.counts[i] && r == Interpolate(s, i, rank)
  }

  /** What the quantile of a well-formed snapshot is. */
  ghost predicate IsQuantile(s: Snapshot, q: real, r: real) {
    if s.totalCount == 0 then r == 0.0 else exists i: nat :: IsValueAt(s, Rank(s, q), i, r)
  }

  /** Some bucket reaches every rank, and the first to do so is not empty. */
  lemma {:induction false} FindBucket(s: Snapshot, rank: real, i: nat) returns (k: nat)
    requires WellFormed(s) && 0.0 <= rank && i < |s.counts| && s.counts[i] > 0 && s.counts[i] as real >= rank
    ensures k <= i && k <= |s.bounds| && IsBucketOf(s, rank, k) && CountBefore(s, k) < s.counts[k]
    decreases i
  {
    if i > 0 && s.counts[i - 1] > 0 && s.counts[i - 1] as real >= rank {
      k := FindBucket(s, rank, i - 1);
    } else {
      k := i;
    }
  }

  lemma QuantileExists(s: Snapshot, q: real)
    requires WellFormed(s)
    ensures exists r :: IsQuantile(s, q, r)
  {
    if s.totalCount == 0 {
      assert IsQuantile(s, q, 0.0);
    } else {
      RankBounds(s, q);
      var i := FindBucket(s, Rank(s, q), |s.counts| - 1);
      assert IsValueAt(s, Rank(s, q), i, Interpolate(s, i, Rank(s, q)));
      assert IsQuantile(s, q, Interpolate(s, i, Rank(s, q)));
    }
  }

  /** The quantile of a well-formed snapshot. */
  ghost function QuantileOf(s: Snapshot, q: real): (r: real)
    requires WellFormed(s)
    ensures IsQuantile(s, q, r)
  {
    QuantileExists(s, q);
    var r :| IsQuantile(s, q, r);
    r
  }

  /** The scan has looked at the first i buckets of a well-formed snapshot without reaching the rank. */
  ghost predicate Scanned(s: Snapshot, rank: real, i: nat, prevCount: nat, prevBound: real)
    requires i <= |s.counts|
  {
    && prevCount == (if i == 0 then 0 else s.counts[i - 1])
    && (i < |s.counts| && i <= |s.bounds| ==> prevBound == LowerBound(s, i))
    && forall j :: 0 <= j < i ==> s.counts[j] == 0 || (s.counts[j] as real) < rank
  }

  method Quantile(s: Snapshot, q: real) returns (r: real)
    ensures WellFormed(s) ==> IsQuantile(s, q, r) && r == QuantileOf(s, q)
  {
    r := ScanBuckets(s, q);
    if WellFormed(s) {
      QuantileIsUnique(s, q, r, QuantileOf(s, q));
    }
  }

  method ScanBuckets(s: Snapshot, q: real) returns (r: real)
    ensures WellFormed(s) ==> IsQuantile(s, q, r)
  {
    hide WellFormed, IsValueAt, Scanned, Sub64, Blend, UpperBound;
    var quantile := q;
    if quantile < 0.0 {
      quantile := 0.0;
    }
    if quantile > 1.0 {
      quantile := 1.0;
    }
    if s.totalCount == 0 {
      return 0.0;
    }
    var rank := quantile * s.totalCount as real;
    assert rank == Rank(s, q);
    var prevCount, prevBound := 0, 0.0;
    ScanStarts(s, rank);
    for i := 0 to |s.counts|
      invariant WellFormed(s) ==> Scanned(s, rank, i, prevCount, prevBound)
    {
      var count := s.counts[i];
      if count == 0 {
        ScanSkips(s, rank, i, prevCount, prevBound);
        continue;
      }
      if count as real >= rank {
        var bucketCount := Sub64(count, prevCount);
        if bucketCount == 0 {
          NoEmptyBucket(s, rank, i, prevCount, prevBound);
          prevCount := count;
          if i < |s.bounds| {
            prevBound := s.bounds[i];
          }
          continue;
        }
        r := Blend(prevBound, UpperBound(s, i), rank - prevCount as real, bucketCount as real);
        ScanFinds(s, rank, i, prevCount, prevBound, r);
        return;
      }
      ScanPasses(s, rank, i, prevCount, prevBound);
      prevCount := count;
      if i < |s.bounds| {
        prevBound := s.bounds[i];
      }
    }
    ScanNeverEnds(s, q, prevCount, prevBound);
    if |s.bounds| > 0 {
      return s.bounds[|s.bounds| - 1];
    }
    return s.max;
  }

  lemma ScanStarts(s: Snapshot, rank: real)
    ensures Scanned(s, rank, 0, 0, 0.0)
  {
  }

  lemma ScanSkips(s: Snapshot, rank: real, i: nat, prevCount: nat, prevBound: real)
    requires i < |s.counts| && s.counts[i] == 0
    requires WellFormed(s) ==> Scanned(s, rank, i, prevCount, prevBound)
    ensures WellFormed(s) ==> Scanned(s, rank, i + 1, prevCount, prevBound)
  {
  }

  lemma ScanPasses(s: Snapshot, rank: real, i: nat, prevCount: nat, prevBound: real)
    requires i < |s.counts| && s.counts[i] > 0 && (s.counts[i] as real) < rank
    requires WellFormed(s) ==> Scanned(s, rank, i, prevCount, prevBound)
    ensures WellFormed(s) ==> Scanned(s, rank, i + 1, s.counts[i], if i < |s.bounds| then s.bounds[i] else prevBound)
  {
  }

  lemma ScanFinds(s: Snapshot, rank: real, i: nat, prevCount: nat, prevBound: real, r: real)
    requires i < |s.counts| && s.counts[i] > 0 && s.counts[i] as real >= rank && Sub64(s.counts[i], prevCount) != 0
    requires WellFormed(s) ==> Scanned(s, rank, i, prevCount, prevBound)
    requires r == Blend(prevBound, UpperBound(s, i), rank - prevCount as real, Sub64(s.counts[i], prevCount) as real)
    ensures WellFormed(s) ==> IsValueAt(s, rank, i, r)
  {
    hide Blend, UpperBound;
    if WellFormed(s) {
      InRange64(s, i);
      assert prevCount <= s.counts[i];
      assert Sub64(s.counts[i], prevCount) == s.counts[i] - prevCount;
    }
  }

  lemma InRange64(s: Snapshot, i: nat)
    requires WellFormed(s) && i < |s.counts|
    ensures s.counts[i] < TWO64
  {
  }

  /** In a well-formed snapshot the first bucket to reach the rank is never empty. */
  lemma NoEmptyBucket(s: Snapshot, rank: real, i: nat, prevCount: nat, prevBound: real)
    requires i < |s.counts| && s.counts[i] > 0 && s.counts[i] as real >= rank && Sub64(s.counts[i], prevCount) == 0
    requires WellFormed(s) ==> Scanned(s, rank, i, prevCount, prevBound)
    ensures !WellFormed(s)
  {
  }

  lemma RankBounds(s: Snapshot, q: real)
    ensures 0.0 <= Rank(s, q) <= s.totalCount as real
  {
    var c, n := Clamp(q), s.totalCount as real;
    Fraction(c, n);
    assert Rank(s, q) == c * n;
  }

  /** The last bucket of a well-formed snapshot reaches every rank, so the scan never falls through. */
  lemma ScanNeverEnds(s: Snapshot, q: real, prevCount: nat, prevBound: real)
    requires s.totalCount > 0 && (WellFormed(s) ==> Scanned(s, Rank(s, q), |s.counts|, prevCount, prevBound))
    ensures !WellFormed(s)
  {
    RankBounds(s, q);
  }

  lemma BoundsOrdered(s: Snapshot, i: nat)
    requires WellFormed(s) && i < |s.counts|
    ensures i <= |s.bounds| && 0.0 <= LowerBound(s, i) <= UpperBound(s, i)
  {
  }

  /** Bucket by bucket the interpolated values do not overlap. */
  lemma BucketsOrdered(s: Snapshot, i: nat, j: nat)
    requires WellFormed(s) && i < j < |s.counts| && s.counts[i] > 0
    ensures j <= |s.bounds| && UpperBound(s, i) <= LowerBound(s, j)
  {
  }

  /** The value found in a bucket lies inside it. */
  lemma ValueInBucket(s: Snapshot, rank: real, i: nat, r: real)
    requires WellFormed(s) && IsValueAt(s, rank, i, r) && rank >= 0.0
    ensures LowerBound(s, i) <= r <= UpperBound(s, i)
  {
    hide WellFormed, Blend, LowerBound, UpperBound;
    BoundsOrdered(s, i);
    assert CountBefore(s, i) as real <= rank;
    BlendInside(LowerBound(s, i), UpperBound(s, i),
                rank - CountBefore(s, i) as real, (s.counts[i] - CountBefore(s, i)) as real);
  }

  lemma RankGrows(s: Snapshot, q1: real, q2: real)
    requires q1 <= q2
    ensures Rank(s, q1) <= Rank(s, q2)
  {
    assert (Clamp(q2) - Clamp(q1)) * s.totalCount as real >= 0.0;
  }

  lemma BucketGrows(s: Snapshot, k1: real, k2: real, i: nat, j: nat)
    requires k1 <= k2 && IsBucketOf(s, k1, i) && IsBucketOf(s, k2, j)
    ensures i <= j && (k1 == k2 ==> i == j)
  {
  }

  lemma ValuesOrdered(s: Snapshot, k1: real, k2: real, i: nat, j: nat, r1: real, r2: real)
    requires WellFormed(s) && 0.0 <= k1 <= k2 && IsValueAt(s, k1, i, r1) && IsValueAt(s, k2, j, r2)
    ensures r1 <= r2
  {
    hide WellFormed, Blend, LowerBound, UpperBound, IsBucketOf;
    BucketGrows(s, k1, k2, i, j);
    BucketIsFilled(s, k1, i);
    BucketIsFilled(s, k2, j);
    if i < j {
      BucketsOrdered(s, i, j);
      ValueInBucket(s, k1, i, r1);
      ValueInBucket(s, k2, j, r2);
    } else {
      BoundsOrdered(s, i);
      var before := CountBefore(s, i);
      BlendGrows(LowerBound(s, i), UpperBound(s, i),
                 k1 - before as real, k2 - before as real, (s.counts[i] - before) as real);
    }
  }

  lemma BucketIsFilled(s: Snapshot, rank: real, i: nat)
    requires IsBucketOf(s, rank, i)
    ensures i < |s.counts| && s.counts[i] > 0
  {
  }

  lemma QuantilesOrdered(s: Snapshot, q1: real, q2: real, r1: real, r2: real)
    requires WellFormed(s) && q1 <= q2 && IsQuantile(s, q1, r1) && IsQuantile(s, q2, r2)
    ensures r1 <= r2
  {
    hide WellFormed, IsValueAt, Rank;
    if s.totalCount != 0 {
      RankBounds(s, q1);
      RankGrows(s, q1, q2);
      var i: nat :| IsValueAt(s, Rank(s, q1), i, r1);
      var j: nat :| IsValueAt(s, Rank(s, q2), j, r2);
      ValuesOrdered(s, Rank(s, q1), Rank(s, q2), i, j, r1, r2);
    }
  }

  /** The specification determines the quantile. */
  lemma QuantileIsUnique(s: Snapshot, q: real, r1: real, r2: real)
    requires WellFormed(s) && IsQuantile(s, q, r1) && IsQuantile(s, q, r2)
    ensures r1 == r2
  {
    QuantilesOrdered(s, q, q, r1, r2);
    QuantilesOrdered(s, q, q, r2, r1);
  }

  /** A larger quantile never has a smaller value. */
  lemma QuantileIsMonotone(s: Snapshot, q1: real, q2: real)
    requires WellFormed(s) && q1 <= q2
    ensures QuantileOf(s, q1) <= QuantileOf(s, q2)
  {
    hide WellFormed, IsQuantile, QuantileOf;
    QuantilesOrdered(s, q1, q2, QuantileOf(s, q1), QuantileOf(s, q2));
  }

  /** A quantile lies in the first bucket that reaches the rank, and so between zero and the top bound. */
  lemma QuantileInBucket(s: Snapshot, q: real)
    requires WellFormed(s) && s.totalCount > 0
    ensures forall i: nat :: IsBucketOf(s, Rank(s, q), i) ==>
              i <= |s.bounds| && LowerBound(s, i) <= QuantileOf(s, q) <= UpperBound(s, i)
    ensures 0.0 <= QuantileOf(s, q) <= UpperBound(s, |s.counts| - 1)
  {
    hide WellFormed, Interpolate, Rank, IsBucketOf, LowerBound, UpperBound, QuantileOf;
    RankBounds(s, q);
    var r := QuantileOf(s, q);
    var j: nat :| IsValueAt(s, Rank(s, q), j, r);
    ValueInBucket(s, Rank(s, q), j, r);
    BucketIsFilled(s, Rank(s, q), j);
    BoundsOrdered(s, j);
    forall i: nat | IsBucketOf(s, Rank(s, q), i) ensures i == j {
      BucketGrows(s, Rank(s, q), Rank(s, q), i, j);
    }
    if j < |s.counts| - 1 {
      BucketsOrdered(s, j, |s.counts| - 1);
      BoundsOrdered(s, |s.counts| - 1);
    }
  }

  // ---- Where in its bucket a quantile lies ----

  /** Where bucket i ends: at its bound, and the last one at the maximum, at twice the last bound, or at one. */
  predicate EndsAt(s: Snapshot, i: nat, hi: real) {
    && (i < |s.bounds| ==> hi == s.bounds[i])
    && (i >= |s.bounds| && s.max > 0.0 ==> hi == s.max)
    && (i >= |s.bounds| && s.max <= 0.0 && s.bounds != [] ==> hi == 2.0 * s.bounds[|s.bounds| - 1])
    && (i >= |s.bounds| && s.max <= 0.0 && s.bounds == [] ==> hi == 1.0)
  }

  /** Where interpolation in bucket i starts: at the bound before it, or at zero if nothing was counted before. */
  predicate StartsAt(s: Snapshot, i: nat, lo: real)
    requires i < |s.counts| && i <= |s.bounds|
  {
    if i > 0 && s.counts[i - 1] > 0 then lo == s.bounds[i - 1] else lo == 0.0
  }

  lemma BlendIsShare(lo: real, hi: real, x: real, n: real)
    requires n != 0.0
    ensures (Blend(lo, hi, x, n) - lo) * n == x * (hi - lo)
  {
    var f, w := x / n, hi - lo;
    DivideBack(x, n);
    assert Blend(lo, hi, x, n) - lo == f * w;
    assert (f * w) * n == (f * n) * w;
  }

  /** The quantile divides the width of its bucket as its rank divides the observations in it. */
  lemma QuantileIsShare(s: Snapshot, q: real, rank: real, i: nat, lo: real, hi: real)
    requires WellFormed(s) && s.totalCount > 0 && 0.0 <= q <= 1.0 && rank == q * s.totalCount as real
    requires i <= |s.bounds| && IsBucketOf(s, rank, i) && StartsAt(s, i, lo) && EndsAt(s, i, hi)
    ensures
      var before := if i == 0 then 0 else s.counts[i - 1];
      (QuantileOf(s, q) - lo) * (s.counts[i] - before) as real == (rank - before as real) * (hi - lo)
  {
    hide WellFormed, Blend, IsBucketOf, QuantileOf;
    var r := QuantileOf(s, q);
    RankBounds(s, q);
    var j: nat :| IsValueAt(s, rank, j, r);
    BucketGrows(s, rank, rank, i, j);
    BucketIsFilled(s, rank, i);
    var before := CountBefore(s, i);
    BlendIsShare(lo, hi, rank - before as real, (s.counts[i] - before) as real);
  }

  /** A bucket that is not empty is the first to reach its own count. */
  lemma ReachesOwnCount(s: Snapshot, i: nat)
    requires WellFormed(s) && i < |s.counts| && s.counts[i] > CountBefore(s, i)
    ensures i <= |s.bounds| && s.totalCount >= s.counts[i] && IsBucketOf(s, s.counts[i] as real, i)
  {
  }

  lemma BlendAtEnd(lo: real, hi: real, n: real)
    requires n != 0.0
    ensures Blend(lo, hi, n, n) == hi
  {
    DivideBack(n, n);
    CancelEqual(n / n, 1.0, n);
  }

  lemma ValueAtCount(s: Snapshot, i: nat, r: real)
    requires i <= |s.bounds| && i < |s.counts| && s.counts[i] > CountBefore(s, i)
    requires IsValueAt(s, s.counts[i] as real, i, r)
    ensures EndsAt(s, i, r)
  {
    hide Blend, IsBucketOf, LowerBound;
    var n := (s.counts[i] - CountBefore(s, i)) as real;
    assert s.counts[i] as real - CountBefore(s, i) as real == n;
    BlendAtEnd(LowerBound(s, i), UpperBound(s, i), n);
  }

  lemma RankOfShare(s: Snapshot, count: nat)
    requires 0 < count <= s.totalCount
    ensures Rank(s, count as real / s.totalCount as real) == count as real
  {
    Share(count as real, s.totalCount as real);
  }

  /** So at the share of the observations counted up to a bucket that is not empty, the quantile is where it ends. */
  lemma QuantileAtCount(s: Snapshot, i: nat)
    requires WellFormed(s) && i < |s.counts| && s.counts[i] > if i == 0 then 0 else s.counts[i - 1]
    ensures s.totalCount > 0 && EndsAt(s, i, QuantileOf(s, s.counts[i] as real / s.totalCount as real))
  {
    hide QuantileOf, WellFormed, IsBucketOf, EndsAt, Rank, Interpolate;
    ReachesOwnCount(s, i);
    RankOfShare(s, s.counts[i]);
    var q, rank := s.counts[i] as real / s.totalCount as real, s.counts[i] as real;
    var r := QuantileOf(s, q);
    var j: nat :| IsValueAt(s, Rank(s, q), j, r);
    BucketGrows(s, rank, rank, i, j);
    ValueAtCount(s, i, r);
  }

  // ---- Leading empty buckets ----

  lemma BelowEdgeIff(s: Snapshot, rank: real, i: nat, r: real)
    requires WellFormed(s) && 0 < i && rank >= 0.0 && IsValueAt(s, rank, i, r)
    ensures r < s.bounds[i - 1] <==>
              s.counts[i - 1] == 0 && rank * UpperBound(s, i) < s.bounds[i - 1] * s.counts[i] as real
  {
    hide WellFormed, UpperBound;
    if s.counts[i - 1] == 0 {
      CrossMultiply(rank, s.counts[i] as real, UpperBound(s, i), s.bounds[i - 1]);
    } else {
      ValueInBucket(s, rank, i, r);
    }
  }

  /**
   * Interpolation starts at the lower edge of the bucket the quantile is taken from, except after leading empty
   * buckets, where it starts at zero. So a quantile lies below that edge exactly if only empty buckets precede and the
   * rank is low.
   */
  lemma QuantileBelowEdgeIff(s: Snapshot, q: real, i: nat)
    requires WellFormed(s) && s.totalCount > 0 && 0 < i && IsBucketOf(s, Rank(s, q), i)
    ensures i <= |s.bounds|
    ensures QuantileOf(s, q) < s.bounds[i - 1] <==>
              s.counts[i - 1] == 0 && Rank(s, q) * UpperBound(s, i) < s.bounds[i - 1] * s.counts[i] as real
  {
    hide WellFormed, Interpolate, Rank, IsBucketOf, UpperBound, QuantileOf;
    RankBounds(s, q);
    var r := QuantileOf(s, q);
    var j: nat :| IsValueAt(s, Rank(s, q), j, r);
    BucketGrows(s, Rank(s, q), Rank(s, q), i, j);
    BelowEdgeIff(s, Rank(s, q), i, r);
  }

  ghost predicate BelowEdge(s: Snapshot, q: real, i: nat)
    requires WellFormed(s)
  {
    0 < i <= |s.bounds| && IsBucketOf(s, Rank(s, q), i) && QuantileOf(s, q) < s.bounds[i - 1]
  }

  lemma BelowEdgeHasEmptyFirst(s: Snapshot, q: real, i: nat)
    requires WellFormed(s) && s.totalCount > 0 && BelowEdge(s, q, i)
    ensures s.counts[0] == 0
  {
    hide UpperBound, QuantileOf, Rank;
    QuantileBelowEdgeIff(s, q, i);
    assert s.counts[i - 1] == 0;
  }

  lemma LeastBelowEdge(s: Snapshot) returns (i: nat)
    requires WellFormed(s) && s.totalCount > 0 && s.counts[0] == 0
    ensures BelowEdge(s, 0.0, i)
  {
    hide UpperBound, QuantileOf;
    i := FindBucket(s, 0.0, |s.counts| - 1);
    assert Rank(s, 0.0) == 0.0;
    assert s.counts[i - 1] == 0;
    QuantileBelowEdgeIff(s, 0.0, i);
    PositiveProduct(s.bounds[i - 1], s.counts[i] as real);
  }

  /** Some quantile of a snapshot with observations lies below its bucket exactly if the first bucket is empty. */
  lemma SomeQuantileBelowEdgeIff(s: Snapshot)
    requires WellFormed(s) && s.totalCount > 0
    ensures (exists q, i: nat :: BelowEdge(s, q, i)) <==> s.counts[0] == 0
  {
    hide BelowEdge;
    if q, i: nat :| BelowEdge(s, q, i) {
      BelowEdgeHasEmptyFirst(s, q, i);
    }
    if s.counts[0] == 0 {
      var i := LeastBelowEdge(s);
    }
  }

  /** Four observations between 10 and 20, and a lower quartile of 5. */
  lemma QuartileBelowEveryObservation()
    ensures
      var s := Snapshot([10.0, 20.0], [0, 4, 4], 4, 60.0, 12.0, 0.0);
      WellFormed(s) && BelowEdge(s, 0.25, 1) && QuantileOf(s, 0.25) == 5.0
  {
    var s := Snapshot([10.0, 20.0], [0, 4, 4], 4, 60.0, 12.0, 0.0);
    assert IsBucketOf(s, 1.0, 1);
    assert Interpolate(s, 1, 1.0) == 5.0;
    assert IsValueAt(s, Rank(s, 0.25), 1, 5.0);
    QuantileIsUnique(s, 0.25, 5.0, QuantileOf(s, 0.25));
  }
}
