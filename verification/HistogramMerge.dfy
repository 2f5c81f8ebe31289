/** Merging and aggregating histograms: internal/custommetrics/histogram.go. */
module HistogramMerge {
  import opened Common
  import opened Histogram

  function Min(a: real, b: real): real {
    if b < a then b else a
  }

  function Max(a: real, b: real): real {
    if b > a then b else a
  }

  function AddCounts(a: seq<nat>, b: seq<nat>): seq<nat> {
    seq(|a|, i requires 0 <= i < |a| => if i < |b| then Add64(a[i], b[i]) else a[i])
  }

  /** The snapshot left in the receiver of a merge. */
  function Merged(s: Snapshot, o: Snapshot): Snapshot {
    if o.totalCount == 0 then s
    else if s.totalCount == 0 then o
    else Snapshot(s.bounds, AddCounts(s.counts, o.counts), Add64(s.totalCount, o.totalCount), s.sum + o.sum,
                  Min(s.min, o.min), Max(s.max, o.max))
  }

  function ToSnapshot(p: DataPoint): Snapshot {
    Snapshot(p.explicitBounds, p.bucketCounts, p.count, p.sum,
             if p.min.Some? then p.min.value else 0.0, if p.max.Some? then p.max.value else 0.0)
  }

  /** A snapshot object, changed in place by a merge. */
  class HistogramSnapshot {
    var bounds: seq<real>
    var counts: seq<nat>
    var totalCount: nat
    var sum: real
    var min: real
    var max: real

    ghost function View(): Snapshot
      reads this
    {
      Snapshot(bounds, counts, totalCount, sum, min, max)
    }

    constructor (s: Snapshot)
      ensures View() == s
    {
      bounds, counts, totalCount, sum, min, max := s.bounds, s.counts, s.totalCount, s.sum, s.min, s.max;
    }

    method AddCountsInto(others: seq<nat>)
      modifies this`counts
      ensures counts == AddCounts(old(counts), others)
    {
      hide Add64;
      for i := 0 to |counts|
        invariant |counts| == |old(counts)|
        invariant forall k :: 0 <= k < i && k < |others| ==> counts[k] == Add64(old(counts)[k], others[k])
        invariant forall k :: 0 <= k < |counts| && (k >= i || k >= |others|) ==> counts[k] == old(counts)[k]
      {
        if i < |others| {
          counts := counts[i := Add64(counts[i], others[i])];
        }
      }
    }

    method Merge(other: Snapshot)
      modifies this
      ensures View() == Merged(old(View()), other)
    {
      if other.totalCount == 0 {
        return;
      }
      if totalCount == 0 {
        bounds, counts, totalCount := other.bounds, other.counts, other.totalCount;
        sum, min, max := other.sum, other.min, other.max;
        return;
      }
      AddCountsInto(other.counts);
      totalCount := Add64(totalCount, other.totalCount);
      sum := sum + other.sum;
      if other.min < min {
        min := other.min;
      }
      if other.max > max {
        max := other.max;
      }
    }
  }

  const EMPTY := Snapshot([], [], 0, 0.0, 0.0, 0.0)

  function Aggregated(points: seq<DataPoint>): Snapshot {
    if points == [] then EMPTY
    else if |points| == 1 then ToSnapshot(points[0])
    else Merged(Aggregated(points[..|points| - 1]), ToSnapshot(points[|points| - 1]))
  }

  method AggregateHistograms(points: seq<DataPoint>) returns (r: HistogramSnapshot)
    ensures fresh(r) && r.View() == Aggregated(points)
  {
    if |points| == 0 {
      r := new HistogramSnapshot(EMPTY);
      return;
    }
    r := new HistogramSnapshot(ToSnapshot(points[0]));
    assert points[..1] == [points[0]];
    for i := 1 to |points|
      invariant fresh(r) && r.View() == Aggregated(points[..i])
    {
      assert points[..i + 1][..i] == points[..i];
      r.Merge(ToSnapshot(points[i]));
    }
    assert points[..|points|] == points;
  }

  // ---- Merging keeps snapshots well-formed ----

  ghost predicate SameBuckets(s: Snapshot, o: Snapshot) {
    s.bounds == o.bounds && |s.counts| == |o.counts|
  }

  lemma Add64Exact(a: nat, b: nat)
    requires a + b < TWO64
    ensures Add64(a, b) == a + b
  {
  }

  /** Merging well-formed snapshots with the same buckets gives one, holding the observations of both. */
  lemma MergeKeepsWellFormed(s: Snapshot, o: Snapshot)
    requires WellFormed(s) && WellFormed(o) && SameBuckets(s, o) && s.totalCount + o.totalCount < TWO64
    ensures WellFormed(Merged(s, o)) && Merged(s, o).totalCount == s.totalCount + o.totalCount
    ensures s.totalCount > 0 && o.totalCount > 0 ==>
              SameBuckets(Merged(s, o), s) &&
              forall i :: 0 <= i < |s.counts| ==> Merged(s, o).counts[i] == s.counts[i] + o.counts[i]
  {
    hide Add64;
    if s.totalCount > 0 && o.totalCount > 0 {
      Add64Exact(s.totalCount, o.totalCount);
      var sums := AddCounts(s.counts, o.counts);
      forall i | 0 <= i < |s.counts| ensures sums[i] == s.counts[i] + o.counts[i] {
        assert s.counts[i] <= s.totalCount && o.counts[i] <= o.totalCount;
        Add64Exact(s.counts[i], o.counts[i]);
      }
    }
  }

  // ---- The order of the points does not matter ----

  function SumCounts(points: seq<DataPoint>): nat {
    if points == [] then 0 else SumCounts(points[..|points| - 1]) + points[|points| - 1].count
  }

  /** Points that hold observations share one set of buckets. */
  ghost predicate Compatible(points: seq<DataPoint>) {
    forall p, q :: p in points && q in points && p.count > 0 && q.count > 0 ==>
                     SameBuckets(ToSnapshot(p), ToSnapshot(q))
  }

  /** The aggregate as a fold from nothing. */
  function Folded(points: seq<DataPoint>): Snapshot {
    if points == [] then EMPTY else Merged(Folded(points[..|points| - 1]), ToSnapshot(points[|points| - 1]))
  }

  lemma {:induction false} FoldedTotal(points: seq<DataPoint>)
    requires SumCounts(points) < TWO64
    ensures Folded(points).totalCount == SumCounts(points)
  {
    if points != [] {
      FoldedTotal(points[..|points| - 1]);
    }
  }

  lemma {:induction false} AggregatedTotal(points: seq<DataPoint>)
    requires SumCounts(points) < TWO64
    ensures Aggregated(points).totalCount == SumCounts(points)
  {
    if |points| == 1 {
      assert points[..0] == [];
    } else if |points| > 1 {
      AggregatedTotal(points[..|points| - 1]);
    }
  }

  /** Starting from the first point or from nothing makes no difference once there is an observation. */
  lemma {:induction false} AggregatedIsFolded(points: seq<DataPoint>)
    requires 0 < SumCounts(points) < TWO64
    ensures Aggregated(points) == Folded(points)
  {
    var init := points[..|points| - 1];
    FoldedTotal(init);
    if |points| > 1 {
      AggregatedTotal(init);
      if SumCounts(init) > 0 {
        AggregatedIsFolded(init);
      }
    }
  }

  lemma {:induction false} FoldedBuckets(points: seq<DataPoint>, q: DataPoint)
    requires SumCounts(points) < TWO64 && Compatible(points) && q in points && q.count > 0
    ensures SameBuckets(Folded(points), ToSnapshot(q))
  {
    var n := |points| - 1;
    var init, p := points[..n], points[n];
    assert points == init + [p] && p in points;
    FoldedTotal(init);
    if SumCounts(init) > 0 {
      var f := SomeFilled(init);
      assert f in points;
      FoldedBuckets(init, f);
    } else if q in init {
      NoneFilled(init, q);
      assert false;
    }
  }

  lemma {:induction false} SomeFilled(points: seq<DataPoint>) returns (p: DataPoint)
    requires SumCounts(points) > 0
    ensures p in points && p.count > 0
  {
    p := points[|points| - 1];
    if p.count == 0 {
      p := SomeFilled(points[..|points| - 1]);
    }
  }

  lemma {:induction false} NoneFilled(points: seq<DataPoint>, p: DataPoint)
    requires p in points
    ensures p.count <= SumCounts(points)
  {
    var n := |points| - 1;
    if p != points[n] {
      assert points == points[..n] + [points[n]];
      NoneFilled(points[..n], p);
    }
  }

  lemma Add64Swap(a: nat, b: nat, c: nat)
    ensures Add64(Add64(a, b), c) == Add64(Add64(a, c), b)
    ensures Add64(a, b) == Add64(b, a)
  {
    assert Add64(Add64(a, b), c) == (a + b + c) % TWO64;
    assert Add64(Add64(a, c), b) == (a + c + b) % TWO64;
  }

  lemma CountsSwap(a: seq<nat>, b: seq<nat>, c: seq<nat>)
    requires |a| == |b| == |c|
    ensures AddCounts(AddCounts(a, b), c) == AddCounts(AddCounts(a, c), b)
    ensures AddCounts(b, c) == AddCounts(c, b)
  {
    hide Add64;
    forall i | 0 <= i < |a|
      ensures AddCounts(AddCounts(a, b), c)[i] == AddCounts(AddCounts(a, c), b)[i]
      ensures AddCounts(b, c)[i] == AddCounts(c, b)[i]
    {
      Add64Swap(a[i], b[i], c[i]);
      Add64Swap(b[i], c[i], 0);
    }
  }

  ghost predicate BothFilledAgree(s: Snapshot, o: Snapshot) {
    s.totalCount > 0 && o.totalCount > 0 ==> SameBuckets(s, o)
  }

  /** Two merges may be done in either order. */
  lemma MergesCommute(r: Snapshot, a: Snapshot, b: Snapshot)
    requires BothFilledAgree(r, a) && BothFilledAgree(r, b) && BothFilledAgree(a, b)
    requires r.totalCount + a.totalCount + b.totalCount < TWO64
    ensures Merged(Merged(r, a), b) == Merged(Merged(r, b), a)
  {
    hide Add64, AddCounts;
    Add64Exact(r.totalCount, a.totalCount);
    Add64Exact(r.totalCount, b.totalCount);
    Add64Exact(a.totalCount, b.totalCount);
    Add64Exact(b.totalCount, a.totalCount);
    Add64Exact(r.totalCount + a.totalCount, b.totalCount);
    Add64Exact(r.totalCount + b.totalCount, a.totalCount);
    if a.totalCount > 0 && b.totalCount > 0 {
      if r.totalCount > 0 {
        CountsSwap(r.counts, a.counts, b.counts);
      } else {
        CountsSwap(a.counts, a.counts, b.counts);
      }
    }
  }

  lemma {:induction false} SumSplits(a: seq<DataPoint>, b: seq<DataPoint>)
    ensures SumCounts(a + b) == SumCounts(a) + SumCounts(b)
  {
    if b == [] {
      assert a + b == a;
    } else {
      var n := |b| - 1;
      SumSplits(a, b[..n]);
      assert (a + b)[..|a + b| - 1] == a + b[..n];
    }
  }

  /** A point may be moved to the end. */
  lemma {:induction false} MoveToEnd(a: seq<DataPoint>, x: DataPoint, b: seq<DataPoint>)
    requires Compatible(a + [x] + b) && SumCounts(a + [x] + b) < TWO64
    ensures Folded(a + [x] + b) == Folded(a + b + [x])
    decreases |b|
  {
    hide Folded, Merged, SumCounts, Compatible, BothFilledAgree;
    if b == [] {
      assert a + [x] + b == a + b + [x];
    } else {
      var n := |b| - 1;
      var b', y, all := b[..n], b[n], a + [x] + b;
      assert b == b' + [y];
      SumParts(a, x, b');
      assert a + [x] + b == a + [x] + b' + [y];
      SumSnoc(a + [x] + b', y);
      SumSnoc(a + b', x);
      assert forall p :: p in a + [x] + b' ==> p in all;
      CompatiblePart(all, a + [x] + b');
      MoveToEnd(a, x, b');
      FoldedAgrees(a + b', x, all);
      FoldedAgrees(a + b', y, all);
      PairAgrees(all, x, y);
      FoldedTotal(a + b');
      MergesCommute(Folded(a + b'), ToSnapshot(x), ToSnapshot(y));
      MoveStep(a, x, b', y);
    }
  }

  lemma SumSnoc(s: seq<DataPoint>, p: DataPoint)
    ensures SumCounts(s + [p]) == SumCounts(s) + p.count
  {
    assert (s + [p])[..|s|] == s;
  }

  lemma SumParts(a: seq<DataPoint>, x: DataPoint, b: seq<DataPoint>)
    ensures SumCounts(a + [x] + b) == SumCounts(a + b) + x.count
  {
    SumSplits(a + [x], b);
    SumSnoc(a, x);
    SumSplits(a, b);
  }

  lemma CompatiblePart(all: seq<DataPoint>, part: seq<DataPoint>)
    requires Compatible(all) && forall p :: p in part ==> p in all
    ensures Compatible(part)
  {
  }

  lemma PairAgrees(all: seq<DataPoint>, x: DataPoint, y: DataPoint)
    requires Compatible(all) && x in all && y in all
    ensures BothFilledAgree(ToSnapshot(x), ToSnapshot(y))
  {
  }

  lemma MoveStep(a: seq<DataPoint>, x: DataPoint, b: seq<DataPoint>, y: DataPoint)
    ensures Folded(a + (b + [y]) + [x]) == Merged(Merged(Folded(a + b), ToSnapshot(y)), ToSnapshot(x))
    ensures Folded(a + b + [x]) == Merged(Folded(a + b), ToSnapshot(x))
    ensures Folded(a + [x] + (b + [y])) == Merged(Folded(a + [x] + b), ToSnapshot(y))
  {
    FoldedSnoc(a + b, x);
    FoldedSnoc(a + b, y);
    assert a + (b + [y]) == a + b + [y];
    FoldedSnoc(a + (b + [y]), x);
    assert a + [x] + (b + [y]) == a + [x] + b + [y];
    FoldedSnoc(a + [x] + b, y);
  }

  lemma FoldedSnoc(s: seq<DataPoint>, p: DataPoint)
    ensures Folded(s + [p]) == Merged(Folded(s), ToSnapshot(p))
  {
    assert (s + [p])[..|s|] == s;
  }

  lemma FoldedAgrees(part: seq<DataPoint>, x: DataPoint, all: seq<DataPoint>)
    requires Compatible(all) && x in all && (forall p :: p in part ==> p in all) && SumCounts(part) < TWO64
    ensures BothFilledAgree(Folded(part), ToSnapshot(x))
  {
    FoldedTotal(part);
    if SumCounts(part) > 0 && x.count > 0 {
      var f := SomeFilled(part);
      FoldedBuckets(part, f);
    }
  }

  lemma {:induction false} FoldedIgnoresOrder(ps: seq<DataPoint>, qs: seq<DataPoint>)
    requires multiset(ps) == multiset(qs) && Compatible(ps) && SumCounts(ps) < TWO64
    ensures SumCounts(qs) == SumCounts(ps) && Folded(ps) == Folded(qs)
    decreases |ps|
  {
    hide Folded, SumCounts, Compatible;
    assert |ps| == |multiset(ps)| == |qs|;
    if ps == [] {
      assert qs == [];
    } else {
      var n := |ps| - 1;
      var init, x := ps[..n], ps[n];
      assert ps == init + [x];
      assert x in multiset(qs);
      var k :| 0 <= k < |qs| && qs[k] == x;
      var a, b := qs[..k], qs[k + 1..];
      assert qs == a + [x] + b;
      TakenOut(init, x, a, b);
      SumSnoc(init, x);
      CompatiblePart(ps, init);
      FoldedIgnoresOrder(init, a + b);
      assert forall p :: p in qs ==> p in multiset(qs);
      CompatiblePart(ps, qs);
      SumParts(a, x, b);
      MoveToEnd(a, x, b);
      FoldedSnoc(a + b, x);
      FoldedSnoc(init, x);
    }
  }

  lemma TakenOut(init: seq<DataPoint>, x: DataPoint, a: seq<DataPoint>, b: seq<DataPoint>)
    requires multiset(init + [x]) == multiset(a + [x] + b)
    ensures multiset(init) == multiset(a + b)
  {
    var m, k, one := multiset(init), multiset(a + b), multiset{x};
    assert multiset(init + [x]) == m + one;
    assert multiset(a + [x] + b) == k + one;
    SameRest(m, k, x);
  }

  lemma SameRest(m: multiset<DataPoint>, k: multiset<DataPoint>, x: DataPoint)
    requires m + multiset{x} == k + multiset{x}
    ensures m == k
  {
    assert m == m + multiset{x} - multiset{x};
    assert k == k + multiset{x} - multiset{x};
  }

  /** Aggregating the same points in another order gives the same result exactly if there is an observation, or the
      first points, which alone survive without one, agree. */
  lemma AggregateIgnoresOrderIff(ps: seq<DataPoint>, qs: seq<DataPoint>)
    requires multiset(ps) == multiset(qs) && Compatible(ps) && SumCounts(ps) < TWO64
    ensures Aggregated(ps) == Aggregated(qs) <==>
              SumCounts(ps) > 0 || ps == [] || ToSnapshot(ps[0]) == ToSnapshot(qs[0])
  {
    assert |ps| == |multiset(ps)| == |qs|;
    FoldedIgnoresOrder(ps, qs);
    if SumCounts(ps) > 0 {
      AggregatedIsFolded(ps);
      AggregatedIsFolded(qs);
    } else if ps != [] {
      FirstSurvives(ps);
      FirstSurvives(qs);
    }
  }

  lemma {:induction false} FirstSurvives(points: seq<DataPoint>)
    requires points != [] && SumCounts(points) == 0
    ensures Aggregated(points) == ToSnapshot(points[0])
  {
    if |points| > 1 {
      FirstSurvives(points[..|points| - 1]);
    }
  }

  /** Two points without observations and with different buckets: the first one is what is left. */
  lemma EmptyPointsKeepTheirOrder()
    ensures
      var p, q := DataPoint(0, 0.0, None, None, [1.0], [0, 0]), DataPoint(0, 0.0, None, None, [2.0], [0, 0]);
      && multiset([p, q]) == multiset([q, p]) && Compatible([p, q])
      && Aggregated([p, q]).bounds == [1.0] && Aggregated([q, p]).bounds == [2.0]
  {
    var p, q := DataPoint(0, 0.0, None, None, [1.0], [0, 0]), DataPoint(0, 0.0, None, None, [2.0], [0, 0]);
    assert [p, q][..1] == [p] && [q, p][..1] == [q];
  }

  // ---- What the aggregate holds ----

  function MinOf(p: DataPoint): real {
    if p.min.Some? then p.min.value else 0.0
  }

  function MaxOf(p: DataPoint): real {
    if p.max.Some? then p.max.value else 0.0
  }

  /** The sum of the observations of all points that hold any. */
  function SumOf(points: seq<DataPoint>): real {
    if points == [] then 0.0
    else var p := points[|points| - 1]; SumOf(points[..|points| - 1]) + if p.count > 0 then p.sum else 0.0
  }

  /** The cumulative count of bucket i over all points that hold observations. */
  function CountAt(points: seq<DataPoint>, i: nat): nat {
    if points == [] then 0
    else var p := points[|points| - 1];
         CountAt(points[..|points| - 1], i) + if p.count > 0 && i < |p.bucketCounts| then p.bucketCounts[i] else 0
  }

  ghost predicate IsLeast(points: seq<DataPoint>, x: real) {
    && (forall p :: p in points && p.count > 0 ==> x <= MinOf(p))
    && exists p :: p in points && p.count > 0 && MinOf(p) == x
  }

  ghost predicate IsGreatest(points: seq<DataPoint>, x: real) {
    && (forall p :: p in points && p.count > 0 ==> MaxOf(p) <= x)
    && exists p :: p in points && p.count > 0 && MaxOf(p) == x
  }

  /** Counts agree as unsigned 64-bit numbers. */
  ghost predicate CountsAre(counts: seq<nat>, points: seq<DataPoint>) {
    forall i :: 0 <= i < |counts| ==> counts[i] % TWO64 == CountAt(points, i) % TWO64
  }

  lemma {:induction false} NothingHeld(points: seq<DataPoint>)
    requires SumCounts(points) == 0
    ensures SumOf(points) == 0.0 && (forall i: nat :: CountAt(points, i) == 0)
    ensures forall p :: p in points ==> p.count == 0
  {
    if points != [] {
      NothingHeld(points[..|points| - 1]);
      assert points == points[..|points| - 1] + [points[|points| - 1]];
    }
  }

  lemma CountsAdd(a: seq<nat>, b: seq<nat>, init: seq<DataPoint>, p: DataPoint)
    requires CountsAre(a, init) && |a| == |b| && p.count > 0 && p.bucketCounts == b
    ensures CountsAre(AddCounts(a, b), init + [p])
  {
    var points := init + [p];
    forall i | 0 <= i < |a| ensures AddCounts(a, b)[i] % TWO64 == CountAt(points, i) % TWO64 {
      assert points[..|init|] == init;
      assert CountAt(points, i) == CountAt(init, i) + b[i];
      AddModulo(a[i], CountAt(init, i), b[i]);
    }
  }

  lemma AddModulo(a: nat, c: nat, b: nat)
    requires a % TWO64 == c % TWO64
    ensures Add64(a, b) % TWO64 == (c + b) % TWO64
  {
    assert (a + b) % TWO64 == (a % TWO64 + b) % TWO64;
    assert (c + b) % TWO64 == (c % TWO64 + b) % TWO64;
  }

  /** What the aggregate of points with observations is. */
  ghost predicate Holds(a: Snapshot, points: seq<DataPoint>) {
    && a.totalCount == SumCounts(points) && a.sum == SumOf(points) && CountsAre(a.counts, points)
    && IsLeast(points, a.min) && IsGreatest(points, a.max)
    && forall p :: p in points && p.count > 0 ==> a.bounds == p.explicitBounds && |a.counts| == |p.bucketCounts|
  }

  lemma HoldsOn(a: Snapshot, init: seq<DataPoint>, p: DataPoint)
    requires Holds(a, init) && p.count == 0
    ensures Holds(a, init + [p])
  {
    hide CountsAre;
    SameCounts(a.counts, init, p);
    assert (init + [p])[..|init|] == init;
  }

  lemma HoldsFirst(init: seq<DataPoint>, p: DataPoint)
    requires SumCounts(init) == 0 && p.count > 0
    ensures Holds(ToSnapshot(p), init + [p])
  {
    hide CountsAre;
    NothingHeld(init);
    OwnCounts(init, p);
    assert (init + [p])[..|init|] == init;
    assert p in init + [p];
  }

  lemma HoldsMore(a: Snapshot, init: seq<DataPoint>, p: DataPoint)
    requires Holds(a, init) && a.totalCount > 0 && p.count > 0 && a.totalCount + p.count < TWO64
    requires SameBuckets(a, ToSnapshot(p))
    ensures Holds(Merged(a, ToSnapshot(p)), init + [p])
  {
    hide CountsAre, AddCounts;
    CountsAdd(a.counts, p.bucketCounts, init, p);
    var points := init + [p];
    assert points[..|init|] == init;
    LeastOf(init, p, a.min);
    GreatestOf(init, p, a.max);
    SameSize(a.counts, p.bucketCounts);
  }

  lemma SameSize(a: seq<nat>, b: seq<nat>)
    ensures |AddCounts(a, b)| == |a|
  {
  }

  lemma LeastOf(init: seq<DataPoint>, p: DataPoint, x: real)
    requires IsLeast(init, x) && p.count > 0
    ensures IsLeast(init + [p], Min(x, MinOf(p)))
  {
    var q :| q in init && q.count > 0 && MinOf(q) == x;
    assert q in init + [p] && p in init + [p];
  }

  lemma GreatestOf(init: seq<DataPoint>, p: DataPoint, x: real)
    requires IsGreatest(init, x) && p.count > 0
    ensures IsGreatest(init + [p], Max(x, MaxOf(p)))
  {
    var q :| q in init && q.count > 0 && MaxOf(q) == x;
    assert q in init + [p] && p in init + [p];
  }

  lemma {:induction false} FoldedIsSum(points: seq<DataPoint>)
    requires Compatible(points) && 0 < SumCounts(points) < TWO64
    ensures Holds(Folded(points), points)
  {
    hide Holds, Compatible, AddCounts;
    var n := |points| - 1;
    var init, p := points[..n], points[n];
    assert points == init + [p];
    FoldedTotal(init);
    CompatiblePart(points, init);
    if p.count == 0 {
      FoldedIsSum(init);
      HoldsOn(Folded(init), init, p);
    } else if SumCounts(init) == 0 {
      HoldsFirst(init, p);
    } else {
      FoldedIsSum(init);
      var f := SomeFilled(init);
      FoldedBuckets(init, f);
      PairAgrees(points, f, p);
      HoldsMore(Folded(init), init, p);
    }
  }

  lemma SameCounts(counts: seq<nat>, init: seq<DataPoint>, p: DataPoint)
    requires CountsAre(counts, init) && p.count == 0
    ensures CountsAre(counts, init + [p])
  {
    assert (init + [p])[..|init|] == init;
  }

  lemma OwnCounts(init: seq<DataPoint>, p: DataPoint)
    requires p.count > 0 && forall i: nat :: CountAt(init, i) == 0
    ensures CountsAre(p.bucketCounts, init + [p])
  {
    assert (init + [p])[..|init|] == init;
  }

  /** Of points with observations total and sum add up, so does every bucket, and the extremes are among theirs. */
  lemma AggregateIsSum(points: seq<DataPoint>)
    requires Compatible(points) && 0 < SumCounts(points) < TWO64
    ensures Holds(Aggregated(points), points)
  {
    hide Folded, Aggregated, Holds;
    AggregatedIsFolded(points);
    FoldedIsSum(points);
  }
}
