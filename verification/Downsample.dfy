/** Largest-Triangle-Three-Buckets downsampling of a metric series. Values are real numbers, without rounding. */
module Downsample {
  datatype Metric = Metric(timestamp: int, value: real)

  datatype Point = Point(x: real, y: real)

  function At(m: Metric): Point {
    Point(m.timestamp as real, m.value)
  }

  function Abs(x: real): real {
    if x < 0.0 then -x else x
  }

  /** Twice the area of the triangle. */
  function Area(a: Point, b: Point, c: Point): real {
    Abs((b.x - a.x) * (c.y - a.y) - (c.x - a.x) * (b.y - a.y))
  }

  // ----- buckets -----

  /** `n` points come down to `target`: the two ends, and one of each of `target - 2` buckets. */
  predicate Reduces(n: nat, target: int) {
    3 <= target < n
  }

  /** Where bucket `i` begins. */
  function Edge(n: nat, target: int, i: nat): int
    requires Reduces(n, target)
  {
    i * (n - 2) / (target - 2) + 1
  }

  /** The last index of bucket `i`; both ends are inclusive, so a bucket shares its last point with the next. */
  function Last(n: nat, target: int, i: nat): int
    requires Reduces(n, target)
  {
    var e := Edge(n, target, i + 1);
    if e >= n - 1 then n - 2 else e
  }

  lemma {:induction false} Cancel(b: nat, p: int, q: int)
    requires b > 0 && b * p < b * q
    ensures p < q
  {
  }

  lemma {:induction false} DivAtLeast(a: nat, b: nat, q: int)
    requires b > 0 && a >= b * q
    ensures a / b >= q
  {
    var p := a / b;
    assert b * (p + 1) == b * p + b;
    Cancel(b, q, p + 1);
  }

  lemma {:induction false} DivExact(b: nat, q: nat)
    requires b > 0
    ensures b * q / b == q
  {
    var a := b * q;
    DivAtLeast(a, b, q);
    var p := a / b;
    assert b * p <= a;
    assert b * (q + 1) == a + b;
    Cancel(b, p, q + 1);
  }

  lemma {:induction false} EdgeEnds(n: nat, target: int)
    requires Reduces(n, target)
    ensures Edge(n, target, 0) == 1 && Edge(n, target, target - 2) == n - 1
  {
    DivExact(target - 2, n - 2);
  }

  lemma {:induction false} EdgeStep(n: nat, target: int, i: nat)
    requires Reduces(n, target)
    ensures Edge(n, target, i) + 1 <= Edge(n, target, i + 1)
  {
  }

  /** Edges advance by at least one, from 1 to the last point. */
  lemma {:induction false} EdgeIncreases(n: nat, target: int, i: nat, j: nat)
    requires Reduces(n, target) && i <= j
    ensures Edge(n, target, j) >= Edge(n, target, i) + (j - i)
    decreases j
  {
    if i < j {
      EdgeIncreases(n, target, i, j - 1);
      EdgeStep(n, target, j - 1);
    }
  }

  lemma {:induction false} EdgeBounds(n: nat, target: int, i: nat)
    requires Reduces(n, target) && i <= target - 2
    ensures 1 + i <= Edge(n, target, i) <= n - 1 - (target - 2 - i)
  {
    EdgeEnds(n, target);
    EdgeIncreases(n, target, 0, i);
    EdgeIncreases(n, target, i, target - 2);
  }

  /** Every bucket but the last ends where the next begins; the last ends before the last point. No bucket is empty. */
  lemma {:induction false} Buckets(n: nat, target: int, i: nat)
    requires Reduces(n, target) && i < target - 2
    ensures 1 <= Edge(n, target, i) <= Last(n, target, i) <= n - 2
    ensures i + 1 < target - 2 ==> Last(n, target, i) == Edge(n, target, i + 1) < Last(n, target, i + 1)
    ensures i + 1 == target - 2 ==> Last(n, target, i) == n - 2
  {
    EdgeBounds(n, target, i);
    EdgeBounds(n, target, i + 1);
    EdgeStep(n, target, i);
    EdgeStep(n, target, i + 1);
    EdgeEnds(n, target);
    if i + 1 < target - 2 {
      EdgeBounds(n, target, i + 2);
    }
  }

  /** Together the buckets hold every inner point. */
  lemma {:induction false} BucketsCover(n: nat, target: int, j: int, i: nat) returns (k: nat)
    requires Reduces(n, target) && 1 <= j <= Last(n, target, i) && i < target - 2
    ensures k < target - 2 && Edge(n, target, k) <= j <= Last(n, target, k)
  {
    EdgeEnds(n, target);
    k := i;
    if j < Edge(n, target, i) {
      Buckets(n, target, i - 1);
      k := BucketsCover(n, target, j, i - 1);
    }
  }

  // ----- the far corner of the triangle -----

  function Sum(points: seq<Metric>, lo: nat, hi: nat): Point
    requires lo <= hi <= |points|
  {
    if lo == hi then Point(0.0, 0.0)
    else
      var p := Sum(points, lo, hi - 1);
      Point(p.x + points[hi - 1].timestamp as real, p.y + points[hi - 1].value)
  }

  /** The mean of the points from `lo` up to `hi`, `hi` excluded; the last point of the series if there are none. */
  function Mean(points: seq<Metric>, lo: nat, hi: nat): Point
    requires hi <= |points| && points != []
  {
    if lo >= hi then At(points[|points| - 1])
    else
      var p := Sum(points, lo, hi);
      Point(p.x / (hi - lo) as real, p.y / (hi - lo) as real)
  }

  /** How far the points from `lo` up to `hi` are from `c`, added up. */
  function Deviation(points: seq<Metric>, lo: nat, hi: nat, c: Point): Point
    requires lo <= hi <= |points|
    decreases hi - lo
  {
    if lo == hi then Point(0.0, 0.0)
    else
      var p := Deviation(points, lo + 1, hi, c);
      Point(points[lo].timestamp as real - c.x + p.x, points[lo].value - c.y + p.y)
  }

  lemma {:induction false} DeviationEnd(points: seq<Metric>, lo: nat, hi: nat, c: Point)
    requires lo <= hi < |points|
    ensures var p := Deviation(points, lo, hi, c);
            Deviation(points, lo, hi + 1, c)
            == Point(p.x + (points[hi].timestamp as real - c.x), p.y + (points[hi].value - c.y))
    decreases hi - lo
  {
    if lo < hi {
      DeviationEnd(points, lo + 1, hi, c);
    } else {
      assert Deviation(points, lo + 1, hi + 1, c) == Point(0.0, 0.0);
    }
  }

  lemma {:induction false} DeviationIsSum(points: seq<Metric>, lo: nat, hi: nat, c: Point)
    requires lo <= hi <= |points|
    ensures var d, s := Deviation(points, lo, hi, c), Sum(points, lo, hi);
            d == Point(s.x - (hi - lo) as real * c.x, s.y - (hi - lo) as real * c.y)
    decreases hi
  {
    if lo < hi {
      DeviationIsSum(points, lo, hi - 1, c);
      DeviationEnd(points, lo, hi - 1, c);
      Times(hi - lo, c.x);
      Times(hi - lo, c.y);
    }
  }

  lemma {:induction false} Times(n: nat, x: real)
    requires n > 0
    ensures n as real * x == (n - 1) as real * x + x
  {
  }

  lemma {:induction false} Balanced(n: nat, s: real, x: real)
    requires n > 0
    ensures s - n as real * x == 0.0 <==> x == s / n as real
  {
  }

  /** The mean is the one point from which the deviations of a bucket cancel out. */
  lemma {:induction false} MeanBalances(points: seq<Metric>, lo: nat, hi: nat, c: Point)
    requires lo < hi <= |points|
    ensures Deviation(points, lo, hi, c) == Point(0.0, 0.0) <==> c == Mean(points, lo, hi)
  {
    var s := Sum(points, lo, hi);
    DeviationIsSum(points, lo, hi, c);
    Balanced(hi - lo, s.x, c.x);
    Balanced(hi - lo, s.y, c.y);
  }

  method ComputeMean(points: seq<Metric>, first: nat, last: int) returns (c: Point)
    requires points != [] && -1 <= last < |points|
    ensures c == Mean(points, first, last + 1)
  {
    var x, y, count := 0.0, 0.0, 0;
    var j := first;
    while j <= last
      invariant first <= j && (j <= last + 1 || j == first)
      invariant count == j - first
      invariant j <= |points| ==> Point(x, y) == Sum(points, first, j)
    {
      x, y, count := x + points[j].timestamp as real, y + points[j].value, count + 1;
      j := j + 1;
    }
    if count == 0 {
      c := At(points[|points| - 1]);
    } else {
      c := Point(x / count as real, y / count as real);
    }
  }

  // ----- one pick per bucket -----

  /** The first point of the range that makes the largest triangle with `a` and `c`. */
  ghost predicate IsLargest(points: seq<Metric>, first: nat, last: int, a: Point, c: Point, pick: int) {
    && first <= pick <= last < |points|
    && (forall j | first <= j <= last :: Area(a, At(points[j]), c) <= Area(a, At(points[pick]), c))
    && (forall j | first <= j < pick :: Area(a, At(points[j]), c) < Area(a, At(points[pick]), c))
  }

  method LargestTriangle(points: seq<Metric>, first: nat, last: int, a: Point, c: Point) returns (pick: int)
    requires first <= last < |points|
    ensures IsLargest(points, first, last, a, c, pick)
  {
    var maxArea := -1.0;
    pick := first;
    var j: int := first;
    while j <= last
      invariant first <= j <= last + 1
      invariant j == first ==> maxArea == -1.0 && pick == first
      invariant j > first ==> first <= pick < j && maxArea == Area(a, At(points[pick]), c)
      invariant forall i | first <= i < j :: Area(a, At(points[i]), c) <= maxArea
      invariant forall i | first <= i < pick :: Area(a, At(points[i]), c) < maxArea
    {
      var area := Area(a, At(points[j]), c);
      if area > maxArea {
        maxArea, pick := area, j;
      }
      j := j + 1;
    }
  }

  /** The mean of the bucket after bucket `i`. */
  function Corner(points: seq<Metric>, target: int, i: nat): Point
    requires Reduces(|points|, target) && i < target - 2
  {
    Buckets(|points|, target, i);
    LastBound(|points|, target, i + 1);
    Mean(points, Last(|points|, target, i) + 1, Last(|points|, target, i + 1) + 1)
  }

  lemma {:induction false} LastBound(n: nat, target: int, i: nat)
    requires Reduces(n, target)
    ensures 0 <= Last(n, target, i) <= n - 2
  {
  }

  ghost predicate IsPick(points: seq<Metric>, target: int, i: nat, prev: int, pick: int)
    requires Reduces(|points|, target) && i < target - 2 && 0 <= prev < |points|
  {
    && Edge(|points|, target, i) >= 0
    && IsLargest(points, Edge(|points|, target, i), Last(|points|, target, i), At(points[prev]),
                 Corner(points, target, i), pick)
  }

  /** The indices the algorithm keeps: the first, one for each bucket in turn, the last. */
  ghost predicate Picks(points: seq<Metric>, target: int, picks: seq<int>)
    requires Reduces(|points|, target)
  {
    && |picks| == target
    && picks[0] == 0 && picks[target - 1] == |points| - 1
    && (forall k | 0 <= k < target :: 0 <= picks[k] < |points|)
    && (forall i: nat | i < target - 2 :: IsPick(points, target, i, picks[i], picks[i + 1]))
  }

  method DownsampleLttb(points: seq<Metric>, target: int) returns (out: seq<Metric>, ghost picks: seq<int>)
    ensures target < 3 || |points| <= target ==> out == points
    ensures target >= 3 && |points| > target ==>
              Picks(points, target, picks) && |out| == target &&
              forall k | 0 <= k < target :: out[k] == points[picks[k]]
  {
    var n := |points|;
    if target < 3 || n <= target {
      return points, [];
    }
    out, picks := [points[0]], [0];
    var prev := 0;
    for i := 0 to target - 2
      invariant |picks| == |out| == i + 1 && picks[0] == 0 && picks[i] == prev
      invariant forall k | 0 <= k <= i :: 0 <= picks[k] < n && out[k] == points[picks[k]]
      invariant forall k: nat | k < i :: IsPick(points, target, k, picks[k], picks[k + 1])
    {
      Buckets(n, target, i);
      LastBound(n, target, i + 1);
      var first, last := Edge(n, target, i), Last(n, target, i);
      var c := ComputeMean(points, last + 1, Last(n, target, i + 1));
      var pick := LargestTriangle(points, first, last, At(points[prev]), c);
      assert IsPick(points, target, i, prev, pick);
      out, picks, prev := out + [points[pick]], picks + [pick], pick;
    }
    out, picks := out + [points[n - 1]], picks + [n - 1];
  }

  /** Every point kept comes from its own bucket, so the kept points are in order, the ends apart from the rest. */
  lemma {:induction false} PicksInOrder(points: seq<Metric>, target: int, picks: seq<int>, i: nat, j: nat)
    requires Reduces(|points|, target) && Picks(points, target, picks) && i < j < target
    ensures picks[i] <= picks[j]
    ensures i == 0 || j == target - 1 ==> picks[i] < picks[j]
    decreases j
  {
    if j - 1 < target - 2 {
      assert IsPick(points, target, j - 1, picks[j - 1], picks[j]);
      Buckets(|points|, target, j - 1);
    }
    if 0 < j - 1 {
      assert IsPick(points, target, j - 2, picks[j - 2], picks[j - 1]);
      Buckets(|points|, target, j - 2);
    }
    if i < j - 1 {
      PicksInOrder(points, target, picks, i, j - 1);
    }
  }

  /** The triangle with a point twice is flat. */
  lemma {:induction false} FlatWithItself(a: Point, c: Point)
    ensures Area(a, a, c) == 0.0
  {
  }

  /**
   * Buckets share their end points, so one point can be kept twice in a row. It is exactly when the
   * point is where the next bucket begins and all of that bucket lies on the line from it to the corner.
   */
  lemma {:induction false} KeptTwice(points: seq<Metric>, target: int, picks: seq<int>, i: nat)
    requires Reduces(|points|, target) && Picks(points, target, picks) && i + 1 < target - 2
    ensures picks[i + 1] == picks[i + 2] <==>
      && picks[i + 1] == Edge(|points|, target, i + 1)
      && forall j | 0 <= j < |points| && picks[i + 1] <= j <= Last(|points|, target, i + 1) ::
           Area(At(points[picks[i + 1]]), At(points[j]), Corner(points, target, i + 1)) == 0.0
  {
    var a, c := At(points[picks[i + 1]]), Corner(points, target, i + 1);
    var first, last := Edge(|points|, target, i + 1), Last(|points|, target, i + 1);
    Buckets(|points|, target, i);
    Buckets(|points|, target, i + 1);
    assert IsPick(points, target, i, picks[i], picks[i + 1]);
    assert IsPick(points, target, i + 1, picks[i + 1], picks[i + 2]);
    FlatWithItself(a, c);
    PickIsSelf(points, first, last, picks[i + 1], c, picks[i + 2]);
  }

  /** When the range may start at the previous pick: it is picked again just when the whole range is in line. */
  lemma {:induction false} PickIsSelf(points: seq<Metric>, first: nat, last: int, prev: int, c: Point, pick: int)
    requires 0 <= prev <= first && prev < |points| && IsLargest(points, first, last, At(points[prev]), c, pick)
    ensures pick == prev <==>
      prev == first &&
      forall j | 0 <= j < |points| && prev <= j <= last :: Area(At(points[prev]), At(points[j]), c) == 0.0
  {
  }

  /** Every bucket holds at least two points. */
  lemma {:induction false} TwoInABucket(n: nat, target: int, i: nat)
    requires Reduces(n, target) && i < target - 2
    ensures Edge(n, target, i) < Last(n, target, i)
  {
    Buckets(n, target, i);
    EdgeStep(n, target, i);
    if i + 1 == target - 2 {
      LastEdge(n, target);
    }
  }

  /** The last bucket begins at least two points before the last point. */
  lemma {:induction false} LastEdge(n: nat, target: int)
    requires Reduces(n, target)
    ensures Edge(n, target, target - 3) <= n - 3
  {
    var r, b := n - 2, target - 2;
    assert (b - 1) * r == b * r - r;
    DivAtMost(b * r - r, b, r - 2);
  }

  lemma {:induction false} DivAtMost(a: nat, b: nat, q: int)
    requires b > 0 && a < b * (q + 1)
    ensures a / b <= q
  {
    var p := a / b;
    assert b * p <= a;
    Cancel(b, p, q + 1);
  }

  /** All points of bucket `i` lie in line with its first point and its far corner. This is about the series alone. */
  ghost predicate InLine(points: seq<Metric>, target: int, i: nat)
    requires Reduces(|points|, target) && i < target - 2
  {
    forall j | 0 <= Edge(|points|, target, i) <= j <= Last(|points|, target, i) < |points| ::
      Area(At(points[Edge(|points|, target, i)]), At(points[j]), Corner(points, target, i)) == 0.0
  }

  lemma {:induction false} RepeatIsInLine(points: seq<Metric>, target: int, picks: seq<int>, i: nat)
    requires Reduces(|points|, target) && Picks(points, target, picks) && i + 1 < target - 2
    ensures picks[i + 1] == picks[i + 2] <==>
            picks[i + 1] == Edge(|points|, target, i + 1) && InLine(points, target, i + 1)
  {
    KeptTwice(points, target, picks, i);
    Buckets(|points|, target, i + 1);
  }

  ghost predicate Increasing(picks: seq<int>) {
    forall i, j | 0 <= i < j < |picks| :: picks[i] < picks[j]
  }

  /** Kept points strictly increase as soon as neighbours do. */
  lemma {:induction false} StepsIncrease(picks: seq<int>, i: nat, j: nat)
    requires i < j < |picks| && forall k | 0 <= k < |picks| - 1 :: picks[k] < picks[k + 1]
    ensures picks[i] < picks[j]
    decreases j
  {
    assert picks[j - 1] < picks[j - 1 + 1];
    if i < j - 1 {
      StepsIncrease(picks, i, j - 1);
    }
  }

  /** No bucket after the first lies in line and begins at the point kept before it. */
  ghost predicate NoBucketRepeats(points: seq<Metric>, target: int, picks: seq<int>)
    requires Reduces(|points|, target) && |picks| == target
  {
    forall i: nat | 0 < i < target - 2 && InLine(points, target, i) :: picks[i] != Edge(|points|, target, i)
  }

  lemma {:induction false} NeighboursIncrease(points: seq<Metric>, target: int, picks: seq<int>, k: nat)
    requires Reduces(|points|, target) && Picks(points, target, picks) && k < target - 1
    requires NoBucketRepeats(points, target, picks)
    ensures picks[k] < picks[k + 1]
  {
    PicksInOrder(points, target, picks, k, k + 1);
    if 0 < k < target - 2 {
      RepeatIsInLine(points, target, picks, k - 1);
    }
  }

  /**
   * The kept points of the whole output are different and in order if and only if no bucket after the
   * first lies in line and begins at the point kept before it.
   */
  lemma {:induction false} AllDifferent(points: seq<Metric>, target: int, picks: seq<int>)
    requires Reduces(|points|, target) && Picks(points, target, picks)
    ensures Increasing(picks) <==> NoBucketRepeats(points, target, picks)
  {
    if NoBucketRepeats(points, target, picks) {
      forall k | 0 <= k < |picks| - 1 ensures picks[k] < picks[k + 1] {
        NeighboursIncrease(points, target, picks, k);
      }
      forall i, j | 0 <= i < j < |picks| ensures picks[i] < picks[j] {
        StepsIncrease(picks, i, j);
      }
    } else {
      var i: nat :| 0 < i < target - 2 && InLine(points, target, i) && picks[i] == Edge(|points|, target, i);
      RepeatIsInLine(points, target, picks, i - 1);
      assert picks[i] == picks[i + 1];
    }
  }

  ghost predicate NoBucketInLine(points: seq<Metric>, target: int)
    requires Reduces(|points|, target)
  {
    forall i: nat | 0 < i < target - 2 :: !InLine(points, target, i)
  }

  /** On the series alone: if no bucket after the first lies in line, no point is returned twice. */
  lemma {:induction false} NoneKeptTwice(points: seq<Metric>, target: int, picks: seq<int>)
    requires Reduces(|points|, target) && Picks(points, target, picks)
    requires NoBucketInLine(points, target)
    ensures Increasing(picks)
  {
    AllDifferent(points, target, picks);
  }

  /** The series determines what is kept. */
  lemma {:induction false} PicksAreDetermined(points: seq<Metric>, target: int, p: seq<int>, q: seq<int>, k: nat)
    requires Reduces(|points|, target) && Picks(points, target, p) && Picks(points, target, q) && k < target
    ensures p[k] == q[k]
  {
    if 0 < k < target - 1 {
      PicksAreDetermined(points, target, p, q, k - 1);
      assert IsPick(points, target, k - 1, p[k - 1], p[k]);
      assert IsPick(points, target, k - 1, q[k - 1], q[k]);
      LargestIsUnique(points, Edge(|points|, target, k - 1), Last(|points|, target, k - 1), At(points[p[k - 1]]),
                      Corner(points, target, k - 1), p[k], q[k]);
    }
  }

  lemma {:induction false} LargestIsUnique(points: seq<Metric>, first: nat, last: int, a: Point, c: Point, p: int,
                                           q: int)
    requires IsLargest(points, first, last, a, c, p) && IsLargest(points, first, last, a, c, q)
    ensures p == q
  {
    assert Area(a, At(points[p]), c) == Area(a, At(points[q]), c);
  }

  /** Only the last bucket has no bucket after it; its far corner is the last point. */
  lemma {:induction false} OnlyLastBucketFallsBack(points: seq<Metric>, target: int, i: nat)
    requires Reduces(|points|, target) && i < target - 2
    ensures Last(|points|, target, i) < Last(|points|, target, i + 1) <==> i + 1 < target - 2
    ensures i + 1 == target - 2 ==> Corner(points, target, i) == At(points[|points| - 1])
  {
    Buckets(|points|, target, i);
    LastBound(|points|, target, i + 1);
  }

  /** The far corner of any other bucket is the mean of the bucket after it without the point both share. */
  lemma {:induction false} CornerBalances(points: seq<Metric>, target: int, i: nat)
    requires Reduces(|points|, target) && i + 1 < target - 2
    ensures var from, to := Edge(|points|, target, i + 1) + 1, Last(|points|, target, i + 1) + 1;
            0 < from < to < |points| && Deviation(points, from, to, Corner(points, target, i)) == Point(0.0, 0.0)
  {
    Buckets(|points|, target, i);
    TwoInABucket(|points|, target, i + 1);
    LastBound(|points|, target, i + 1);
    var from, to := Edge(|points|, target, i + 1) + 1, Last(|points|, target, i + 1) + 1;
    MeanBalances(points, from, to, Corner(points, target, i));
  }

  const SPIKE: seq<Metric> := [Metric(0, 0.0), Metric(1, 0.0), Metric(2, 10.0), Metric(3, 5.0), Metric(4, 0.0)]

  lemma {:induction false} SpikeBuckets()
    ensures Edge(|SPIKE|, 4, 0) == 1 && Edge(|SPIKE|, 4, 1) == 2
    ensures Last(|SPIKE|, 4, 0) == 2 && Last(|SPIKE|, 4, 1) == 3 && Last(|SPIKE|, 4, 2) == 3
  {
  }

  lemma {:induction false} SpikeCorners()
    ensures Corner(SPIKE, 4, 0) == Point(3.0, 5.0) && Corner(SPIKE, 4, 1) == Point(4.0, 0.0)
  {
  }

  lemma {:induction false} SpikeAreas()
    ensures Area(Point(0.0, 0.0), Point(1.0, 0.0), Point(3.0, 5.0)) == 5.0
    ensures Area(Point(0.0, 0.0), Point(2.0, 10.0), Point(3.0, 5.0)) == 20.0
    ensures Area(Point(2.0, 10.0), Point(2.0, 10.0), Point(4.0, 0.0)) == 0.0
    ensures Area(Point(2.0, 10.0), Point(3.0, 5.0), Point(4.0, 0.0)) == 0.0
  {
  }

  /** Five points, four asked for: the spike is returned twice. */
  lemma {:induction false} SpikeIsKeptTwice()
    ensures Picks(SPIKE, 4, [0, 2, 2, 4])
  {
    SpikeBuckets();
    SpikeCorners();
    SpikeAreas();
    var picks := [0, 2, 2, 4];
    assert IsPick(SPIKE, 4, 0, picks[0], picks[1]);
    assert IsPick(SPIKE, 4, 1, picks[1], picks[2]);
  }
}
