/** Largest-triangle-three-buckets downsampling of a time series. Bucket bounds are exact: the product of
    the bucket number and the bucket size, rounded down. Coordinates are reals. */
module Lttb {
  import opened Common

  datatype DataPoint = DataPoint(x: real, y: Option<real>)

  /** First index of bucket `i` when `n` points are reduced to `t`; also the end of the bucket before it. */
  function BucketStart(i: nat, n: nat, t: nat): nat
    requires 2 < t < n
  {
    i * (n - 2) / (t - 2) + 1
  }

  lemma {:induction false} ScaleOrder(k: nat, a: int, b: int)
    requires a <= b
    ensures k * a <= k * b
  {
    if k > 0 {
      ScaleOrder(k - 1, a, b);
      assert k * a == (k - 1) * a + a && k * b == (k - 1) * b + b;
    }
  }

  lemma CancelFactor(k: nat, a: int, b: int)
    requires k * a < k * (b + 1)
    ensures a <= b
  {
    if b < a {
      ScaleOrder(k, b + 1, a);
    }
  }

  lemma DivideAtLeast(a: nat, k: nat, q: nat)
    requires 0 < k && k * q <= a
    ensures q <= a / k
  {
    assert a == k * (a / k) + a % k;
    assert k * (a / k + 1) == k * (a / k) + k;
    CancelFactor(k, q, a / k);
  }

  lemma DivideStep(a: nat, m: nat, k: nat)
    requires 0 < k <= m
    ensures a / k < (a + m) / k
  {
    assert a == k * (a / k) + a % k;
    assert k * (a / k + 1) == k * (a / k) + k;
    DivideAtLeast(a + m, k, a / k + 1);
  }

  lemma DivideMultiple(k: nat, m: nat)
    requires 0 < k
    ensures k * m / k == m
  {
    DivideAtLeast(k * m, k, m);
    var d := k * m / k;
    assert k * d <= k * m;
    assert k * (m + 1) == k * m + k;
    CancelFactor(k, d, m);
  }

  /** Bucket `i` starts at the first index past `i` times the bucket size, (n - 2) / (t - 2). */
  lemma BucketStartIs(i: nat, n: nat, t: nat)
    requires 2 < t < n
    ensures var start := BucketStart(i, n, t);
            (t - 2) * (start - 1) <= i * (n - 2) < (t - 2) * start
  {
    var a, k := i * (n - 2), t - 2;
    assert a == k * (a / k) + a % k;
    assert k * (a / k + 1) == k * (a / k) + k;
  }

  lemma BucketGrows(i: nat, n: nat, t: nat)
    requires 2 < t < n
    ensures BucketStart(i, n, t) < BucketStart(i + 1, n, t)
  {
    assert (i + 1) * (n - 2) == i * (n - 2) + (n - 2);
    DivideStep(i * (n - 2), n - 2, t - 2);
  }

  lemma {:induction false} BucketsOrdered(i: nat, j: nat, n: nat, t: nat)
    requires 2 < t < n && i <= j
    ensures BucketStart(i, n, t) + (j - i) <= BucketStart(j, n, t)
    decreases j - i
  {
    if i < j {
      BucketGrows(j - 1, n, t);
      BucketsOrdered(i, j - 1, n, t);
    }
  }

  lemma BucketEnds(n: nat, t: nat)
    requires 2 < t < n
    ensures BucketStart(0, n, t) == 1 && BucketStart(t - 2, n, t) == n - 1
    ensures n <= BucketStart(t - 1, n, t)
  {
    DivideMultiple(t - 2, n - 2);
    BucketGrows(t - 2, n, t);
  }

  /** The buckets split the indices 1 to n - 2 into non-empty ranges: each index is in exactly one. */
  lemma {:induction false} BucketsPartition(index: nat, n: nat, t: nat, upTo: nat) returns (i: nat)
    requires 2 < t < n && 0 < upTo <= t - 2
    requires 1 <= index < BucketStart(upTo, n, t)
    ensures i < upTo && BucketStart(i, n, t) <= index < BucketStart(i + 1, n, t)
    ensures forall j: nat | j < t - 2 && BucketStart(j, n, t) <= index < BucketStart(j + 1, n, t) :: j == i
  {
    BucketEnds(n, t);
    if BucketStart(upTo - 1, n, t) <= index {
      i := upTo - 1;
    } else {
      i := BucketsPartition(index, n, t, upTo - 1);
    }
    forall j: nat | j < t - 2 && BucketStart(j, n, t) <= index < BucketStart(j + 1, n, t) ensures j == i {
      if j < i {
        BucketsOrdered(j + 1, i, n, t);
      } else if i < j {
        BucketsOrdered(i + 1, j, n, t);
      }
    }
  }

  // ---- choosing one point of a bucket ----

  function YOr(p: DataPoint, default: real): real {
    if p.y.Some? then p.y.value else default
  }

  /** Sums of the coordinates, and the number, of the points with a value in a range. */
  function Sums(data: seq<DataPoint>, lo: nat, hi: nat): (real, real, nat)
    requires lo <= hi <= |data|
  {
    if lo == hi then (0.0, 0.0, 0)
    else
      var (sx, sy, count) := Sums(data, lo, hi - 1);
      var p := data[hi - 1];
      if p.y.None? then (sx, sy, count) else (sx + p.x, sy + p.y.value, count + 1)
  }

  /** The average of the points with a value in a range; the last point if there is none. */
  function Anchor(data: seq<DataPoint>, lo: nat, hi: nat): (real, real)
    requires lo <= hi <= |data| && 0 < |data|
  {
    var (sx, sy, count) := Sums(data, lo, hi);
    var last := data[|data| - 1];
    if count == 0 then (last.x, YOr(last, 0.0)) else (sx / count as real, sy / count as real)
  }

  /** How far the points with a value lie from (x, y), added up in each coordinate. */
  function Deviation(data: seq<DataPoint>, lo: nat, hi: nat, x: real, y: real): (real, real)
    requires lo <= hi <= |data|
  {
    if lo == hi then (0.0, 0.0)
    else
      var (dx, dy) := Deviation(data, lo, hi - 1, x, y);
      var p := data[hi - 1];
      if p.y.None? then (dx, dy) else (dx + (p.x - x), dy + (p.y.value - y))
  }

  function Times(n: nat, x: real): real {
    if n == 0 then 0.0 else Times(n - 1, x) + x
  }

  lemma {:induction false} TimesIs(n: nat, x: real)
    ensures Times(n, x) == n as real * x
  {
    if n > 0 {
      TimesIs(n - 1, x);
    }
  }

  lemma {:induction false} DeviationIs(data: seq<DataPoint>, lo: nat, hi: nat, x: real, y: real)
    requires lo <= hi <= |data|
    ensures Deviation(data, lo, hi, x, y).0 == Sums(data, lo, hi).0 - Times(Sums(data, lo, hi).2, x)
    ensures Deviation(data, lo, hi, x, y).1 == Sums(data, lo, hi).1 - Times(Sums(data, lo, hi).2, y)
  {
    if lo < hi {
      DeviationIs(data, lo, hi - 1, x, y);
    }
  }

  predicate NoValues(data: seq<DataPoint>, lo: nat, hi: nat)
    requires lo <= hi <= |data|
  {
    forall k :: lo <= k < hi ==> data[k].y.None?
  }

  lemma {:induction false} CountedIffValued(data: seq<DataPoint>, lo: nat, hi: nat)
    requires lo <= hi <= |data|
    ensures Sums(data, lo, hi).2 == 0 <==> NoValues(data, lo, hi)
  {
    if lo < hi {
      CountedIffValued(data, lo, hi - 1);
    }
  }

  lemma Quotient(s: real, n: nat, x: real)
    requires n > 0
    ensures s / n as real == x <==> s - Times(n, x) == 0.0
  {
    TimesIs(n, x);
    QuotientIs(s, n as real, x);
  }

  lemma QuotientIs(s: real, c: real, x: real)
    requires c > 0.0
    ensures s / c == x <==> s - c * x == 0.0
  {
    var q := s / c;
    assert c * q == s;
    if s - c * x == 0.0 {
      assert c * (q - x) == c * q - c * x == 0.0;
    }
  }

  /** The anchor is the one point from which the points with a value deviate by nothing in total; a range
      without values has the last point of all, at height zero if that has no value either. */
  lemma AnchorIsAverage(data: seq<DataPoint>, lo: nat, hi: nat, x: real, y: real)
    requires lo <= hi <= |data| && 0 < |data|
    ensures !NoValues(data, lo, hi) ==>
              (Anchor(data, lo, hi) == (x, y) <==> Deviation(data, lo, hi, x, y) == (0.0, 0.0))
    ensures NoValues(data, lo, hi) ==> Anchor(data, lo, hi) == Spot(data[|data| - 1], 0.0)
  {
    CountedIffValued(data, lo, hi);
    DeviationIs(data, lo, hi, x, y);
    var (sx, sy, count) := Sums(data, lo, hi);
    if count > 0 {
      Quotient(sx, count, x);
      Quotient(sy, count, y);
    }
  }

  // ---- triangles ----

  /** Where a point is drawn; `height` stands in for a missing value. */
  function Spot(p: DataPoint, height: real): (real, real) {
    (p.x, if p.y.Some? then p.y.value else height)
  }

  function Determinant(p: (real, real), q: (real, real), r: (real, real)): real {
    p.0 * (q.1 - r.1) + q.0 * (r.1 - p.1) + r.0 * (p.1 - q.1)
  }

  /** Twice the area of a triangle, by the shoelace formula. */
  function Shoelace(p: (real, real), q: (real, real), r: (real, real)): (area: real)
    ensures 0.0 <= area
    ensures area == Determinant(p, q, r) || area == -Determinant(p, q, r)
  {
    if Determinant(p, q, r) < 0.0 then -Determinant(p, q, r) else Determinant(p, q, r)
  }

  /** All three lie on one line a * x + b * y == c. */
  ghost predicate Collinear(p: (real, real), q: (real, real), r: (real, real)) {
    exists a: real, b: real, c: real :: OnLine(a, b, c, p) && OnLine(a, b, c, q) && OnLine(a, b, c, r)
  }

  predicate OnLine(a: real, b: real, c: real, p: (real, real)) {
    (a != 0.0 || b != 0.0) && a * p.0 + b * p.1 == c
  }

  lemma ProductIsZero(a: real, d: real)
    requires a != 0.0 && a * d == 0.0
    ensures d == 0.0
  {
  }

  lemma ThreeOnLine(a: real, b: real, c: real, p: (real, real), q: (real, real), r: (real, real))
    requires OnLine(a, b, c, p) && OnLine(a, b, c, q) && OnLine(a, b, c, r)
    ensures Determinant(p, q, r) == 0.0
  {
    var d := Determinant(p, q, r);
    if a != 0.0 {
      assert a * d == (a * p.0) * (q.1 - r.1) + (a * q.0) * (r.1 - p.1) + (a * r.0) * (p.1 - q.1);
      assert a * d == (c - b * p.1) * (q.1 - r.1) + (c - b * q.1) * (r.1 - p.1) + (c - b * r.1) * (p.1 - q.1);
      ProductIsZero(a, d);
    } else {
      assert d == -(p.1 * (q.0 - r.0) + q.1 * (r.0 - p.0) + r.1 * (p.0 - q.0));
      assert b * d == -((b * p.1) * (q.0 - r.0) + (b * q.1) * (r.0 - p.0) + (b * r.1) * (p.0 - q.0));
      assert b * d == -(c * (q.0 - r.0) + c * (r.0 - p.0) + c * (p.0 - q.0));
      ProductIsZero(b, d);
    }
  }

  /** The line through two different points meets any third that makes no triangle with them. */
  lemma LineThrough(p: (real, real), q: (real, real), r: (real, real))
    requires p != q && Determinant(p, q, r) == 0.0
    ensures Collinear(p, q, r)
  {
    var a, b := q.1 - p.1, p.0 - q.0;
    var c := a * p.0 + b * p.1;
    assert a * r.0 + b * r.1 - c == Determinant(p, q, r) || a * r.0 + b * r.1 - c == -Determinant(p, q, r);
    assert OnLine(a, b, c, p) && OnLine(a, b, c, q) && OnLine(a, b, c, r);
  }

  /** A triangle has no area exactly when its corners lie on one line. */
  lemma FlatIffCollinear(p: (real, real), q: (real, real), r: (real, real))
    ensures Shoelace(p, q, r) == 0.0 <==> Collinear(p, q, r)
  {
    if a, b, c :| OnLine(a, b, c, p) && OnLine(a, b, c, q) && OnLine(a, b, c, r) {
      ThreeOnLine(a, b, c, p, q, r);
    }
    if Shoelace(p, q, r) == 0.0 {
      if p != q {
        LineThrough(p, q, r);
      } else if p != r {
        assert Determinant(p, r, q) == 0.0;
        LineThrough(p, r, q);
        var a, b, c :| OnLine(a, b, c, p) && OnLine(a, b, c, r) && OnLine(a, b, c, q);
        assert OnLine(a, b, c, p) && OnLine(a, b, c, q) && OnLine(a, b, c, r);
      } else {
        assert OnLine(1.0, 0.0, p.0, p) && OnLine(1.0, 0.0, p.0, q) && OnLine(1.0, 0.0, p.0, r);
      }
    }
  }

  /** The order of the corners does not matter, nor does moving all three alike; stretching one coordinate
      stretches the area. */
  lemma ShoelaceInvariant(p: (real, real), q: (real, real), r: (real, real), dx: real, dy: real, k: real)
    ensures Shoelace(p, q, r) == Shoelace(q, p, r) == Shoelace(q, r, p) == Shoelace(p, r, q)
    ensures Shoelace((p.0 + dx, p.1 + dy), (q.0 + dx, q.1 + dy), (r.0 + dx, r.1 + dy)) == Shoelace(p, q, r)
    ensures 0.0 <= k ==> Shoelace((p.0, k * p.1), (q.0, k * q.1), (r.0, k * r.1)) == k * Shoelace(p, q, r)
  {
    assert Determinant(p, q, r) == -Determinant(q, p, r) == Determinant(q, r, p) == -Determinant(p, r, q);
    var m := Determinant((p.0 + dx, p.1 + dy), (q.0 + dx, q.1 + dy), (r.0 + dx, r.1 + dy));
    assert m == (p.0 + dx) * (q.1 - r.1) + (q.0 + dx) * (r.1 - p.1) + (r.0 + dx) * (p.1 - q.1);
    assert m == Determinant(p, q, r);
  }

  function Abs(r: real): (a: real)
    ensures 0.0 <= a
  {
    if r < 0.0 then -r else r
  }

  /** Twice the area of the triangle of the point chosen before, a candidate and the anchor, each where it is
      drawn: a candidate without a value at the height of the point before. */
  function Triangle(previous: DataPoint, candidate: DataPoint, anchor: (real, real)): real {
    Shoelace(Spot(previous, 0.0), Spot(candidate, Spot(previous, 0.0).1), anchor)
  }

  /** As the loop computes it. */
  function Area(previous: DataPoint, candidate: DataPoint, anchor: (real, real)): (area: real)
    ensures area == Triangle(previous, candidate, anchor)
  {
    var ay := YOr(previous, 0.0);
    SameDeterminant(Spot(previous, 0.0), Spot(candidate, ay), anchor);
    Abs((previous.x - anchor.0) * (YOr(candidate, ay) - ay) - (previous.x - candidate.x) * (anchor.1 - ay))
  }

  lemma SameDeterminant(p: (real, real), q: (real, real), r: (real, real))
    ensures (p.0 - r.0) * (q.1 - p.1) - (p.0 - q.0) * (r.1 - p.1) == Determinant(p, q, r)
  {
  }

  /** The triangles of each of the first `m` points as candidate. */
  function TrianglesUpTo(data: seq<DataPoint>, previous: DataPoint, anchor: (real, real), m: nat)
    : (areas: seq<real>)
    requires m <= |data|
    ensures |areas| == m
  {
    if m == 0 then []
    else TrianglesUpTo(data, previous, anchor, m - 1) + [Triangle(previous, data[m - 1], anchor)]
  }

  function Triangles(data: seq<DataPoint>, previous: DataPoint, anchor: (real, real)): (areas: seq<real>)
    ensures |areas| == |data|
  {
    TrianglesUpTo(data, previous, anchor, |data|)
  }

  lemma {:induction false} TriangleAt(data: seq<DataPoint>, previous: DataPoint, anchor: (real, real), m: nat, k: nat)
    requires k < m <= |data|
    ensures TrianglesUpTo(data, previous, anchor, m)[k] == Triangle(previous, data[k], anchor)
  {
    if k < m - 1 {
      TriangleAt(data, previous, anchor, m - 1, k);
    }
  }

  /** `j` is the first index of the largest area in a range. */
  predicate FirstLargest(areas: seq<real>, lo: nat, hi: nat, j: nat)
    requires lo < hi <= |areas|
  {
    && lo <= j < hi
    && (forall k :: lo <= k < hi ==> areas[k] <= areas[j])
    && (forall k :: lo <= k < j ==> areas[k] < areas[j])
  }

  function Choose(areas: seq<real>, lo: nat, hi: nat): (j: nat)
    requires lo < hi <= |areas|
    ensures FirstLargest(areas, lo, hi, j)
  {
    if hi == lo + 1 then lo
    else
      var best := Choose(areas, lo, hi - 1);
      if areas[best] < areas[hi - 1] then hi - 1 else best
  }

  // ---- the whole selection ----

  function NextEnd(i: nat, n: nat, t: nat): nat
    requires 2 < t < n
  {
    Min(BucketStart(i + 2, n, t), n)
  }

  /** `idx` selects the first and last point and, from each bucket, the first point whose triangle with the
      point selected before and the average of the next bucket is largest. */
  ghost predicate IsSelection(data: seq<DataPoint>, t: nat, idx: seq<nat>)
    requires 2 < t < |data|
  {
    var n := |data|;
    && |idx| == t
    && idx[0] == 0 && idx[t - 1] == n - 1
    && forall i: nat :: i < t - 2 ==> SelectedIn(data, t, i, idx[i], idx[i + 1])
  }

  ghost predicate SelectedIn(data: seq<DataPoint>, t: nat, i: nat, previous: nat, chosen: nat)
    requires 2 < t < |data|
  {
    var n := |data|;
    var lo, hi := BucketStart(i, n, t), BucketStart(i + 1, n, t);
    && previous < n
    && lo < hi <= NextEnd(i, n, t)
    && FirstLargest(Triangles(data, data[previous], Anchor(data, hi, NextEnd(i, n, t))), lo, hi, chosen)
  }

  lemma BucketBounds(i: nat, n: nat, t: nat)
    requires 2 < t < n && i < t - 2
    ensures 1 <= BucketStart(i, n, t) < BucketStart(i + 1, n, t) <= n - 1
    ensures BucketStart(i + 1, n, t) < NextEnd(i, n, t) <= n
  {
    BucketEnds(n, t);
    BucketsOrdered(i + 1, t - 2, n, t);
    BucketGrows(i, n, t);
    BucketGrows(i + 1, n, t);
    BucketsOrdered(0, i, n, t);
  }

  function Pick(data: seq<DataPoint>, t: nat, i: nat, previous: nat): (chosen: nat)
    requires 2 < t < |data| && i < t - 2 && previous < |data|
    ensures chosen < |data| && SelectedIn(data, t, i, previous, chosen)
  {
    var n := |data|;
    BucketBounds(i, n, t);
    var lo, hi := BucketStart(i, n, t), BucketStart(i + 1, n, t);
    Choose(Triangles(data, data[previous], Anchor(data, hi, NextEnd(i, n, t))), lo, hi)
  }

  /** The indices selected from the first `i` buckets, after the first point. */
  function Picks(data: seq<DataPoint>, t: nat, i: nat): (idx: seq<nat>)
    requires 2 < t < |data| && i <= t - 2
    ensures |idx| == i + 1 && forall k :: 0 <= k <= i ==> idx[k] < |data|
  {
    if i == 0 then [0]
    else
      var front := Picks(data, t, i - 1);
      front + [Pick(data, t, i - 1, front[i - 1])]
  }

  function LttbIndices(data: seq<DataPoint>, t: nat): (idx: seq<nat>)
    requires 2 < t < |data|
    ensures |idx| == t && forall k :: 0 <= k < t ==> idx[k] < |data|
  {
    Picks(data, t, t - 2) + [|data| - 1]
  }

  lemma {:induction false} PicksAreSelected(data: seq<DataPoint>, t: nat, i: nat)
    requires 2 < t < |data| && i <= t - 2
    ensures Picks(data, t, i)[0] == 0
    ensures forall k: nat :: k < i ==> SelectedIn(data, t, k, Picks(data, t, i)[k], Picks(data, t, i)[k + 1])
  {
    if i > 0 {
      PicksAreSelected(data, t, i - 1);
      var front, idx := Picks(data, t, i - 1), Picks(data, t, i);
      forall k: nat | k < i ensures SelectedIn(data, t, k, idx[k], idx[k + 1]) {
        if k < i - 1 {
          assert SelectedIn(data, t, k, front[k], front[k + 1]);
        }
      }
    }
  }

  lemma {:induction false} PicksAreUnique(data: seq<DataPoint>, t: nat, i: nat, idx: seq<nat>)
    requires 2 < t < |data| && i <= t - 2 && i < |idx| && idx[0] == 0
    requires forall k: nat :: k < i ==> SelectedIn(data, t, k, idx[k], idx[k + 1])
    ensures idx[..i + 1] == Picks(data, t, i)
  {
    if i == 0 {
      assert idx[..1] == [0];
    } else {
      PicksAreUnique(data, t, i - 1, idx);
      PicksAreSelected(data, t, i);
      assert Picks(data, t, i)[..i] == Picks(data, t, i - 1) == idx[..i];
      assert SelectedIn(data, t, i - 1, idx[i - 1], idx[i]);
      assert idx[i - 1] == Picks(data, t, i)[i - 1];
      assert idx[i] == Picks(data, t, i)[i];
    }
  }

  /** There is exactly one selection, and it is what the buckets' picks make up. */
  lemma SelectionIsUnique(data: seq<DataPoint>, t: nat, idx: seq<nat>)
    requires 2 < t < |data|
    ensures IsSelection(data, t, idx) <==> idx == LttbIndices(data, t)
  {
    PicksAreSelected(data, t, t - 2);
    if IsSelection(data, t, idx) {
      PicksAreUnique(data, t, t - 2, idx);
      assert idx == idx[..t - 1] + [idx[t - 1]];
    }
  }

  /** From each bucket a selection takes the first point with the largest triangle of the point selected
      before, the candidate and the average of the next bucket. */
  lemma SelectedIsLargest(data: seq<DataPoint>, t: nat, idx: seq<nat>, i: nat, k: nat)
    requires 2 < t < |data| && IsSelection(data, t, idx) && i < t - 2
    requires BucketStart(i, |data|, t) <= k < BucketStart(i + 1, |data|, t) <= NextEnd(i, |data|, t)
    ensures idx[i] < |data| && idx[i + 1] < |data| && k < |data|
    ensures var anchor := Anchor(data, BucketStart(i + 1, |data|, t), NextEnd(i, |data|, t));
            var p := Spot(data[idx[i]], 0.0);
            var chosen, other := Spot(data[idx[i + 1]], p.1), Spot(data[k], p.1);
            && Shoelace(p, other, anchor) <= Shoelace(p, chosen, anchor)
            && (k < idx[i + 1] ==> Shoelace(p, other, anchor) < Shoelace(p, chosen, anchor))
  {
    assert SelectedIn(data, t, i, idx[i], idx[i + 1]);
    var anchor := Anchor(data, BucketStart(i + 1, |data|, t), NextEnd(i, |data|, t));
    TriangleAt(data, data[idx[i]], anchor, |data|, k);
    TriangleAt(data, data[idx[i]], anchor, |data|, idx[i + 1]);
  }

  /** Exactly `t` points at strictly increasing indices, the first and last included. */
  lemma SelectionIsIncreasing(data: seq<DataPoint>, t: nat, a: nat, b: nat)
    requires 2 < t < |data| && a < b < t
    ensures |LttbIndices(data, t)| == t
    ensures LttbIndices(data, t)[0] == 0 && LttbIndices(data, t)[t - 1] == |data| - 1
    ensures LttbIndices(data, t)[a] < LttbIndices(data, t)[b]
  {
    var n, idx := |data|, LttbIndices(data, t);
    SelectionIsUnique(data, t, idx);
    BucketEnds(n, t);
    if a > 0 {
      assert SelectedIn(data, t, a - 1, idx[a - 1], idx[a]);
      BucketsOrdered(a, if b == t - 1 then t - 2 else b - 1, n, t);
    }
    if b < t - 1 {
      assert SelectedIn(data, t, b - 1, idx[b - 1], idx[b]);
      BucketsOrdered(0, b - 1, n, t);
    }
  }

  function AtUpTo<T>(records: seq<T>, idx: seq<nat>, m: nat): (out: seq<T>)
    requires m <= |idx| && forall k :: 0 <= k < |idx| ==> idx[k] < |records|
    ensures |out| == m && forall k :: 0 <= k < m ==> out[k] == records[idx[k]]
  {
    if m == 0 then [] else AtUpTo(records, idx, m - 1) + [records[idx[m - 1]]]
  }

  /** The records at the given indices. */
  function At<T>(records: seq<T>, idx: seq<nat>): (out: seq<T>)
    requires forall k :: 0 <= k < |idx| ==> idx[k] < |records|
    ensures |out| == |idx| && forall k :: 0 <= k < |idx| ==> out[k] == records[idx[k]]
  {
    AtUpTo(records, idx, |idx|)
  }

  function LttbPoints(data: seq<DataPoint>, threshold: int): seq<DataPoint> {
    if threshold >= |data| || threshold <= 2 then data else At(data, LttbIndices(data, threshold))
  }

  /** The loops of the algorithm. No bucket is empty, so none is skipped. */
  method Downsample(data: seq<DataPoint>, threshold: int) returns (sampled: seq<DataPoint>)
    ensures sampled == LttbPoints(data, threshold)
    ensures threshold >= |data| || threshold <= 2 ==> sampled == data
    ensures 2 < threshold < |data| ==>
              exists idx :: IsSelection(data, threshold, idx) && PointsAt(data, idx, sampled)
  {
    var n := |data|;
    if threshold >= n || threshold <= 2 {
      return data;
    }
    sampled := SampleBuckets(data, threshold);
    LastPick(data, threshold);
    AtAppend(data, Picks(data, threshold, threshold - 2), n - 1);
    sampled := sampled + [data[n - 1]];
    SelectionIsUnique(data, threshold, LttbIndices(data, threshold));
    assert PointsAt(data, LttbIndices(data, threshold), sampled);
  }

  predicate PointsAt(data: seq<DataPoint>, idx: seq<nat>, points: seq<DataPoint>) {
    |points| == |idx| && forall k :: 0 <= k < |idx| ==> idx[k] < |data| && points[k] == data[idx[k]]
  }

  method SampleBuckets(data: seq<DataPoint>, t: nat) returns (sampled: seq<DataPoint>)
    requires 2 < t < |data|
    ensures sampled == At(data, Picks(data, t, t - 2))
  {
    sampled := [data[0]];
    var a := 0;
    ghost var idx := [0];
    for i := 0 to t - 2
      invariant idx == Picks(data, t, i) && a == idx[i]
      invariant sampled == At(data, idx)
    {
      var chosen := PickFromBucket(data, t, i, a);
      NextPick(data, t, i, idx, chosen);
      AtAppend(data, idx, chosen);
      idx := idx + [chosen];
      sampled := sampled + [data[chosen]];
      a := chosen;
    }
  }

  lemma NextPick(data: seq<DataPoint>, t: nat, i: nat, idx: seq<nat>, chosen: nat)
    requires 2 < t < |data| && i < t - 2
    requires idx == Picks(data, t, i) && chosen == Pick(data, t, i, idx[i])
    ensures idx + [chosen] == Picks(data, t, i + 1)
  {
  }

  lemma AtAppend(data: seq<DataPoint>, idx: seq<nat>, chosen: nat)
    requires (forall k :: 0 <= k < |idx| ==> idx[k] < |data|) && chosen < |data|
    ensures At(data, idx + [chosen]) == At(data, idx) + [data[chosen]]
  {
  }

  lemma LastPick(data: seq<DataPoint>, t: nat)
    requires 2 < t < |data|
    ensures LttbPoints(data, t) == At(data, Picks(data, t, t - 2) + [|data| - 1])
  {
  }

  method PickFromBucket(data: seq<DataPoint>, t: nat, i: nat, a: nat) returns (chosen: nat)
    requires 2 < t < |data| && i < t - 2 && a < |data|
    ensures chosen == Pick(data, t, i, a)
  {
    var start, end, nextEnd := BucketRange(i, |data|, t);
    var anchor := AverageOf(data, end, nextEnd);
    chosen := LargestTriangle(data, data[a], anchor, start, end);
  }

  /** Where a bucket starts and ends and where the next one ends. The two cut-offs never apply to the
      bucket itself: its end is at most the last index. */
  method BucketRange(i: nat, n: nat, t: nat) returns (start: nat, end: nat, nextEnd: nat)
    requires 2 < t < n && i < t - 2
    ensures start == BucketStart(i, n, t) && end == BucketStart(i + 1, n, t) && nextEnd == NextEnd(i, n, t)
    ensures 1 <= start < end < nextEnd <= n
  {
    BucketBounds(i, n, t);
    start := i * (n - 2) / (t - 2) + 1;
    end := Min((i + 1) * (n - 2) / (t - 2) + 1, n - 1);
    nextEnd := Min((i + 2) * (n - 2) / (t - 2) + 1, n);
  }

  method AverageOf(data: seq<DataPoint>, lo: nat, hi: nat) returns (anchor: (real, real))
    requires lo <= hi <= |data| && 0 < |data|
    ensures anchor == Anchor(data, lo, hi)
  {
    var avgX, avgY, avgCount := 0.0, 0.0, 0;
    for k := lo to hi
      invariant (avgX, avgY, avgCount) == Sums(data, lo, k)
    {
      var yk := data[k].y;
      if yk.None? {
        continue;
      }
      avgX, avgY, avgCount := avgX + data[k].x, avgY + yk.value, avgCount + 1;
    }
    if avgCount == 0 {
      var last := data[|data| - 1];
      anchor := (last.x, YOr(last, 0.0));
    } else {
      anchor := (avgX / avgCount as real, avgY / avgCount as real);
    }
  }

  method LargestTriangle(data: seq<DataPoint>, previous: DataPoint, anchor: (real, real), start: nat, end: nat)
    returns (chosen: nat)
    requires start < end <= |data|
    ensures chosen == Choose(Triangles(data, previous, anchor), start, end)
  {
    ghost var areas := Triangles(data, previous, anchor);
    var maxArea := -1.0;
    chosen := start;
    for j := start to end
      invariant j == start ==> maxArea == -1.0
      invariant start < j ==> chosen == Choose(areas, start, j) && maxArea == areas[chosen]
    {
      var area := Area(previous, data[j], anchor);
      TriangleAt(data, previous, anchor, |data|, j);
      if area > maxArea {
        maxArea := area;
        chosen := j;
      }
    }
  }

  // ---- records ----

  /** A record of the chart: its time, the value that represents it when areas are compared, and the other
      values drawn from it. */
  datatype Sample = Sample(x: real, y: Option<real>, others: seq<Option<real>>)

  function PointsOf(records: seq<Sample>): seq<DataPoint> {
    seq(|records|, k requires 0 <= k < |records| => DataPoint(records[k].x, records[k].y))
  }

  /** The records behind the selected points. */
  function LttbRecords(records: seq<Sample>, threshold: int): seq<Sample> {
    if |records| <= threshold || threshold <= 2 then records
    else At(records, LttbIndices(PointsOf(records), threshold))
  }

  predicate Ascending(records: seq<Sample>) {
    forall i, j :: 0 <= i < j < |records| ==> records[i].x <= records[j].x
  }

  /** Each of `out` is one of `records`, none more often than it is there. */
  ghost predicate TakenFrom(out: seq<Sample>, records: seq<Sample>) {
    multiset(out) <= multiset(records)
  }

  lemma PrefixTaken(records: seq<Sample>, i: nat, j: nat)
    requires i <= j <= |records|
    ensures TakenFrom(records[..i], records[..j])
  {
    assert records[..j] == records[..i] + records[i..j];
  }

  lemma TakenTransitive(a: seq<Sample>, b: seq<Sample>, c: seq<Sample>)
    requires TakenFrom(a, b) && TakenFrom(b, c)
    ensures TakenFrom(a, c)
  {
  }

  lemma TakenAppended(out: seq<Sample>, records: seq<Sample>, last: Sample)
    requires TakenFrom(out, records)
    ensures TakenFrom(out + [last], records + [last])
  {
  }

  lemma {:induction false} AtTaken(records: seq<Sample>, idx: seq<nat>, m: nat, end: nat)
    requires m <= |idx| && end <= |records| && forall k :: 0 <= k < |idx| ==> idx[k] < |records|
    requires forall i, j :: 0 <= i < j < |idx| ==> idx[i] < idx[j]
    requires 0 < m ==> idx[m - 1] < end
    ensures TakenFrom(AtUpTo(records, idx, m), records[..end])
  {
    if m > 0 {
      var last := idx[m - 1];
      var front := AtUpTo(records, idx, m - 1);
      AtTaken(records, idx, m - 1, last);
      TakenAppended(front, records[..last], records[last]);
      assert records[..last + 1] == records[..last] + [records[last]];
      PrefixTaken(records, last + 1, end);
      TakenTransitive(front + [records[last]], records[..last + 1], records[..end]);
    }
  }

  /** Downsampling keeps ascending records ascending, keeps the first and last, and takes no others than
      given and none twice; the result has exactly `threshold` records whenever there were more. */
  lemma RecordsStayAscending(records: seq<Sample>, threshold: int)
    requires Ascending(records)
    ensures var out := LttbRecords(records, threshold);
            && Ascending(out)
            && TakenFrom(out, records)
            && |out| == (if 2 < threshold then Min(threshold, |records|) else |records|)
            && (records != [] ==> out != [] && out[0] == records[0] && out[|out| - 1] == records[|records| - 1])
  {
    if 2 < threshold < |records| {
      SelectedAscending(records, PointsOf(records), threshold);
    }
  }

  /** The records are those at the indices selected for their times and representing values. */
  lemma RecordsAreSelected(records: seq<Sample>, data: seq<DataPoint>, threshold: int)
    requires |data| == |records|
    requires forall k :: 0 <= k < |data| ==> data[k] == DataPoint(records[k].x, records[k].y)
    ensures threshold >= |records| || threshold <= 2 ==> LttbRecords(records, threshold) == records
    ensures 2 < threshold < |records| ==>
              IsSelection(data, threshold, LttbIndices(data, threshold))
              && LttbRecords(records, threshold) == At(records, LttbIndices(data, threshold))
  {
    assert PointsOf(records) == data;
    if 2 < threshold < |records| {
      SelectionIsUnique(data, threshold, LttbIndices(data, threshold));
    }
  }

  lemma SelectedAscending(records: seq<Sample>, data: seq<DataPoint>, threshold: nat)
    requires Ascending(records) && |data| == |records| && 2 < threshold < |data|
    ensures var out := At(records, LttbIndices(data, threshold));
            && Ascending(out) && TakenFrom(out, records)
            && out[0] == records[0] && out[threshold - 1] == records[|records| - 1]
  {
    var idx := LttbIndices(data, threshold);
    SelectionIsIncreasing(data, threshold, 0, threshold - 1);
    forall i, j | 0 <= i < j < threshold ensures idx[i] < idx[j] {
      SelectionIsIncreasing(data, threshold, i, j);
    }
    IncreasingAscending(records, idx);
  }

  lemma IncreasingAscending(records: seq<Sample>, idx: seq<nat>)
    requires Ascending(records) && forall k :: 0 <= k < |idx| ==> idx[k] < |records|
    requires forall i, j :: 0 <= i < j < |idx| ==> idx[i] < idx[j]
    ensures Ascending(At(records, idx)) && TakenFrom(At(records, idx), records)
  {
    AtTaken(records, idx, |idx|, |records|);
    assert records[..|records|] == records;
  }
}
