/**
 * Ferguson (cubic Hermite) spline resampling of a control polyline, as in
 * `ferguson_spline`. Each of the `n - 1` segments is sampled `num` times at
 * s = 0, 1/num, ..., (num-1)/num and the last control point is appended, so
 * the result has `(n - 1) * num + 1` points and passes through every control
 * point. The Eigen matrix products are written out per sample.
 */
module Splines {
  import opened Genotype

  /** The Hermite basis matrix, one row per power of s (s^3, s^2, s, 1). */
  const HERMITE: seq<seq<real>> := [
    [2.0, 1.0, -2.0, 1.0],
    [-3.0, -2.0, 3.0, -1.0],
    [0.0, 1.0, 0.0, 0.0],
    [1.0, 0.0, 0.0, 0.0]]

  /** One row of the s matrix. */
  function PowerRow(s: real): (row: seq<real>)
    ensures |row| == 4
    ensures s == 0.0 ==> row == [0.0, 0.0, 0.0, 1.0]
  {
    [s * s * s, s * s, s, 1.0]
  }

  /** A row of the s matrix times the basis matrix: the four blending weights. */
  function RowTimesBasis(row: seq<real>): (w: seq<real>)
    requires |row| == 4
    ensures |w| == 4
    ensures row == [0.0, 0.0, 0.0, 1.0] ==> w == [1.0, 0.0, 0.0, 0.0]
  {
    seq(4, c requires 0 <= c < 4 =>
      row[0] * HERMITE[0][c] + row[1] * HERMITE[1][c] + row[2] * HERMITE[2][c] + row[3] * HERMITE[3][c])
  }

  /** The weights applied to the input matrix [P_i; T_i; P_i+1; T_i+1]. At s = 0
      the sample is the segment's first control point. */
  function Blend(row: seq<real>, p0: Point, t0: Point, p1: Point, t1: Point): (r: Point)
    requires |row| == 4
    ensures row == [0.0, 0.0, 0.0, 1.0] ==> r == p0
  {
    var w := RowTimesBasis(row);
    Point(w[0] * p0.x + w[1] * t0.x + w[2] * p1.x + w[3] * t1.x,
          w[0] * p0.y + w[1] * t0.y + w[2] * p1.y + w[3] * t1.y)
  }

  /** The velocity at control point i: backward difference at the last point,
      forward difference at the first, central difference elsewhere. */
  function Tangent(pts: Path, i: nat): Point
    requires |pts| >= 2 && i < |pts|
  {
    if i == |pts| - 1 then Point(pts[i].x - pts[i - 1].x, pts[i].y - pts[i - 1].y)
    else if i == 0 then Point(pts[i + 1].x - pts[i].x, pts[i + 1].y - pts[i].y)
    else Point((pts[i + 1].x - pts[i - 1].x) / 2.0, (pts[i + 1].y - pts[i - 1].y) / 2.0)
  }

  /** The parameter of sample j of a segment. */
  function SampleParam(j: nat, num: nat): real
    requires j < num
  {
    j as real / num as real
  }

  /** Sample at parameter s of segment i, between control points i and i + 1. */
  function HermitePoint(pts: Path, i: nat, s: real): Point
    requires |pts| >= 2 && i < |pts| - 1
  {
    Blend(PowerRow(s), pts[i], Tangent(pts, i), pts[i + 1], Tangent(pts, i + 1))
  }

  /** The `num` samples of segment i (`q_add`). */
  function SegmentSamples(pts: Path, i: nat, num: nat): (q: seq<Point>)
    requires |pts| >= 2 && i < |pts| - 1
    ensures |q| == num
    ensures num >= 1 ==> q[0] == pts[i]
  {
    seq(num, j requires 0 <= j < num => HermitePoint(pts, i, SampleParam(j, num)))
  }

  /** The samples of the first m segments, concatenated in order. */
  function Segments(pts: Path, num: nat, m: nat): (q: seq<Point>)
    requires |pts| >= 2 && m <= |pts| - 1
    ensures |q| == m * num
  {
    if m == 0 then []
    else
      var q := Segments(pts, num, m - 1) + SegmentSamples(pts, m - 1, num);
      assert (m - 1) * num + num == m * num;
      q
  }

  /** The curve `ferguson_spline(pts, num)` returns. */
  function Curve(pts: Path, num: nat): (q: seq<Point>)
    requires |pts| >= 2
    ensures |q| == (|pts| - 1) * num + 1
    ensures q[|q| - 1] == pts[|pts| - 1]
  {
    Segments(pts, num, |pts| - 1) + [pts[|pts| - 1]]
  }

  lemma {:induction false} MulBound(i: nat, j: nat, m: nat, num: nat)
    requires i < m && j < num
    ensures i * num + j < m * num
    decreases m
  {
    assert m * num == (m - 1) * num + num;
    if i < m - 1 {
      MulBound(i, j, m - 1, num);
    }
  }

  /** Sample j of segment i sits at index i * num + j. */
  lemma {:induction false} SegmentsAt(pts: Path, num: nat, m: nat, i: nat, j: nat)
    requires |pts| >= 2 && m <= |pts| - 1 && i < m && j < num
    ensures i * num + j < m * num
    ensures Segments(pts, num, m)[i * num + j] == HermitePoint(pts, i, SampleParam(j, num))
  {
    MulBound(i, j, m, num);
    if i < m - 1 {
      SegmentsAt(pts, num, m - 1, i, j);
      MulBound(i, j, m - 1, num);
    } else {
      assert |Segments(pts, num, m - 1)| == i * num;
    }
  }

  /** The curve interpolates its control polyline: every num-th sample is a
      control point, so in particular the first and last points are kept. */
  lemma CurveAtKnot(pts: Path, num: nat, i: nat)
    requires |pts| >= 2 && num >= 1 && i < |pts|
    ensures i * num < |Curve(pts, num)|
    ensures Curve(pts, num)[i * num] == pts[i]
  {
    var n := |pts|;
    if i < n - 1 {
      SegmentsAt(pts, num, n - 1, i, 0);
      assert PowerRow(SampleParam(0, num)) == [0.0, 0.0, 0.0, 1.0];
    } else {
      assert i * num == (n - 1) * num;
    }
  }

  /** The first point of a curve sampled at least once per segment is the first control point. */
  lemma CurveStartsAtFirst(pts: Path, num: nat)
    requires |pts| >= 2 && num >= 1
    ensures Curve(pts, num)[0] == pts[0]
  {
    CurveAtKnot(pts, num, 0);
  }

  /** `ferguson_spline`: the source's loops over the s matrix, the velocities
      and the segments. */
  method FergusonSpline(pts: Path, num: nat) returns (q: seq<Point>)
    requires |pts| >= 2
    ensures q == Curve(pts, num)
  {
    var n := |pts|;

    var sMat: seq<seq<real>> := [];
    var i := 0;
    while i < num
      invariant 0 <= i <= num
      invariant |sMat| == i
      invariant forall k :: 0 <= k < i ==> sMat[k] == PowerRow(SampleParam(k, num))
    {
      var s := i as real / num as real;
      sMat := sMat + [PowerRow(s)];
      i := i + 1;
    }

    var velo: seq<Point> := [];
    i := 0;
    while i < n
      invariant 0 <= i <= n
      invariant |velo| == i
      invariant forall k :: 0 <= k < i ==> velo[k] == Tangent(pts, k)
    {
      var v;
      if i == n - 1 {
        v := Point(pts[i].x - pts[i - 1].x, pts[i].y - pts[i - 1].y);
      } else if i == 0 {
        v := Point(pts[i + 1].x - pts[i].x, pts[i + 1].y - pts[i].y);
      } else {
        v := Point((pts[i + 1].x - pts[i - 1].x) / 2.0, (pts[i + 1].y - pts[i - 1].y) / 2.0);
      }
      velo := velo + [v];
      i := i + 1;
    }

    q := [];
    i := 0;
    while i < n - 1
      invariant 0 <= i <= n - 1
      invariant q == Segments(pts, num, i)
    {
      var qAdd: seq<Point> := [];
      var j := 0;
      while j < num
        invariant 0 <= j <= num
        invariant |qAdd| == j
        invariant forall k :: 0 <= k < j ==> qAdd[k] == HermitePoint(pts, i, SampleParam(k, num))
      {
        qAdd := qAdd + [Blend(sMat[j], pts[i], velo[i], pts[i + 1], velo[i + 1])];
        j := j + 1;
      }
      assert qAdd == SegmentSamples(pts, i, num);
      q := q + qAdd;
      i := i + 1;
    }
    q := q + [pts[n - 1]];
  }
}
