/** SplineInterpolator: Catmull-Rom interpolation through a rope's control
    points, and the length of a polyline. */
module Splines {
  import opened Vectors

  /** The Catmull-Rom point between p1 (t = 0) and p2 (t = 1), with p0 and
      p3 as the outer neighbours:
      0.5 * (2 p1 + (-p0 + p2) t + (2 p0 - 5 p1 + 4 p2 - p3) t^2 + (-p0 + 3 p1 - 3 p2 + p3) t^3). */
  function CatmullRomPoint(p0: Vec3, p1: Vec3, p2: Vec3, p3: Vec3, t: real): Vec3 {
    var t2 := t * t;
    var t3 := t2 * t;
    var a := Scale3(p1, 2.0);
    var b := Scale3(Add3(Neg3(p0), p2), t);
    var c := Scale3(Sub3(Add3(Sub3(Scale3(p0, 2.0), Scale3(p1, 5.0)), Scale3(p2, 4.0)), p3), t2);
    var d := Scale3(Add3(Sub3(Add3(Neg3(p0), Scale3(p1, 3.0)), Scale3(p2, 3.0)), p3), t3);
    Scale3(Add3(Add3(Add3(a, b), c), d), 0.5)
  }

  /** The curve starts at p1 and ends at p2 (exactly, over the reals). */
  lemma CatmullRomEndpoints(p0: Vec3, p1: Vec3, p2: Vec3, p3: Vec3)
    ensures CatmullRomPoint(p0, p1, p2, p3, 0.0) == p1
    ensures CatmullRomPoint(p0, p1, p2, p3, 1.0) == p2
  {
  }

  /** Index of the control point before segment i, clamped at the start. */
  function NeighbourBefore(i: int): (r: int)
    requires 0 <= i
    ensures 0 <= r <= i
  {
    MaxInt(0, i - 1)
  }

  /** Index of the control point after segment i's end, clamped at the last point. */
  function NeighbourAfter(n: int, i: int): (r: int)
    requires 0 <= i && i + 1 < n
    ensures i + 1 <= r < n
  {
    MinInt(n - 1, i + 2)
  }

  /** The samples taken on segment i (from control point i to i + 1), at
      t = j / k for j = 0 .. k - 1; none when k <= 0. */
  function SegmentSamples(cp: seq<Vec3>, i: int, k: int): (r: seq<Vec3>)
    requires 0 <= i < |cp| - 1
    ensures |r| == MaxInt(k, 0)
  {
    var p0, p1, p2, p3 := cp[NeighbourBefore(i)], cp[i], cp[i + 1], cp[NeighbourAfter(|cp|, i)];
    seq(MaxInt(k, 0), j requires 0 <= j < MaxInt(k, 0) => CatmullRomPoint(p0, p1, p2, p3, j as real / k as real))
  }

  /** The samples of the first s segments, in order. */
  function Samples(cp: seq<Vec3>, k: int, s: int): seq<Vec3>
    requires 0 <= s <= |cp| - 1
  {
    if s == 0 then [] else Samples(cp, k, s - 1) + SegmentSamples(cp, s - 1, k)
  }

  /** The interpolated path: nothing for fewer than two control points, the
      two points themselves for two, and otherwise every segment's samples
      followed by the last control point. */
  function CatmullRomCurve(cp: seq<Vec3>, k: int): seq<Vec3> {
    if |cp| < 2 then []
    else if |cp| == 2 then cp
    else Samples(cp, k, |cp| - 1) + [cp[|cp| - 1]]
  }

  method InterpolateCatmullRom(controlPoints: seq<Vec3>, samplesPerSegment: int) returns (result: seq<Vec3>)
    ensures result == CatmullRomCurve(controlPoints, samplesPerSegment)
    ensures |controlPoints| < 2 ==> result == []
    ensures |controlPoints| == 2 ==> result == controlPoints
  {
    result := [];
    var n := |controlPoints|;
    if n < 2 {
      return;
    }
    if n == 2 {
      result := result + [controlPoints[0]];
      result := result + [controlPoints[1]];
      return;
    }
    var i := 0;
    while i < n - 1
      invariant 0 <= i <= n - 1
      invariant result == Samples(controlPoints, samplesPerSegment, i)
    {
      var p0 := controlPoints[NeighbourBefore(i)];
      var p1 := controlPoints[i];
      var p2 := controlPoints[i + 1];
      var p3 := controlPoints[NeighbourAfter(n, i)];
      ghost var segment := SegmentSamples(controlPoints, i, samplesPerSegment);
      ghost var before := result;
      var j := 0;
      while j < samplesPerSegment
        invariant 0 <= j <= MaxInt(samplesPerSegment, 0)
        invariant result == before + segment[..j]
      {
        var t := j as real / samplesPerSegment as real;
        result := result + [CatmullRomPoint(p0, p1, p2, p3, t)];
        j := j + 1;
      }
      assert segment[..j] == segment;
      i := i + 1;
    }
    result := result + [controlPoints[n - 1]];
  }

  lemma {:induction false} SamplesLength(cp: seq<Vec3>, k: int, s: int)
    requires 0 <= s <= |cp| - 1
    ensures |Samples(cp, k, s)| == s * MaxInt(k, 0)
  {
    if s > 0 {
      SamplesLength(cp, k, s - 1);
      assert s * MaxInt(k, 0) == (s - 1) * MaxInt(k, 0) + MaxInt(k, 0);
    }
  }

  /** Sample j of segment i sits at position i * k + j of the samples. */
  lemma {:induction false} SamplesAt(cp: seq<Vec3>, k: int, s: int, i: int, j: int)
    requires 0 <= s <= |cp| - 1
    requires 0 <= i < s && 0 <= j < k
    ensures i * k + j < |Samples(cp, k, s)|
    ensures Samples(cp, k, s)[i * k + j] == SegmentSamples(cp, i, k)[j]
  {
    SamplesLength(cp, k, s - 1);
    SamplesLength(cp, k, s);
    assert |Samples(cp, k, s - 1)| == (s - 1) * k;
    if i < s - 1 {
      SamplesAt(cp, k, s - 1, i, j);
    } else {
      assert i * k + j == (s - 1) * k + j;
    }
  }

  /** For three or more control points the path has (n - 1) * k + 1 points
      and ends with the last control point. */
  lemma CurveShape(cp: seq<Vec3>, k: int)
    requires |cp| >= 3
    ensures |CatmullRomCurve(cp, k)| == (|cp| - 1) * MaxInt(k, 0) + 1
    ensures CatmullRomCurve(cp, k)[|CatmullRomCurve(cp, k)| - 1] == cp[|cp| - 1]
  {
    SamplesLength(cp, k, |cp| - 1);
  }

  /** The first sample of a segment is the segment's starting control point. */
  lemma SegmentStartsAtControlPoint(cp: seq<Vec3>, i: int, k: int)
    requires 0 <= i < |cp| - 1 && k >= 1
    ensures SegmentSamples(cp, i, k)[0] == cp[i]
  {
    var p0, p3 := cp[NeighbourBefore(i)], cp[NeighbourAfter(|cp|, i)];
    assert SegmentSamples(cp, i, k)[0] == CatmullRomPoint(p0, cp[i], cp[i + 1], p3, 0 as real / k as real);
    assert 0 as real / k as real == 0.0;
    CatmullRomEndpoints(p0, cp[i], cp[i + 1], p3);
  }

  /** With at least one sample per segment the path passes through every
      control point: result[i * k] is control point i. */
  lemma CurvePassesThroughControlPoints(cp: seq<Vec3>, k: int, i: int)
    requires |cp| >= 3 && k >= 1
    requires 0 <= i < |cp|
    ensures i * k < |CatmullRomCurve(cp, k)|
    ensures CatmullRomCurve(cp, k)[i * k] == cp[i]
  {
    hide CatmullRomPoint;
    CurveShape(cp, k);
    if i < |cp| - 1 {
      SamplesAt(cp, k, |cp| - 1, i, 0);
      SegmentStartsAtControlPoint(cp, i, k);
    } else {
      assert i * k == (|cp| - 1) * k;
    }
  }

  /** The total length of a path: zero for fewer than two points, else the
      sum of the distances between consecutive points. */
  method CalculatePathLength(m: MathOracle, path: seq<Vec3>) returns (length: real)
    ensures length == PolylineLength(m, path)
    ensures NonNegativeSqrt(m) ==> 0.0 <= length
  {
    if |path| < 2 {
      return 0.0;
    }
    length := 0.0;
    var i := 0;
    while i < |path| - 1
      invariant 0 <= i <= |path| - 1
      invariant length == PolylineLength(m, path[..i + 1])
    {
      assert path[..i + 2][..i + 1] == path[..i + 1];
      length := length + Distance3(m, path[i], path[i + 1]);
      i := i + 1;
    }
    assert path[..i + 1] == path;
    if NonNegativeSqrt(m) {
      PolylineLengthNonNegative(m, path);
    }
  }
}
