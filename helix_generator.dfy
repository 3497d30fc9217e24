/** HelixGenerator: the sample points of the detour a rope takes over a
    crossing (a helix around the lower rope, or a plain arch), and the
    clamping of the helix parameters. Sine, cosine and normalisation come
    from a MathOracle; only counts, offsets and clamping are proved. */
module Helices {
  import opened Vectors

  const DefaultHeight: real := 0.8
  const DefaultWrapCount: int := 1
  const DefaultSamples: int := 20
  const DefaultRadiusMargin: real := 0.15
  const DefaultProgressLength: real := 0.8
  /** The defaults of GenerateArchPath's optional parameters. */
  const DefaultArchLength: real := 0.5
  const DefaultArchSamples: int := 10

  /** Squared length below which a direction counts as zero. */
  const MinSqrLength: real := 0.001

  /** A direction too short to normalise is replaced by the x axis. */
  function DirectionOrRight(dir: Vec3): (r: Vec3)
    ensures SqrMagnitude3(r) >= MinSqrLength
    ensures SqrMagnitude3(dir) >= MinSqrLength ==> r == dir
    ensures SqrMagnitude3(dir) < MinSqrLength ==> r == Right3
  {
    if SqrMagnitude3(dir) < MinSqrLength then Right3 else dir
  }

  /** The radius the helix keeps around the rope it wraps. */
  function HelixRadius(tubeRadius: real): (r: real)
    ensures r > tubeRadius
    ensures r - tubeRadius == DefaultRadiusMargin
  {
    tubeRadius + DefaultRadiusMargin
  }

  /** The sample parameter i / samples. The source divides floats, so
      samples == 0 gives 0/0; the model uses 0 there. */
  function SampleParam(i: int, samples: int): real {
    if samples == 0 then 0.0 else (i as real) / (samples as real)
  }

  /** Offset along the rope direction, centred on the crossing. */
  function ProgressOffset(t: real, length: real): real {
    (t - 0.5) * length
  }

  /** The orthonormal frame the helix turns in: the rope direction, a side
      vector and the vector perpendicular to both. */
  datatype HelixFrame = HelixFrame(dir: Vec3, right: Vec3, perpUp: Vec3)

  function Frame(m: MathOracle, ropeDirection: Vec3): HelixFrame {
    var d := Normalized3(m, DirectionOrRight(ropeDirection));
    var side := Cross3(d, Forward3);
    var right := Normalized3(m, if SqrMagnitude3(side) < MinSqrLength then Cross3(d, Up3) else side);
    HelixFrame(d, right, Normalized3(m, Cross3(right, d)))
  }

  function HelixPoint(m: MathOracle, center: Vec3, f: HelixFrame, tubeRadius: real,
                      height: real, wrapCount: int, t: real): Vec3
  {
    var angle := t * (wrapCount as real) * Pi * 2.0;
    var zLift := height * m.sin(t * Pi);
    var radial := Add3(Scale3(f.right, m.cos(angle)), Scale3(f.perpUp, m.sin(angle)));
    Add3(Add3(Add3(center, Scale3(f.dir, ProgressOffset(t, DefaultProgressLength))),
              Scale3(radial, HelixRadius(tubeRadius))),
         Vec3(0.0, 0.0, -zLift))
  }

  /** The first n helix samples. */
  function HelixPrefix(m: MathOracle, center: Vec3, f: HelixFrame, tubeRadius: real,
                       height: real, wrapCount: int, samples: int, n: nat): (r: seq<Vec3>)
    ensures |r| == n
    ensures forall i :: 0 <= i < n ==>
      r[i] == HelixPoint(m, center, f, tubeRadius, height, wrapCount, SampleParam(i, samples))
  {
    seq(n, i => HelixPoint(m, center, f, tubeRadius, height, wrapCount, SampleParam(i, samples)))
  }

  /** The helix detour: samples + 1 points, none for a negative count. */
  function HelixPath(m: MathOracle, center: Vec3, ropeDirection: Vec3, tubeRadius: real,
                     height: real, wrapCount: int, samples: int): seq<Vec3>
  {
    HelixPrefix(m, center, Frame(m, ropeDirection), tubeRadius, height, wrapCount, samples,
                if samples >= 0 then samples + 1 else 0)
  }

  lemma HelixPathLength(m: MathOracle, center: Vec3, ropeDirection: Vec3, tubeRadius: real,
                        height: real, wrapCount: int, samples: int)
    ensures |HelixPath(m, center, ropeDirection, tubeRadius, height, wrapCount, samples)|
            == if samples >= 0 then samples + 1 else 0
  {
  }

  /** The detour used by the weave (default height, wraps and samples) has 21 points. */
  lemma DefaultHelixHas21Points(m: MathOracle, center: Vec3, ropeDirection: Vec3, tubeRadius: real)
    ensures |HelixPath(m, center, ropeDirection, tubeRadius, DefaultHeight, DefaultWrapCount, DefaultSamples)| == 21
  {
  }

  method GenerateHelixPath(m: MathOracle, intersectionPoint: Vec3, ropeDirection: Vec3, tubeRadius: real,
                           height: real, wrapCount: int, samples: int)
    returns (result: seq<Vec3>)
    ensures result == HelixPath(m, intersectionPoint, ropeDirection, tubeRadius, height, wrapCount, samples)
    ensures |result| == if samples >= 0 then samples + 1 else 0
  {
    var dir := ropeDirection;
    if SqrMagnitude3(dir) < MinSqrLength {
      dir := Right3;
    }
    dir := Normalized3(m, dir);
    var right := Cross3(dir, Forward3);
    if SqrMagnitude3(right) < MinSqrLength {
      right := Cross3(dir, Up3);
    }
    right := Normalized3(m, right);
    var perpUp := Normalized3(m, Cross3(right, dir));
    ghost var f := HelixFrame(dir, right, perpUp);
    assert f == Frame(m, ropeDirection);
    result := [];
    var i := 0;
    while i <= samples
      invariant samples >= 0 ==> 0 <= i <= samples + 1
      invariant samples < 0 ==> i == 0
      invariant result == HelixPrefix(m, intersectionPoint, f, tubeRadius, height, wrapCount, samples, i)
      decreases samples + 1 - i
    {
      var t := SampleParam(i, samples);
      var point := HelixPoint(m, intersectionPoint, HelixFrame(dir, right, perpUp), tubeRadius, height, wrapCount, t);
      result := result + [point];
      i := i + 1;
    }
  }

  function ArchPoint(m: MathOracle, center: Vec3, dir: Vec3, height: real, length: real, t: real): Vec3 {
    Add3(Add3(center, Scale3(dir, ProgressOffset(t, length))), Vec3(0.0, 0.0, -(height * m.sin(t * Pi))))
  }

  function ArchPrefix(m: MathOracle, center: Vec3, dir: Vec3, height: real, length: real,
                      samples: int, n: nat): (r: seq<Vec3>)
    ensures |r| == n
    ensures forall i :: 0 <= i < n ==> r[i] == ArchPoint(m, center, dir, height, length, SampleParam(i, samples))
  {
    seq(n, i => ArchPoint(m, center, dir, height, length, SampleParam(i, samples)))
  }

  /** The arch detour: samples + 1 points along the normalised direction. */
  function ArchPath(m: MathOracle, center: Vec3, ropeDirection: Vec3, height: real, length: real,
                    samples: int): seq<Vec3>
  {
    ArchPrefix(m, center, Normalized3(m, DirectionOrRight(ropeDirection)), height, length, samples,
               if samples >= 0 then samples + 1 else 0)
  }

  method GenerateArchPath(m: MathOracle, intersectionPoint: Vec3, ropeDirection: Vec3, height: real,
                          length: real, samples: int)
    returns (result: seq<Vec3>)
    ensures result == ArchPath(m, intersectionPoint, ropeDirection, height, length, samples)
    ensures |result| == if samples >= 0 then samples + 1 else 0
  {
    var dir := ropeDirection;
    if SqrMagnitude3(dir) < MinSqrLength {
      dir := Right3;
    }
    dir := Normalized3(m, dir);
    result := [];
    var i := 0;
    while i <= samples
      invariant samples >= 0 ==> 0 <= i <= samples + 1
      invariant samples < 0 ==> i == 0
      invariant result == ArchPrefix(m, intersectionPoint, dir, height, length, samples, i)
      decreases samples + 1 - i
    {
      result := result + [ArchPoint(m, intersectionPoint, dir, height, length, SampleParam(i, samples))];
      i := i + 1;
    }
  }

  /** The along-direction offset of the samples runs from -length/2 at the
      first sample to +length/2 at the last, and never decreases in between. */
  lemma ProgressOffsetRange(length: real, samples: int, i: int, j: int)
    requires samples > 0 && 0 <= i <= j <= samples && length >= 0.0
    ensures ProgressOffset(SampleParam(0, samples), length) == -length / 2.0
    ensures ProgressOffset(SampleParam(samples, samples), length) == length / 2.0
    ensures ProgressOffset(SampleParam(i, samples), length) <= ProgressOffset(SampleParam(j, samples), length)
    ensures -length / 2.0 <= ProgressOffset(SampleParam(i, samples), length) <= length / 2.0
  {
    SampleParamMonotone(i, j, samples);
    SampleParamMonotone(0, i, samples);
    SampleParamMonotone(i, samples, samples);
    DivSelf(samples as real);
    ProgressOffsetMonotone(SampleParam(i, samples), SampleParam(j, samples), length);
    ProgressOffsetMonotone(0.0, SampleParam(i, samples), length);
    ProgressOffsetMonotone(SampleParam(i, samples), 1.0, length);
  }

  lemma ProgressOffsetMonotone(a: real, b: real, length: real)
    requires a <= b && length >= 0.0
    ensures ProgressOffset(a, length) <= ProgressOffset(b, length)
  {
    MulMonotone(a - 0.5, b - 0.5, length);
  }

  lemma SampleParamMonotone(i: int, j: int, samples: int)
    requires samples > 0 && i <= j
    ensures SampleParam(i, samples) <= SampleParam(j, samples)
  {
    DivMonotone(i as real, j as real, samples as real);
  }

  lemma DivMonotone(a: real, b: real, s: real)
    requires a <= b && s > 0.0
    ensures a / s <= b / s
  {
    assert b / s - a / s == (b - a) / s;
  }

  lemma MulMonotone(a: real, b: real, k: real)
    requires a <= b && k >= 0.0
    ensures a * k <= b * k
  {
    assert b * k - a * k == (b - a) * k;
  }

  /** Parameters that ValidateParameters leaves alone. */
  predicate ValidParameters(height: real, wrapCount: int, samples: int) {
    height > 0.0 && wrapCount >= 1 && 5 <= samples <= 100
  }

  /** The source updates its three ref parameters in place; here they go in
      and come back out. Every result is valid, and valid inputs come back
      unchanged, so applying it twice changes nothing more. */
  method ValidateParameters(height: real, wrapCount: int, samples: int)
    returns (height': real, wrapCount': int, samples': int)
    ensures ValidParameters(height', wrapCount', samples')
    ensures height > 0.0 ==> height' == height
    ensures height <= 0.0 ==> height' == DefaultHeight
    ensures wrapCount >= 1 ==> wrapCount' == wrapCount
    ensures wrapCount < 1 ==> wrapCount' == 1
    ensures 5 <= samples <= 100 ==> samples' == samples
    ensures samples < 5 ==> samples' == 5
    ensures samples > 100 ==> samples' == 100
    ensures ValidParameters(height, wrapCount, samples) ==> (height', wrapCount', samples') == (height, wrapCount, samples)
  {
    height', wrapCount', samples' := height, wrapCount, samples;
    if height' <= 0.0 { height' := DefaultHeight; }
    if wrapCount' < 1 { wrapCount' := 1; }
    if samples' < 5 { samples' := 5; }
    if samples' > 100 { samples' := 100; }
  }
}
