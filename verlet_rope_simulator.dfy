/** VerletRopeSimulator: a rope of NodeCount nodes between two anchors,
    moved by damped Verlet integration under gravity and then pulled back
    towards equal segment lengths. */
module Verlet {
  import opened Vectors

  /** Vector3.magnitude. */
  function Magnitude3(m: MathOracle, v: Vec3): real { m.sqrt(SqrMagnitude3(v)) }

  /** Vector3.Lerp is at its first point for t = 0 and at its second for t = 1. */
  lemma LerpEnds(a: Vec3, b: Vec3)
    ensures Lerp3(a, b, 0.0) == a && Lerp3(a, b, 1.0) == b
  {
  }

  /** Node k of n laid out evenly from a to b. */
  function EvenlySpaced(a: Vec3, b: Vec3, n: int, k: int): Vec3
    requires n >= 2
  {
    Lerp3(a, b, k as real / (n - 1) as real)
  }

  /** The layout starts at a and ends at b. */
  lemma EvenlySpacedEnds(a: Vec3, b: Vec3, n: int)
    requires n >= 2
    ensures EvenlySpaced(a, b, n, 0) == a && EvenlySpaced(a, b, n, n - 1) == b
  {
    LerpEnds(a, b);
    assert 0 as real / (n - 1) as real == 0.0;
    assert (n - 1) as real / (n - 1) as real == 1.0;
  }

  /** Consecutive nodes of the layout are one equal step (b - a) / (n - 1) apart. */
  lemma EvenlySpacedStep(a: Vec3, b: Vec3, n: int, k: int)
    requires n >= 2 && 0 <= k < n - 1
    ensures Sub3(EvenlySpaced(a, b, n, k + 1), EvenlySpaced(a, b, n, k)) == Scale3(Sub3(b, a), 1.0 / (n - 1) as real)
  {
    var d := (n - 1) as real;
    var t0, t1 := k as real / d, (k + 1) as real / d;
    assert 0.0 <= t0 <= 1.0 && 0.0 <= t1 <= 1.0;
    assert t1 - t0 == 1.0 / d;
    var u := Sub3(b, a);
    assert Sub3(Add3(a, Scale3(u, t1)), Add3(a, Scale3(u, t0))) == Scale3(u, t1 - t0) by {
      assert u.x * t1 - u.x * t0 == u.x * (t1 - t0);
      assert u.y * t1 - u.y * t0 == u.y * (t1 - t0);
      assert u.z * t1 - u.z * t0 == u.z * (t1 - t0);
    }
  }

  /** The largest time step one simulation step takes. */
  const MaxDeltaTime: real := 0.02

  // ---------- One simulation step over sequences ----------

  /** The anchors written over the first node and node n - 1. */
  function Pinned(pos: seq<Vec3>, n: int, start: Vec3, end: Vec3): (r: seq<Vec3>)
    requires 1 <= n <= |pos|
    ensures |r| == |pos|
    ensures r[n - 1] == end && (n >= 2 ==> r[0] == start)
    ensures forall k :: 0 < k < |pos| && k != n - 1 ==> r[k] == pos[k]
  {
    pos[0 := start][n - 1 := end]
  }

  /** A Verlet move: the damped velocity (pos - prev) * damping plus gravity * dt * dt. */
  function VerletMove(pos: Vec3, prev: Vec3, damping: real, gravity: real, dt: real): Vec3 {
    var velocity := Scale3(Sub3(pos, prev), damping);
    Add3(Add3(pos, velocity), Scale3(Scale3(Vec3(0.0, gravity, 0.0), dt), dt))
  }

  /** Positions after moving nodes 1 .. upTo - 1. */
  function Integrated(pos: seq<Vec3>, prev: seq<Vec3>, upTo: int, damping: real, gravity: real, dt: real): (r: seq<Vec3>)
    requires |prev| == |pos|
    ensures |r| == |pos|
  {
    seq(|pos|, k requires 0 <= k < |pos| =>
      if 1 <= k < upTo then VerletMove(pos[k], prev[k], damping, gravity, dt) else pos[k])
  }

  /** Previous positions after moving nodes 1 .. upTo - 1: each moved node
      remembers where it was. */
  function Remembered(pos: seq<Vec3>, prev: seq<Vec3>, upTo: int): (r: seq<Vec3>)
    requires |prev| == |pos|
    ensures |r| == |pos|
  {
    seq(|pos|, k requires 0 <= k < |pos| => if 1 <= k < upTo then pos[k] else prev[k])
  }

  /** The correction of the pair (i, i + 1) towards distance segmentLength:
      both nodes move by half the error along the pair, except that node 0
      and node n - 1 are never moved; pairs closer than 0.0001 are skipped. */
  function ConstrainPair(m: MathOracle, pos: seq<Vec3>, n: int, segmentLength: real, i: int): (r: seq<Vec3>)
    requires 0 <= i && i + 1 < |pos|
    ensures |r| == |pos|
  {
    var delta := Sub3(pos[i + 1], pos[i]);
    var currentDistance := Magnitude3(m, delta);
    if currentDistance < 0.0001 then pos
    else
      var diff := (segmentLength - currentDistance) / currentDistance;
      var offset := Scale3(Scale3(delta, 0.5), diff);
      var moved := if i != 0 then pos[i := Sub3(pos[i], offset)] else pos;
      if i != n - 2 then moved[i + 1 := Add3(moved[i + 1], offset)] else moved
  }

  /** One pass of ApplyDistanceConstraints over the pairs 0 .. count - 1, in order. */
  function Sweep(m: MathOracle, pos: seq<Vec3>, n: int, segmentLength: real, count: int): (r: seq<Vec3>)
    requires 0 <= count && count < |pos|
    ensures |r| == |pos|
  {
    if count == 0 then pos
    else ConstrainPair(m, Sweep(m, pos, n, segmentLength, count - 1), n, segmentLength, count - 1)
  }

  /** iterations passes over the n - 1 pairs. */
  function Relaxed(m: MathOracle, pos: seq<Vec3>, n: int, segmentLength: real, iterations: int): (r: seq<Vec3>)
    requires 1 <= n <= |pos|
    ensures |r| == |pos|
  {
    if iterations <= 0 then pos
    else Sweep(m, Relaxed(m, pos, n, segmentLength, iterations - 1), n, segmentLength, n - 1)
  }

  /** No pass leaves the positions alone; one more pass sweeps once more. */
  lemma RelaxedUnfold(m: MathOracle, pos: seq<Vec3>, n: int, segmentLength: real, iterations: int)
    requires 1 <= n <= |pos|
    ensures iterations <= 0 ==> Relaxed(m, pos, n, segmentLength, iterations) == pos
    ensures iterations >= 0 ==>
              (Relaxed(m, pos, n, segmentLength, iterations + 1)
               == Sweep(m, Relaxed(m, pos, n, segmentLength, iterations), n, segmentLength, n - 1))
  {
  }

  datatype Nodes = Nodes(positions: seq<Vec3>, previous: seq<Vec3>)

  /** One step of Simulate with dt = min(deltaTime, 0.02): pin the anchors,
      integrate the inner nodes, relax, and pin the anchors again. */
  function Step(m: MathOracle, pos: seq<Vec3>, prev: seq<Vec3>, n: int, start: Vec3, end: Vec3,
                damping: real, gravity: real, iterations: int, segmentLength: real, deltaTime: real): Nodes
    requires |prev| == |pos| && 1 <= n <= |pos|
  {
    var dt := Min(deltaTime, MaxDeltaTime);
    var pinned := Pinned(pos, n, start, end);
    var moved := Integrated(pinned, prev, n - 1, damping, gravity, dt);
    Nodes(Pinned(Relaxed(m, moved, n, segmentLength, iterations), n, start, end),
          Remembered(pinned, prev, n - 1))
  }

  // ---------- Properties of a step ----------

  /** A constraint pass never moves node 0 or node n - 1, nor any node past n - 1. */
  lemma {:induction false} SweepKeepsEnds(m: MathOracle, pos: seq<Vec3>, n: int, segmentLength: real, count: int)
    requires 2 <= n <= |pos| && 0 <= count <= n - 1
    ensures Sweep(m, pos, n, segmentLength, count)[0] == pos[0]
    ensures Sweep(m, pos, n, segmentLength, count)[n - 1] == pos[n - 1]
    ensures forall k :: n <= k < |pos| ==> Sweep(m, pos, n, segmentLength, count)[k] == pos[k]
  {
    if count > 0 {
      SweepKeepsEnds(m, pos, n, segmentLength, count - 1);
    }
  }

  lemma {:induction false} RelaxedKeepsEnds(m: MathOracle, pos: seq<Vec3>, n: int, segmentLength: real, iterations: int)
    requires 2 <= n <= |pos|
    ensures Relaxed(m, pos, n, segmentLength, iterations)[0] == pos[0]
    ensures Relaxed(m, pos, n, segmentLength, iterations)[n - 1] == pos[n - 1]
  {
    if iterations > 0 {
      RelaxedKeepsEnds(m, pos, n, segmentLength, iterations - 1);
      SweepKeepsEnds(m, Relaxed(m, pos, n, segmentLength, iterations - 1), n, segmentLength, n - 1);
    }
  }

  /** With two or more nodes the anchors hold after a step, and the second
      pinning changes nothing: integration and relaxation never move the
      end nodes. */
  lemma StepKeepsAnchors(m: MathOracle, pos: seq<Vec3>, prev: seq<Vec3>, n: int, start: Vec3, end: Vec3,
                         damping: real, gravity: real, iterations: int, segmentLength: real, deltaTime: real)
    requires |prev| == |pos| && 2 <= n <= |pos|
    ensures var s := Step(m, pos, prev, n, start, end, damping, gravity, iterations, segmentLength, deltaTime);
            s.positions[0] == start && s.positions[n - 1] == end
    ensures var dt := Min(deltaTime, MaxDeltaTime);
            var moved := Integrated(Pinned(pos, n, start, end), prev, n - 1, damping, gravity, dt);
            Step(m, pos, prev, n, start, end, damping, gravity, iterations, segmentLength, deltaTime).positions
            == Relaxed(m, moved, n, segmentLength, iterations)
  {
    var dt := Min(deltaTime, MaxDeltaTime);
    var pinned := Pinned(pos, n, start, end);
    var moved := Integrated(pinned, prev, n - 1, damping, gravity, dt);
    var relaxed := Relaxed(m, moved, n, segmentLength, iterations);
    RelaxedKeepsEnds(m, moved, n, segmentLength, iterations);
    assert relaxed[0] == start && relaxed[n - 1] == end;
    assert Pinned(relaxed, n, start, end) == relaxed;
  }

  /** A time step longer than 0.02 is simulated as a step of 0.02. */
  lemma StepClampsDeltaTime(m: MathOracle, pos: seq<Vec3>, prev: seq<Vec3>, n: int, start: Vec3, end: Vec3,
                            damping: real, gravity: real, iterations: int, segmentLength: real, deltaTime: real)
    requires |prev| == |pos| && 1 <= n <= |pos|
    requires deltaTime >= MaxDeltaTime
    ensures Step(m, pos, prev, n, start, end, damping, gravity, iterations, segmentLength, deltaTime)
            == Step(m, pos, prev, n, start, end, damping, gravity, iterations, segmentLength, MaxDeltaTime)
  {
  }

  // ---------- The simulator ----------

  class VerletRopeSimulator {
    var nodeCount: int
    var damping: real
    var gravity: real
    var constraintIterations: int
    var maxRopeLength: real

    var positions: array?<Vec3>
    var previousPositions: array?<Vec3>
    var segmentLength: real
    var isInitialized: bool

    var startAnchor: Vec3
    var endAnchor: Vec3

    /** Both node arrays exist together, are distinct and have the same length. */
    predicate Valid()
      reads this
    {
      (positions == null <==> previousPositions == null) &&
      (positions != null ==> positions != previousPositions && positions.Length == previousPositions.Length)
    }

    constructor ()
      ensures Valid()
      ensures nodeCount == 10 && damping == 0.98 && gravity == -2.0
      ensures constraintIterations == 3 && maxRopeLength == 5.0
      ensures positions == null && !isInitialized
    {
      nodeCount, damping, gravity, constraintIterations, maxRopeLength := 10, 0.98, -2.0, 3, 5.0;
      positions, previousPositions := null, null;
      segmentLength, isInitialized := 0.0, false;
      startAnchor, endAnchor := Zero3, Zero3;
    }

    /** Lays the nodes out evenly on the straight line between the two points. */
    method Initialize(m: MathOracle, startPoint: Vec3, endPoint: Vec3)
      modifies this`nodeCount, this`positions, this`previousPositions, this`startAnchor, this`endAnchor,
               this`segmentLength, this`isInitialized
      ensures Valid()
      ensures nodeCount == MaxInt(old(nodeCount), 2)
      ensures positions != null && fresh(positions) && fresh(previousPositions)
      ensures positions.Length == nodeCount
      ensures startAnchor == startPoint && endAnchor == endPoint
      ensures segmentLength == Distance3(m, startPoint, endPoint) / (nodeCount - 1) as real
      ensures forall i :: 0 <= i < nodeCount ==> positions[i] == EvenlySpaced(startPoint, endPoint, nodeCount, i)
      ensures previousPositions[..] == positions[..]
      ensures positions[0] == startPoint && positions[nodeCount - 1] == endPoint
      ensures isInitialized
    {
      hide Lerp3;
      if nodeCount < 2 {
        nodeCount := 2;
      }
      positions := new Vec3[nodeCount];
      previousPositions := new Vec3[nodeCount];
      startAnchor := startPoint;
      endAnchor := endPoint;
      var pinDistance := Distance3(m, startPoint, endPoint);
      segmentLength := pinDistance / (nodeCount - 1) as real;
      var i := 0;
      while i < nodeCount
        invariant 0 <= i <= nodeCount
        invariant forall k :: 0 <= k < i ==> positions[k] == EvenlySpaced(startPoint, endPoint, nodeCount, k)
        invariant forall k :: 0 <= k < i ==> previousPositions[k] == positions[k]
        modifies positions, previousPositions
      {
        var t := i as real / (nodeCount - 1) as real;
        var pos := Lerp3(startPoint, endPoint, t);
        positions[i] := pos;
        previousPositions[i] := pos;
        i := i + 1;
      }
      isInitialized := true;
      EvenlySpacedEnds(startPoint, endPoint, nodeCount);
    }

    /** Moves the anchors; the segment length follows the new anchor distance
        unless the anchors (nearly) coincide or there is a single node. */
    method SetAnchorPositions(m: MathOracle, start: Vec3, end: Vec3)
      modifies this`startAnchor, this`endAnchor, this`segmentLength
      ensures startAnchor == start && endAnchor == end
      ensures Distance3(m, start, end) > 0.001 && nodeCount > 1 ==>
                segmentLength == Distance3(m, start, end) / (nodeCount - 1) as real
      ensures !(Distance3(m, start, end) > 0.001 && nodeCount > 1) ==> segmentLength == old(segmentLength)
    {
      startAnchor := start;
      endAnchor := end;
      var pinDistance := Distance3(m, start, end);
      if pinDistance > 0.001 && nodeCount > 1 {
        segmentLength := pinDistance / (nodeCount - 1) as real;
      }
    }

    /** One physics step; nothing happens before Initialize or with fewer
        than two nodes. NodeCount must not exceed the arrays (the source
        indexes past them otherwise). */
    method Simulate(m: MathOracle, deltaTime: real)
      requires Valid()
      requires isInitialized && positions != null && positions.Length >= 2 ==> 1 <= nodeCount <= positions.Length
      modifies positions, previousPositions
      ensures !isInitialized || positions == null || positions.Length < 2 ==>
                positions == null || (positions[..] == old(positions[..]) && previousPositions[..] == old(previousPositions[..]))
      ensures isInitialized && positions != null && positions.Length >= 2 ==>
                var s := Step(m, old(positions[..]), old(previousPositions[..]), nodeCount, startAnchor, endAnchor,
                              damping, gravity, constraintIterations, segmentLength, deltaTime);
                positions[..] == s.positions && previousPositions[..] == s.previous
    {
      hide Integrated, Remembered, Relaxed, Sweep, ConstrainPair, VerletMove, Magnitude3;
      if !isInitialized || positions == null || positions.Length < 2 {
        return;
      }
      var dt := Min(deltaTime, MaxDeltaTime);
      positions[0] := startAnchor;
      positions[nodeCount - 1] := endAnchor;
      ghost var pinned := positions[..];
      assert pinned == Pinned(old(positions[..]), nodeCount, startAnchor, endAnchor);
      Integrate(dt);
      var iteration := 0;
      ghost var moved, remembered := positions[..], previousPositions[..];
      RelaxedUnfold(m, moved, nodeCount, segmentLength, 0);
      while iteration < constraintIterations
        invariant 0 <= iteration <= MaxInt(constraintIterations, 0)
        invariant positions[..] == Relaxed(m, moved, nodeCount, segmentLength, iteration)
        invariant previousPositions[..] == remembered
      {
        RelaxedUnfold(m, moved, nodeCount, segmentLength, iteration);
        ApplyDistanceConstraints(m);
        iteration := iteration + 1;
      }
      RelaxedUnfold(m, moved, nodeCount, segmentLength, constraintIterations);
      positions[0] := startAnchor;
      positions[nodeCount - 1] := endAnchor;
    }

    /** The Verlet move of every inner node 1 .. nodeCount - 2. */
    method Integrate(dt: real)
      requires Valid() && positions != null
      requires 1 <= nodeCount <= positions.Length
      modifies positions, previousPositions
      ensures positions[..] == Integrated(old(positions[..]), old(previousPositions[..]), nodeCount - 1, damping, gravity, dt)
      ensures previousPositions[..] == Remembered(old(positions[..]), old(previousPositions[..]), nodeCount - 1)
    {
      var i := 1;
      while i < nodeCount - 1
        invariant 1 <= i <= MaxInt(nodeCount - 1, 1)
        invariant positions[..] == Integrated(old(positions[..]), old(previousPositions[..]), i, damping, gravity, dt)
        invariant previousPositions[..] == Remembered(old(positions[..]), old(previousPositions[..]), i)
      {
        var velocity := Scale3(Sub3(positions[i], previousPositions[i]), damping);
        previousPositions[i] := positions[i];
        positions[i] := Add3(Add3(positions[i], velocity), Scale3(Scale3(Vec3(0.0, gravity, 0.0), dt), dt));
        i := i + 1;
      }
    }

    /** One pass over the pairs (i, i + 1), i = 0 .. nodeCount - 2, in order. */
    method ApplyDistanceConstraints(m: MathOracle)
      requires positions != null && 1 <= nodeCount <= positions.Length
      modifies positions
      ensures positions[..] == Sweep(m, old(positions[..]), nodeCount, segmentLength, nodeCount - 1)
    {
      var i := 0;
      while i < nodeCount - 1
        invariant 0 <= i <= nodeCount - 1
        invariant positions[..] == Sweep(m, old(positions[..]), nodeCount, segmentLength, i)
      {
        var delta := Sub3(positions[i + 1], positions[i]);
        var currentDistance := Magnitude3(m, delta);
        if currentDistance >= 0.0001 {
          var diff := (segmentLength - currentDistance) / currentDistance;
          var offset := Scale3(Scale3(delta, 0.5), diff);
          if i != 0 {
            positions[i] := Sub3(positions[i], offset);
          }
          if i != nodeCount - 2 {
            positions[i + 1] := Add3(positions[i + 1], offset);
          }
        }
        i := i + 1;
      }
    }

    /** A copy of the node positions; empty before Initialize or after Reset. */
    function GetPositions(): (r: seq<Vec3>)
      reads this, positions
      ensures !isInitialized || positions == null ==> r == []
      ensures isInitialized && positions != null ==> r == positions[..]
    {
      if !isInitialized || positions == null then [] else positions[..]
    }

    method Reset()
      modifies this`isInitialized, this`positions, this`previousPositions
      ensures Valid()
      ensures !isInitialized && positions == null && previousPositions == null
      ensures GetPositions() == []
    {
      isInitialized := false;
      positions := null;
      previousPositions := null;
    }
  }
}
