/** RopeData: a rope through a list of pins, its render priority and the 3D
    render path that the weave rebuilds from the pins and the crossings
    where this rope lies on top. */
module Ropes {
  import opened Vectors
  import opened Pins
  import opened Intersections
  import opened Helices

  /** Tube radius the weave passes to the helix generator. */
  const RopeTubeRadius: real := 0.08
  /** Squared length below which a segment counts as a point. */
  const MinSegmentSqrLength: real := 0.0001
  /** Id reported when a rope has no start or no end pin. */
  const NoPinId: int := -1

  /** The pin at the start of the rope, or -1 for a rope without pins. */
  function StartPinIdOf(pinIds: seq<int>): int {
    if |pinIds| > 0 then pinIds[0] else NoPinId
  }

  /** The last pin, or -1 unless the rope has at least two pins. */
  function EndPinIdOf(pinIds: seq<int>): int {
    if |pinIds| > 1 then pinIds[|pinIds| - 1] else NoPinId
  }

  /** A rope with a single pin has that pin as its start and no end. */
  lemma SinglePinRopeHasNoEnd(pinId: int)
    ensures StartPinIdOf([pinId]) == pinId
    ensures EndPinIdOf([pinId]) == NoPinId
  {
  }

  /** What the intersection logic reads of a rope. */
  datatype RopeView = RopeView(id: int, pinIds: seq<int>, renderPriority: int)
  {
    function StartPinId(): int { StartPinIdOf(pinIds) }
    function EndPinId(): int { EndPinIdOf(pinIds) }
  }

  // ---------------------------------------------------------------------
  // The base path: one point per pin that can be found.

  /** WorldPos of each listed pin, in list order, skipping unknown ids. */
  function BasePath(pinIds: seq<int>, pins: seq<PinView>): (r: seq<Vec3>)
    ensures |r| <= |pinIds|
    decreases |pinIds|
  {
    if pinIds == [] then []
    else
      var front := BasePath(pinIds[..|pinIds| - 1], pins);
      match FindPin(pins, pinIds[|pinIds| - 1])
      case Some(p) => front + [p.worldPos]
      case None => front
  }

  /** When every pin of the rope exists, the base path has one point per pin,
      the WorldPos of the first pin carrying that id. */
  lemma {:induction false} BasePathAllFound(pinIds: seq<int>, pins: seq<PinView>)
    requires forall i :: 0 <= i < |pinIds| ==> FindPin(pins, pinIds[i]).Some?
    ensures |BasePath(pinIds, pins)| == |pinIds|
    ensures forall i :: 0 <= i < |pinIds| ==> BasePath(pinIds, pins)[i] == FindPin(pins, pinIds[i]).value.worldPos
    decreases |pinIds|
  {
    if pinIds != [] {
      var front := pinIds[..|pinIds| - 1];
      assert forall i :: 0 <= i < |front| ==> front[i] == pinIds[i];
      BasePathAllFound(front, pins);
      var last := FindPin(pins, pinIds[|pinIds| - 1]);
      assert last.Some?;
      assert BasePath(pinIds, pins) == BasePath(front, pins) + [last.value.worldPos];
    }
  }

  /** A rope none of whose pins exists has an empty path. */
  lemma {:induction false} BasePathNoneFound(pinIds: seq<int>, pins: seq<PinView>)
    requires forall i :: 0 <= i < |pinIds| ==> FindPin(pins, pinIds[i]).None?
    ensures BasePath(pinIds, pins) == []
    decreases |pinIds|
  {
    if pinIds != [] {
      var front := pinIds[..|pinIds| - 1];
      assert forall i :: 0 <= i < |front| ==> front[i] == pinIds[i];
      BasePathNoneFound(front, pins);
    }
  }

  // ---------------------------------------------------------------------
  // Geometry over a path.

  /** Mathf.Clamp01 of the projection of point - a onto the segment a -> b. */
  function ProjectionParam(point: Vec2, a: Vec2, b: Vec2): (t: real)
    requires SqrMagnitude2(Sub2(b, a)) != 0.0
    ensures 0.0 <= t <= 1.0
  {
    Clamp01(Dot2(Sub2(point, a), Sub2(b, a)) / SqrMagnitude2(Sub2(b, a)))
  }

  /** The point of the segment a -> b closest to point (the start for a
      segment shorter than 0.01). */
  function ClosestPointOnSegment(point: Vec2, a: Vec2, b: Vec2): Vec2 {
    var seg := Sub2(b, a);
    if SqrMagnitude2(seg) < MinSegmentSqrLength then a
    else Add2(a, Scale2(seg, ProjectionParam(point, a, b)))
  }

  /** Vector2.Distance from point to the segment a -> b. */
  function PointToSegmentDistance(m: MathOracle, point: Vec2, a: Vec2, b: Vec2): real {
    m.sqrt(DistSq2(point, ClosestPointOnSegment(point, a, b)))
  }

  /** The closest point lies on the segment: a + t (b - a) with t in [0, 1]. */
  lemma ClosestPointOnTheSegment(point: Vec2, a: Vec2, b: Vec2)
    ensures exists t: real :: 0.0 <= t <= 1.0 && ClosestPointOnSegment(point, a, b) == Add2(a, Scale2(Sub2(b, a), t))
  {
    var seg := Sub2(b, a);
    if SqrMagnitude2(seg) < MinSegmentSqrLength {
      assert ClosestPointOnSegment(point, a, b) == Add2(a, Scale2(seg, 0.0));
    } else {
      var t := ProjectionParam(point, a, b);
      assert ClosestPointOnSegment(point, a, b) == Add2(a, Scale2(seg, t));
    }
  }

  /** When the projection falls inside a segment of length at least 0.01, the
      closest point is the foot of the perpendicular from point. */
  lemma ClosestPointIsPerpendicularFoot(point: Vec2, a: Vec2, b: Vec2)
    requires SqrMagnitude2(Sub2(b, a)) >= MinSegmentSqrLength
    requires 0.0 <= Dot2(Sub2(point, a), Sub2(b, a)) / SqrMagnitude2(Sub2(b, a)) <= 1.0
    ensures Dot2(Sub2(point, ClosestPointOnSegment(point, a, b)), Sub2(b, a)) == 0.0
  {
    var seg := Sub2(b, a);
    var w := Sub2(point, a);
    var L := SqrMagnitude2(seg);
    var t := Dot2(w, seg) / L;
    assert ProjectionParam(point, a, b) == t;
    var c := Add2(a, Scale2(seg, t));
    assert Sub2(point, c) == Sub2(w, Scale2(seg, t));
    calc {
      Dot2(Sub2(w, Scale2(seg, t)), seg);
      Dot2(w, seg) - t * L;
      { assert t * L == Dot2(w, seg); }
      0.0;
    }
  }

  /** The distance from point to segment i of the path. */
  function SegmentDistance(m: MathOracle, path: seq<Vec3>, point: Vec2, i: int): real
    requires 0 <= i < |path| - 1
  {
    PointToSegmentDistance(m, point, XY(path[i]), XY(path[i + 1]))
  }

  /** The index of the closest among segments 0 .. n-1, the first on ties. */
  function ClosestAmong(m: MathOracle, path: seq<Vec3>, point: Vec2, n: int): (r: int)
    requires 1 <= n <= |path| - 1
    ensures 0 <= r < n
    ensures forall j :: 0 <= j < n ==> SegmentDistance(m, path, point, r) <= SegmentDistance(m, path, point, j)
    ensures forall j :: 0 <= j < r ==> SegmentDistance(m, path, point, r) < SegmentDistance(m, path, point, j)
  {
    if n == 1 then 0
    else
      var c := ClosestAmong(m, path, point, n - 1);
      if SegmentDistance(m, path, point, n - 1) < SegmentDistance(m, path, point, c) then n - 1 else c
  }

  /** FindClosestSegmentIndex as a function: -1 for a path of fewer than two points. */
  function ClosestSegment(m: MathOracle, path: seq<Vec3>, point: Vec2): (r: int)
    ensures |path| < 2 <==> r == -1
    ensures |path| >= 2 ==> 0 <= r <= |path| - 2
  {
    if |path| < 2 then -1 else ClosestAmong(m, path, point, |path| - 1)
  }

  /** DistanceAlongPath: straight-line distance from the first path point to
      point, 0 for a path of fewer than two points. */
  function DistanceAlongPath(m: MathOracle, path: seq<Vec3>, point: Vec2): real {
    if |path| < 2 then 0.0 else m.sqrt(DistSq2(XY(path[0]), point))
  }

  /** GetDirectionAtPoint: the normalised start-to-end direction of the whole
      path, or the x axis when the path is too short or the direction
      (after normalisation) is shorter than sqrt(0.001). */
  function DirectionAtPoint(m: MathOracle, path: seq<Vec3>, point: Vec2): (r: Vec3)
    ensures SqrMagnitude3(r) >= MinSqrLength
    ensures |path| < 2 ==> r == Right3
  {
    if |path| < 2 then Right3
    else
      var d := Normalized3(m, Sub3(path[|path| - 1], path[0]));
      if SqrMagnitude3(d) < MinSqrLength then Right3 else d
  }

  /** The direction depends only on the two end points of the path. */
  lemma DirectionDependsOnEndpoints(m: MathOracle, p: seq<Vec3>, q: seq<Vec3>, point: Vec2, point': Vec2)
    requires |p| >= 2 && |q| >= 2
    requires p[0] == q[0] && p[|p| - 1] == q[|q| - 1]
    ensures DirectionAtPoint(m, p, point) == DirectionAtPoint(m, q, point')
  {
  }

  // ---------------------------------------------------------------------
  // Splicing one detour into the path.

  /** InsertHelixPointsAtIntersection as a function: the detour goes in right
      after the start of the closest segment; nothing changes for a path of
      fewer than two points or an empty detour. */
  function Splice(m: MathOracle, path: seq<Vec3>, point: Vec2, detour: seq<Vec3>): seq<Vec3> {
    if |path| < 2 || |detour| == 0 then path
    else
      var k := ClosestSegment(m, path, point);
      path[..k + 1] + detour + path[k + 1..]
  }

  /** A splice grows the path by the detour's length and keeps the first and
      last points. */
  lemma SpliceShape(m: MathOracle, path: seq<Vec3>, point: Vec2, detour: seq<Vec3>)
    ensures |path| < 2 || |detour| == 0 ==> Splice(m, path, point, detour) == path
    ensures |path| >= 2 ==>
      && |Splice(m, path, point, detour)| == |path| + |detour|
      && Splice(m, path, point, detour)[0] == path[0]
      && Splice(m, path, point, detour)[|path| + |detour| - 1] == path[|path| - 1]
  {
    if |path| >= 2 && |detour| > 0 {
      var k := ClosestSegment(m, path, point);
      var r := path[..k + 1] + detour + path[k + 1..];
      assert r[|r| - 1] == path[k + 1..][|path[k + 1..]| - 1];
    }
  }

  /** A splice keeps everything up to the start of the closest segment in
      front of the detour and everything after it behind the detour. */
  lemma SpliceParts(m: MathOracle, path: seq<Vec3>, point: Vec2, detour: seq<Vec3>)
    requires |path| >= 2 && |detour| > 0
    ensures var r := Splice(m, path, point, detour);
      var k := ClosestSegment(m, path, point);
      && r[..k + 1] == path[..k + 1]
      && r[k + 1..k + 1 + |detour|] == detour
      && r[k + 1 + |detour|..] == path[k + 1..]
  {
  }

  /** The detour for one crossing: the default helix around the crossing point
      (lifted to z = 0), turning along the path's direction. */
  function Detour(m: MathOracle, path: seq<Vec3>, point: Vec2): (r: seq<Vec3>)
    ensures |r| == DefaultSamples + 1
  {
    HelixPath(m, Lift(point, 0.0), DirectionAtPoint(m, path, point), RopeTubeRadius,
              DefaultHeight, DefaultWrapCount, DefaultSamples)
  }

  // ---------------------------------------------------------------------
  // Choosing and ordering the crossings to weave.

  /** The crossings (in list order) where the rope with this id is on top. */
  function Mine(xs: seq<IntersectionData>, id: int): (r: seq<IntersectionData>)
    ensures |r| <= |xs|
    ensures forall i :: 0 <= i < |r| ==> r[i].topRopeId == id
    decreases |xs|
  {
    if xs == [] then []
    else (if xs[0].topRopeId == id then [xs[0]] else []) + Mine(xs[1..], id)
  }

  /** Mine keeps exactly the crossings of xs that have the rope on top. */
  lemma {:induction false} MineMembers(xs: seq<IntersectionData>, id: int)
    ensures forall x :: x in Mine(xs, id) <==> x in xs && x.topRopeId == id
    decreases |xs|
  {
    if xs != [] {
      MineMembers(xs[1..], id);
      assert xs == [xs[0]] + xs[1..];
    }
  }

  /** Mine is empty exactly when no crossing has the rope on top. */
  lemma MineEmpty(xs: seq<IntersectionData>, id: int)
    ensures Mine(xs, id) == [] <==> forall i :: 0 <= i < |xs| ==> xs[i].topRopeId != id
  {
    MineMembers(xs, id);
    if Mine(xs, id) != [] {
      assert Mine(xs, id)[0] in Mine(xs, id);
    } else {
      forall i | 0 <= i < |xs| ensures xs[i].topRopeId != id {
        assert xs[i] in xs;
      }
    }
  }

  lemma {:induction false} MineIdempotent(xs: seq<IntersectionData>, id: int)
    ensures Mine(Mine(xs, id), id) == Mine(xs, id)
    decreases |xs|
  {
    if xs != [] {
      MineIdempotent(xs[1..], id);
      var rest := Mine(xs[1..], id);
      if xs[0].topRopeId == id {
        assert ([xs[0]] + rest)[1..] == rest;
      } else {
        assert Mine(xs, id) == rest;
      }
    }
  }

  /** The sort key of a crossing: its distance from the start of the base path. */
  function Key(m: MathOracle, path: seq<Vec3>, x: IntersectionData): real {
    DistanceAlongPath(m, path, x.point)
  }

  predicate SortedByKey(m: MathOracle, path: seq<Vec3>, xs: seq<IntersectionData>) {
    forall i, j :: 0 <= i < j < |xs| ==> Key(m, path, xs[i]) <= Key(m, path, xs[j])
  }

  /** Puts x in front of the first element whose key is at least x's. */
  function InsertByKey(m: MathOracle, path: seq<Vec3>, x: IntersectionData, s: seq<IntersectionData>): (r: seq<IntersectionData>)
    ensures |r| == |s| + 1
    decreases |s|
  {
    if s == [] || Key(m, path, x) <= Key(m, path, s[0]) then [x] + s
    else
      assert s == [s[0]] + s[1..];
      [s[0]] + InsertByKey(m, path, x, s[1..])
  }

  /** Enumerable.OrderBy by the key: a stable sort. */
  function SortByKey(m: MathOracle, path: seq<Vec3>, xs: seq<IntersectionData>): (r: seq<IntersectionData>)
    ensures |r| == |xs|
    decreases |xs|
  {
    if xs == [] then []
    else
      assert xs == [xs[0]] + xs[1..];
      InsertByKey(m, path, xs[0], SortByKey(m, path, xs[1..]))
  }

  /** Inserting adds x and keeps every element of s. */
  lemma {:induction false} InsertByKeyPermutes(m: MathOracle, path: seq<Vec3>, x: IntersectionData, s: seq<IntersectionData>)
    ensures multiset(InsertByKey(m, path, x, s)) == multiset(s) + multiset{x}
    decreases |s|
  {
    if s != [] && Key(m, path, x) > Key(m, path, s[0]) {
      InsertByKeyPermutes(m, path, x, s[1..]);
      assert s == [s[0]] + s[1..];
    }
  }

  /** The sort is a permutation of its input. */
  lemma {:induction false} SortByKeyPermutes(m: MathOracle, path: seq<Vec3>, xs: seq<IntersectionData>)
    ensures multiset(SortByKey(m, path, xs)) == multiset(xs)
    decreases |xs|
  {
    if xs != [] {
      SortByKeyPermutes(m, path, xs[1..]);
      InsertByKeyPermutes(m, path, xs[0], SortByKey(m, path, xs[1..]));
      assert xs == [xs[0]] + xs[1..];
    }
  }

  lemma {:induction false} InsertByKeySorted(m: MathOracle, path: seq<Vec3>, x: IntersectionData, s: seq<IntersectionData>)
    requires SortedByKey(m, path, s)
    ensures SortedByKey(m, path, InsertByKey(m, path, x, s))
    ensures |s| > 0 ==> InsertByKey(m, path, x, s)[0] == x || InsertByKey(m, path, x, s)[0] == s[0]
    decreases |s|
  {
    hide DistanceAlongPath;
    if s != [] && Key(m, path, x) > Key(m, path, s[0]) {
      InsertByKeySorted(m, path, x, s[1..]);
      InsertByKeyPermutes(m, path, x, s[1..]);
      var tail := InsertByKey(m, path, x, s[1..]);
      var r := [s[0]] + tail;
      forall i, j | 0 <= i < j < |r| ensures Key(m, path, r[i]) <= Key(m, path, r[j]) {
        if i == 0 {
          assert r[j] in multiset(tail);
          assert r[j] == x || r[j] in s[1..];
          if r[j] != x {
            var k :| 0 <= k < |s[1..]| && s[1..][k] == r[j];
            assert s[k + 1] == r[j];
          }
        }
      }
    }
  }

  /** The result of the sort is ordered by the key. */
  lemma {:induction false} SortByKeySorted(m: MathOracle, path: seq<Vec3>, xs: seq<IntersectionData>)
    ensures SortedByKey(m, path, SortByKey(m, path, xs))
    decreases |xs|
  {
    if xs != [] {
      SortByKeySorted(m, path, xs[1..]);
      InsertByKeySorted(m, path, xs[0], SortByKey(m, path, xs[1..]));
    }
  }

  /** The elements of xs whose key is k, in their order in xs. */
  function WithKey(m: MathOracle, path: seq<Vec3>, xs: seq<IntersectionData>, k: real): seq<IntersectionData>
    decreases |xs|
  {
    if xs == [] then []
    else (if Key(m, path, xs[0]) == k then [xs[0]] else []) + WithKey(m, path, xs[1..], k)
  }

  lemma {:induction false} InsertByKeyStable(m: MathOracle, path: seq<Vec3>, x: IntersectionData, s: seq<IntersectionData>, k: real)
    requires SortedByKey(m, path, s)
    ensures WithKey(m, path, InsertByKey(m, path, x, s), k)
            == (if Key(m, path, x) == k then [x] else []) + WithKey(m, path, s, k)
    decreases |s|
  {
    if s == [] || Key(m, path, x) <= Key(m, path, s[0]) {
      var r := [x] + s;
      assert r[1..] == s;
      if Key(m, path, x) == k && s != [] {
        // Every element of s has a key of at least Key(x); the equal ones come after x in r as in s.
      }
    } else {
      InsertByKeyStable(m, path, x, s[1..], k);
      var r := [s[0]] + InsertByKey(m, path, x, s[1..]);
      assert r[1..] == InsertByKey(m, path, x, s[1..]);
      if Key(m, path, s[0]) == k {
        assert Key(m, path, x) != k;
      }
      assert s == [s[0]] + s[1..];
      assert WithKey(m, path, s, k) == (if Key(m, path, s[0]) == k then [s[0]] else []) + WithKey(m, path, s[1..], k);
    }
  }

  /** Stability: for every key value, the elements with that key appear in
      the sorted result in the same order as in the input. */
  lemma {:induction false} SortByKeyStable(m: MathOracle, path: seq<Vec3>, xs: seq<IntersectionData>, k: real)
    ensures WithKey(m, path, SortByKey(m, path, xs), k) == WithKey(m, path, xs, k)
    decreases |xs|
  {
    if xs != [] {
      SortByKeyStable(m, path, xs[1..], k);
      SortByKeySorted(m, path, xs[1..]);
      InsertByKeyStable(m, path, xs[0], SortByKey(m, path, xs[1..]), k);
    }
  }

  // ---------------------------------------------------------------------
  // The weave.

  /** The path after splicing the detours of xs[|xs|-1], xs[|xs|-2], ...,
      xs[k], in that order, into base. Each detour's direction and position
      are computed on the path as it stands when it is spliced. */
  function WeaveFrom(m: MathOracle, base: seq<Vec3>, xs: seq<IntersectionData>, k: nat): seq<Vec3>
    decreases |xs| - k
  {
    if k >= |xs| then base
    else
      var p := WeaveFrom(m, base, xs, k + 1);
      WeaveOne(m, p, xs[k].point)
  }

  /** ApplyHelixAtIntersections as a function of the rope and the state it reads. */
  function Woven(m: MathOracle, id: int, pinIds: seq<int>, xs: seq<IntersectionData>, pins: seq<PinView>): seq<Vec3> {
    var base := BasePath(pinIds, pins);
    if |xs| == 0 then base
    else WeaveFrom(m, base, SortByKey(m, base, Mine(xs, id)), 0)
  }

  /** One weave step: the crossing's detour spliced into the path. On a path
      of at least two points it adds 21 points and keeps both end points. */
  function WeaveOne(m: MathOracle, p: seq<Vec3>, point: Vec2): (r: seq<Vec3>)
    ensures |p| < 2 ==> r == p
    ensures |p| >= 2 ==> |r| == |p| + DefaultSamples + 1 && r[0] == p[0] && r[|r| - 1] == p[|p| - 1]
  {
    var d := Detour(m, p, point);
    SpliceShape(m, p, point, d);
    Splice(m, p, point, d)
  }

  /** Each splice of a path with at least two points adds exactly one 21-point
      detour and keeps both end points. A shorter path is left alone. */
  lemma {:induction false} WeaveFromShape(m: MathOracle, base: seq<Vec3>, xs: seq<IntersectionData>, k: nat)
    requires k <= |xs|
    ensures |base| < 2 ==> WeaveFrom(m, base, xs, k) == base
    ensures |base| >= 2 ==>
      var r := WeaveFrom(m, base, xs, k);
      && |r| == |base| + 21 * (|xs| - k)
      && r[0] == base[0] && r[|r| - 1] == base[|base| - 1]
    decreases |xs| - k
  {
    if k < |xs| {
      WeaveFromShape(m, base, xs, k + 1);
      var p := WeaveFrom(m, base, xs, k + 1);
      assert WeaveFrom(m, base, xs, k) == WeaveOne(m, p, xs[k].point);
    }
  }

  /** Each detour turns along the direction of the base path, since splices
      never move the end points. */
  lemma DetourDirectionIsBaseDirection(m: MathOracle, base: seq<Vec3>, xs: seq<IntersectionData>, k: nat)
    requires k < |xs| && |base| >= 2
    ensures DirectionAtPoint(m, WeaveFrom(m, base, xs, k + 1), xs[k].point) == DirectionAtPoint(m, base, xs[k].point)
  {
    WeaveFromShape(m, base, xs, k + 1);
    DirectionDependsOnEndpoints(m, WeaveFrom(m, base, xs, k + 1), base, xs[k].point, xs[k].point);
  }

  /** When no crossing has this rope on top, the weave is just the base path. */
  lemma NoTopNoWeave(m: MathOracle, id: int, pinIds: seq<int>, xs: seq<IntersectionData>, pins: seq<PinView>)
    requires forall i :: 0 <= i < |xs| ==> xs[i].topRopeId != id
    ensures Woven(m, id, pinIds, xs, pins) == BasePath(pinIds, pins)
  {
    MineEmpty(xs, id);
  }

  /** Crossings where the rope is not on top have no effect on its path. */
  lemma OnlyTopCrossingsMatter(m: MathOracle, id: int, pinIds: seq<int>, xs: seq<IntersectionData>, pins: seq<PinView>)
    ensures Woven(m, id, pinIds, xs, pins) == Woven(m, id, pinIds, Mine(xs, id), pins)
  {
    MineIdempotent(xs, id);
    var base := BasePath(pinIds, pins);
    if |xs| > 0 && |Mine(xs, id)| == 0 {
      assert SortByKey(m, base, Mine(xs, id)) == [];
    }
  }

  /** The woven path has the base path's end points and one 21-point detour
      per crossing where the rope is on top (when the base has two points). */
  lemma WovenShape(m: MathOracle, id: int, pinIds: seq<int>, xs: seq<IntersectionData>, pins: seq<PinView>)
    ensures var base := BasePath(pinIds, pins);
      var r := Woven(m, id, pinIds, xs, pins);
      && (|base| < 2 ==> r == base)
      && (|base| >= 2 ==>
            && |r| == |base| + 21 * |Mine(xs, id)|
            && r[0] == base[0] && r[|r| - 1] == base[|base| - 1])
  {
    var base := BasePath(pinIds, pins);
    if |xs| > 0 {
      WeaveFromShape(m, base, SortByKey(m, base, Mine(xs, id)), 0);
    } else {
      assert Mine(xs, id) == [];
    }
  }

  /** On a woven two-pin rope, moving the end pin writes path index 1, the
      end pin's position in PinIds: that is a point of the first detour,
      while the path's last point, where the end pin really is, keeps the
      old position. */
  lemma EndPinUpdateAfterWeave(m: MathOracle, id: int, s: int, e: int, xs: seq<IntersectionData>,
                               pins: seq<PinView>, newPosition: Vec3)
    requires s != e
    requires |BasePath([s, e], pins)| == 2
    requires |Mine(xs, id)| >= 1
    ensures var w := Woven(m, id, [s, e], xs, pins);
      && IndexOf([s, e], e) == 1
      && |w| >= 2 + 21
      && w[1 := newPosition][1] == newPosition
      && w[1 := newPosition][|w| - 1] == BasePath([s, e], pins)[1]
  {
    WovenShape(m, id, [s, e], xs, pins);
  }

  // ---------------------------------------------------------------------
  // The rope object.

  /** IndexOf: the first position of x, or -1. */
  function IndexOf<T(==)>(xs: seq<T>, x: T): (r: int)
    ensures -1 <= r < |xs|
    ensures r == -1 <==> x !in xs
    ensures 0 <= r ==> xs[r] == x && x !in xs[..r]
    decreases |xs|
  {
    if xs == [] then -1
    else if xs[0] == x then 0
    else
      var r := IndexOf(xs[1..], x);
      if r == -1 then -1
      else
        assert xs[1..][..r] == xs[1..r + 1];
        assert xs[..r + 1] == [xs[0]] + xs[1..r + 1];
        r + 1
  }

  /** List.Find by id over the rope objects: the first rope with the id. */
  function FindRope(ropes: seq<RopeData>, id: int): (r: Option<RopeData>)
    ensures r.None? <==> forall i :: 0 <= i < |ropes| ==> ropes[i].id != id
    ensures r.Some? ==> exists i :: 0 <= i < |ropes| && ropes[i] == r.value && r.value.id == id
                                    && forall j :: 0 <= j < i ==> ropes[j].id != id
    decreases |ropes|
  {
    if ropes == [] then None
    else if ropes[0].id == id then Some(ropes[0])
    else
      var r := FindRope(ropes[1..], id);
      assert forall i :: 1 <= i < |ropes| ==> ropes[i] == ropes[1..][i - 1];
      assert r.Some? ==> exists i :: 0 <= i < |ropes| && ropes[i] == r.value && r.value.id == id
                                     && forall j :: 0 <= j < i ==> ropes[j].id != id by {
        if r.Some? {
          var i :| 0 <= i < |ropes[1..]| && ropes[1..][i] == r.value && r.value.id == id
                   && forall j :: 0 <= j < i ==> ropes[1..][j].id != id;
          assert ropes[i + 1] == r.value;
          forall j | 0 <= j < i + 1 ensures ropes[j].id != id {
            if j > 0 { assert ropes[j] == ropes[1..][j - 1]; }
          }
        }
      }
      r
  }

  function RopeViews(ropes: seq<RopeData>): (r: seq<RopeView>)
    reads ropes`renderPriority
    ensures |r| == |ropes|
    ensures forall i :: 0 <= i < |ropes| ==> r[i] == ropes[i].View()
    decreases |ropes|
  {
    if ropes == [] then [] else RopeViews(ropes[..|ropes| - 1]) + [ropes[|ropes| - 1].View()]
  }

  class RopeData {
    const id: int
    /** The pins the rope runs through; two in every level of the game. */
    const pinIds: seq<int>
    var renderPriority: int
    var renderPath: seq<Vec3>

    /** A null pin list in the source becomes the empty list. */
    constructor (id: int, pinIds: seq<int>, renderPriority: int)
      ensures this.id == id && this.pinIds == pinIds && this.renderPriority == renderPriority
      ensures renderPath == []
    {
      this.id := id;
      this.pinIds := pinIds;
      this.renderPriority := renderPriority;
      renderPath := [];
    }

    function View(): RopeView
      reads this`renderPriority
    {
      RopeView(id, pinIds, renderPriority)
    }

    /** Rebuilds the render path from the pins' WorldPos, in pin order. */
    method InitializeRenderPath(allPins: seq<PinData>)
      modifies this`renderPath
      ensures renderPath == BasePath(pinIds, Views(allPins))
    {
      var pins := Views(allPins);
      renderPath := [];
      var i := 0;
      while i < |pinIds|
        invariant 0 <= i <= |pinIds|
        invariant renderPath == BasePath(pinIds[..i], pins)
      {
        assert pinIds[..i + 1][..i] == pinIds[..i];
        var pin := FindPin(pins, pinIds[i]);
        if pin.Some? {
          renderPath := renderPath + [pin.value.worldPos];
        }
        i := i + 1;
      }
      assert pinIds[..i] == pinIds;
    }

    /** Overwrites the path point at the pin's position in PinIds, if that
        position is inside the path; any other call changes nothing. */
    method UpdatePinPositionInPath(pinId: int, newPosition: Vec3)
      modifies this`renderPath
      ensures var k := IndexOf(pinIds, pinId);
        renderPath == if 0 <= k < |old(renderPath)| then old(renderPath)[k := newPosition] else old(renderPath)
    {
      var index := IndexOf(pinIds, pinId);
      if index >= 0 && index < |renderPath| {
        renderPath := renderPath[index := newPosition];
      }
    }

    /** Scans the segments with a running minimum; a strictly smaller distance
        replaces the candidate, so ties keep the first. */
    method FindClosestSegmentIndex(m: MathOracle, point: Vec2) returns (closestIndex: int)
      ensures closestIndex == ClosestSegment(m, renderPath, point)
      ensures |renderPath| < 2 ==> closestIndex == -1
      ensures |renderPath| >= 2 ==>
        && 0 <= closestIndex <= |renderPath| - 2
        && (forall j :: 0 <= j < |renderPath| - 1 ==>
              SegmentDistance(m, renderPath, point, closestIndex) <= SegmentDistance(m, renderPath, point, j))
        && (forall j :: 0 <= j < closestIndex ==>
              SegmentDistance(m, renderPath, point, closestIndex) < SegmentDistance(m, renderPath, point, j))
    {
      if |renderPath| < 2 {
        return -1;
      }
      var minDist: Option<real> := None;
      closestIndex := 0;
      var i := 0;
      while i < |renderPath| - 1
        invariant 0 <= i <= |renderPath| - 1
        invariant i == 0 <==> minDist.None?
        invariant i > 0 ==> closestIndex == ClosestAmong(m, renderPath, point, i)
        invariant i > 0 ==> minDist.value == SegmentDistance(m, renderPath, point, closestIndex)
      {
        var segStart := XY(renderPath[i]);
        var segEnd := XY(renderPath[i + 1]);
        var dist := PointToSegmentDistance(m, point, segStart, segEnd);
        if minDist.None? || dist < minDist.value {
          minDist := Some(dist);
          closestIndex := i;
        }
        i := i + 1;
      }
    }

    /** Splices the detour in after the start of the closest segment. */
    method InsertHelixPointsAtIntersection(m: MathOracle, intersectionPoint: Vec2, helixPoints: seq<Vec3>)
      modifies this`renderPath
      ensures renderPath == Splice(m, old(renderPath), intersectionPoint, helixPoints)
    {
      if |renderPath| < 2 || |helixPoints| == 0 {
        return;
      }
      var insertIndex := FindClosestSegmentIndex(m, intersectionPoint);
      renderPath := renderPath[..insertIndex + 1] + helixPoints + renderPath[insertIndex + 1..];
    }

    /** Rebuilds the base path, then splices a helix detour for every crossing
        where this rope is on top, sorted by distance from the path start and
        processed from the farthest to the nearest. */
    method ApplyHelixAtIntersections(m: MathOracle, intersections: seq<IntersectionData>, allPins: seq<PinData>)
      modifies this`renderPath
      ensures renderPath == Woven(m, id, pinIds, intersections, Views(allPins))
    {
      hide SortByKey, Mine, BasePath, ClosestSegment, HelixPath, Splice, Views;
      ghost var pv := Views(allPins);
      InitializeRenderPath(allPins);
      assert Views(allPins) == pv;
      if |intersections| == 0 {
        return;
      }
      var base := renderPath;
      var myIntersections := SortByKey(m, base, Mine(intersections, id));
      assert Woven(m, id, pinIds, intersections, pv) == WeaveFrom(m, base, myIntersections, 0);
      if |myIntersections| == 0 {
        return;
      }
      var i := |myIntersections| - 1;
      while i >= 0
        invariant -1 <= i < |myIntersections|
        invariant renderPath == WeaveFrom(m, base, myIntersections, i + 1)
        invariant Views(allPins) == pv
        decreases i + 1
      {
        var intersection := myIntersections[i];
        var intersectionPoint3D := Lift(intersection.point, 0.0);
        var direction := DirectionAtPoint(m, renderPath, intersection.point);
        var helixPoints := GenerateHelixPath(m, intersectionPoint3D, direction, RopeTubeRadius,
                                             DefaultHeight, DefaultWrapCount, DefaultSamples);
        InsertHelixPointsAtIntersection(m, intersection.point, helixPoints);
        i := i - 1;
      }
    }
  }
}
