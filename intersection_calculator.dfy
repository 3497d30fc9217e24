/** IntersectionCalculator: exact 2D segment crossing, the pairwise rope
    test with its top/bottom tie-break, the all-pairs sweep, and the
    single-rope count used while a pin is dragged. */
module IntersectionCalculator {
  import opened Vectors
  import opened Pins
  import opened Intersections
  import opened Ropes

  /** The tolerance 1e-6f (taken as the exact real 1e-6). */
  const Epsilon: real := 0.000001

  /** The z component of the 3D cross product of two plane vectors. */
  function Cross(a: Vec2, b: Vec2): real {
    a.x * b.y - a.y * b.x
  }

  function Abs(x: real): real { if x < 0.0 then -x else x }

  /** A parameter strictly inside the segment, at least Epsilon away from
      either end. */
  predicate Inside(t: real) {
    Epsilon < t < 1.0 - Epsilon
  }

  /** The parameter along A -> B of the meeting point of the two lines. */
  function ParamT(a: Vec2, b: Vec2, c: Vec2, d: Vec2): real
    requires Cross(Sub2(b, a), Sub2(d, c)) != 0.0
  {
    Cross(Sub2(c, a), Sub2(d, c)) / Cross(Sub2(b, a), Sub2(d, c))
  }

  /** The parameter along C -> D of the meeting point of the two lines. */
  function ParamU(a: Vec2, b: Vec2, c: Vec2, d: Vec2): real
    requires Cross(Sub2(b, a), Sub2(d, c)) != 0.0
  {
    Cross(Sub2(c, a), Sub2(b, a)) / Cross(Sub2(b, a), Sub2(d, c))
  }

  /** The boolean result of SegmentIntersect and its out parameter. */
  datatype SegmentHit = SegmentHit(intersects: bool, point: Vec2)

  const Miss: SegmentHit := SegmentHit(false, Zero2)

  /** Do the segments A -> B and C -> D cross strictly inside both? */
  function SegmentIntersect(a: Vec2, b: Vec2, c: Vec2, d: Vec2): (h: SegmentHit)
    // parallel, collinear or zero-length segments never cross
    ensures Abs(Cross(Sub2(b, a), Sub2(d, c))) < Epsilon ==> h == Miss
    // a crossing needs both parameters strictly inside, away from the ends
    ensures h.intersects <==>
      Abs(Cross(Sub2(b, a), Sub2(d, c))) >= Epsilon && Inside(ParamT(a, b, c, d)) && Inside(ParamU(a, b, c, d))
    ensures h.intersects ==> h.point == Add2(a, Scale2(Sub2(b, a), ParamT(a, b, c, d)))
    ensures !h.intersects ==> h.point == Zero2
  {
    var r := Sub2(b, a);
    var s := Sub2(d, c);
    var rxs := Cross(r, s);
    if Abs(rxs) < Epsilon then Miss
    else
      var t := Cross(Sub2(c, a), s) / rxs;
      var u := Cross(Sub2(c, a), r) / rxs;
      if t > Epsilon && t < 1.0 - Epsilon && u > Epsilon && u < 1.0 - Epsilon then
        SegmentHit(true, Add2(a, Scale2(r, t)))
      else Miss
  }

  /** In exact arithmetic the crossing point also lies at parameter u on C -> D. */
  lemma HitLiesOnBothSegments(a: Vec2, b: Vec2, c: Vec2, d: Vec2)
    requires SegmentIntersect(a, b, c, d).intersects
    ensures SegmentIntersect(a, b, c, d).point == Add2(c, Scale2(Sub2(d, c), ParamU(a, b, c, d)))
  {
    LinesMeet(a, b, c, d);
  }

  /** A + t (B - A) == C + u (D - C) whenever the lines are not parallel. */
  lemma LinesMeet(a: Vec2, b: Vec2, c: Vec2, d: Vec2)
    requires Cross(Sub2(b, a), Sub2(d, c)) != 0.0
    ensures Add2(a, Scale2(Sub2(b, a), ParamT(a, b, c, d))) == Add2(c, Scale2(Sub2(d, c), ParamU(a, b, c, d)))
  {
    var r, s, w := Sub2(b, a), Sub2(d, c), Sub2(c, a);
    var D := Cross(r, s);
    var t, u := ParamT(a, b, c, d), ParamU(a, b, c, d);
    assert t * D == Cross(w, s);
    assert u * D == Cross(w, r);
    MeetComponent(r.x, s.x, w.x, t, u, D, Cross(w, s), Cross(w, r));
    MeetComponent(r.y, s.y, w.y, t, u, D, Cross(w, s), Cross(w, r));
  }

  /** One coordinate of LinesMeet: rx t - sx u == wx. */
  lemma MeetComponent(rx: real, sx: real, wx: real, t: real, u: real, D: real, ws: real, wr: real)
    requires D != 0.0 && t * D == ws && u * D == wr
    requires rx * ws - sx * wr == wx * D
    ensures rx * t - sx * u == wx
  {
    assert (rx * t - sx * u) * D == rx * (t * D) - sx * (u * D);
  }

  /** Swapping the segments swaps t and u and gives the same result and point. */
  lemma SegmentIntersectSymmetric(a: Vec2, b: Vec2, c: Vec2, d: Vec2)
    ensures SegmentIntersect(c, d, a, b) == SegmentIntersect(a, b, c, d)
    ensures Cross(Sub2(b, a), Sub2(d, c)) != 0.0 ==>
      ParamT(c, d, a, b) == ParamU(a, b, c, d) && ParamU(c, d, a, b) == ParamT(a, b, c, d)
  {
    var r, s, w := Sub2(b, a), Sub2(d, c), Sub2(c, a);
    assert Cross(s, r) == -Cross(r, s);
    assert Sub2(a, c) == Vec2(-w.x, -w.y);
    if Cross(r, s) != 0.0 {
      var D := Cross(r, s);
      assert Cross(Sub2(a, c), r) == -Cross(w, r);
      assert Cross(Sub2(a, c), s) == -Cross(w, s);
      NegDiv(Cross(w, r), D);
      NegDiv(Cross(w, s), D);
      if SegmentIntersect(a, b, c, d).intersects {
        LinesMeet(a, b, c, d);
      }
    }
  }

  lemma NegDiv(x: real, y: real)
    requires y != 0.0
    ensures (-x) / (-y) == x / y
  {
  }

  /** Segments that share an end point never count as crossing. */
  lemma SharedEndpointNeverCrosses(a: Vec2, b: Vec2, c: Vec2, d: Vec2)
    requires a == c || a == d || b == c || b == d
    ensures !SegmentIntersect(a, b, c, d).intersects
  {
    var r, s, w := Sub2(b, a), Sub2(d, c), Sub2(c, a);
    var D := Cross(r, s);
    if D != 0.0 && Abs(D) >= Epsilon {
      if a == c {
        assert Cross(w, s) == 0.0;
        assert ParamT(a, b, c, d) == 0.0;
      } else if a == d {
        assert w == Vec2(-s.x, -s.y);
        assert Cross(w, s) == 0.0;
        assert ParamT(a, b, c, d) == 0.0;
      } else if b == c {
        assert w == r;
        assert Cross(w, r) == 0.0;
        assert ParamU(a, b, c, d) == 0.0;
      } else {
        assert w == Sub2(r, s);
        assert Cross(w, s) == D;
        DivSelf(D);
        assert ParamT(a, b, c, d) == 1.0;
      }
    }
  }

  // ---------------------------------------------------------------------
  // Ropes.

  /** The end points of a rope's straight segment: the LogicPos of its start
      and end pins, when both exist. */
  datatype Segment = Segment(start: Vec2, end: Vec2)

  function RopeSegment(rope: RopeView, pins: seq<PinView>): (r: Option<Segment>)
    ensures r.Some? <==> FindPin(pins, rope.StartPinId()).Some? && FindPin(pins, rope.EndPinId()).Some?
  {
    var p0 := FindPin(pins, rope.StartPinId());
    var p1 := FindPin(pins, rope.EndPinId());
    if p0.None? || p1.None? then None else Some(Segment(p0.value.logicPos, p1.value.logicPos))
  }

  /** The rope drawn on top: the higher render priority, rope A on a tie. */
  function TopRopeId(ropeA: RopeView, ropeB: RopeView): (r: int)
    ensures r == ropeA.id || r == ropeB.id
    ensures ropeA.renderPriority > ropeB.renderPriority ==> r == ropeA.id
    ensures ropeA.renderPriority < ropeB.renderPriority ==> r == ropeB.id
    ensures ropeA.renderPriority == ropeB.renderPriority ==> r == ropeA.id
  {
    if ropeA.renderPriority >= ropeB.renderPriority then ropeA.id else ropeB.id
  }

  /** Do two different ropes, both with their end pins present, cross? */
  predicate RopesCross(ropeA: RopeView, ropeB: RopeView, pins: seq<PinView>) {
    && ropeA.id != ropeB.id
    && var sa := RopeSegment(ropeA, pins);
    && var sb := RopeSegment(ropeB, pins);
    && sa.Some? && sb.Some?
    && SegmentIntersect(sa.value.start, sa.value.end, sb.value.start, sb.value.end).intersects
  }

  /** The crossing records of two ropes: at most one, naming rope A and rope
      B in argument order and the top rope by priority. */
  function FindRopeIntersections(ropeA: RopeView, ropeB: RopeView, pins: seq<PinView>): (r: seq<IntersectionData>)
    ensures |r| <= 1
    ensures ropeA.id == ropeB.id ==> r == []
    ensures |r| == 1 ==> r[0].ropeAId == ropeA.id && r[0].ropeBId == ropeB.id
                         && r[0].topRopeId == TopRopeId(ropeA, ropeB)
  {
    if ropeA.id == ropeB.id then []
    else
      var pinA0 := FindPin(pins, ropeA.StartPinId());
      var pinA1 := FindPin(pins, ropeA.EndPinId());
      var pinB0 := FindPin(pins, ropeB.StartPinId());
      var pinB1 := FindPin(pins, ropeB.EndPinId());
      if pinA0.None? || pinA1.None? || pinB0.None? || pinB1.None? then []
      else
        var hit := SegmentIntersect(pinA0.value.logicPos, pinA1.value.logicPos, pinB0.value.logicPos, pinB1.value.logicPos);
        if hit.intersects then [NewIntersection(ropeA.id, ropeB.id, hit.point, TopRopeId(ropeA, ropeB))]
        else []
  }

  /** No record for a rope whose start or end pin is missing; otherwise one
      record exactly when the two segments cross, carrying the crossing point
      and the segment indices 0. */
  lemma FindRopeIntersectionsCases(ropeA: RopeView, ropeB: RopeView, pins: seq<PinView>)
    ensures RopeSegment(ropeA, pins).None? || RopeSegment(ropeB, pins).None? ==>
      FindRopeIntersections(ropeA, ropeB, pins) == []
    ensures |FindRopeIntersections(ropeA, ropeB, pins)| == 1 <==> RopesCross(ropeA, ropeB, pins)
    ensures RopesCross(ropeA, ropeB, pins) ==>
      var sa, sb := RopeSegment(ropeA, pins).value, RopeSegment(ropeB, pins).value;
      FindRopeIntersections(ropeA, ropeB, pins)[0]
        == NewIntersection(ropeA.id, ropeB.id, SegmentIntersect(sa.start, sa.end, sb.start, sb.end).point,
                           TopRopeId(ropeA, ropeB))
  {
  }

  /** Testing the pair in the other order finds the same crossing at the same
      point, with the rope roles swapped; the top rope is the same unless the
      priorities tie. */
  lemma SwappedRopesAgree(ropeA: RopeView, ropeB: RopeView, pins: seq<PinView>)
    ensures |FindRopeIntersections(ropeB, ropeA, pins)| == |FindRopeIntersections(ropeA, ropeB, pins)|
    ensures |FindRopeIntersections(ropeA, ropeB, pins)| == 1 ==>
      var x, y := FindRopeIntersections(ropeA, ropeB, pins)[0], FindRopeIntersections(ropeB, ropeA, pins)[0];
      && y.point == x.point && y.ropeAId == x.ropeBId && y.ropeBId == x.ropeAId
      && (ropeA.renderPriority != ropeB.renderPriority ==> y.topRopeId == x.topRopeId)
  {
    FindRopeIntersectionsCases(ropeA, ropeB, pins);
    FindRopeIntersectionsCases(ropeB, ropeA, pins);
    var sa, sb := RopeSegment(ropeA, pins), RopeSegment(ropeB, pins);
    if sa.Some? && sb.Some? {
      SegmentIntersectSymmetric(sa.value.start, sa.value.end, sb.value.start, sb.value.end);
    }
  }

  // ---------------------------------------------------------------------
  // The all-pairs sweep.

  /** The records of pairs (i, i+1), ..., (i, j-1), in that order. */
  function PairsRow(ropes: seq<RopeView>, pins: seq<PinView>, i: int, j: int): seq<IntersectionData>
    requires 0 <= i < |ropes| && j <= |ropes|
    decreases j
  {
    if j <= i + 1 then []
    else PairsRow(ropes, pins, i, j - 1) + FindRopeIntersections(ropes[i], ropes[j - 1], pins)
  }

  /** The records of all pairs whose first index is below n, row by row. */
  function Sweep(ropes: seq<RopeView>, pins: seq<PinView>, n: int): seq<IntersectionData>
    requires 0 <= n <= |ropes|
  {
    if n == 0 then [] else Sweep(ropes, pins, n - 1) + PairsRow(ropes, pins, n - 1, |ropes|)
  }

  /** CalculateAllIntersections as a function. */
  function AllIntersections(ropes: seq<RopeView>, pins: seq<PinView>): seq<IntersectionData> {
    Sweep(ropes, pins, |ropes|)
  }

  /** x is one of the records of the test of the pair i < k. */
  predicate Recorded(ropes: seq<RopeView>, pins: seq<PinView>, i: int, k: int, x: IntersectionData) {
    0 <= i < k < |ropes| && x in FindRopeIntersections(ropes[i], ropes[k], pins)
  }

  lemma {:induction false} PairsRowMembers(ropes: seq<RopeView>, pins: seq<PinView>, i: int, j: int, x: IntersectionData)
    requires 0 <= i < |ropes| && j <= |ropes|
    ensures x in PairsRow(ropes, pins, i, j) <==> exists k :: k < j && Recorded(ropes, pins, i, k, x)
    decreases j
  {
    hide FindRopeIntersections;
    if j > i + 1 {
      PairsRowMembers(ropes, pins, i, j - 1, x);
      if x in FindRopeIntersections(ropes[i], ropes[j - 1], pins) {
        assert Recorded(ropes, pins, i, j - 1, x);
      }
    }
  }

  lemma {:induction false} SweepMembers(ropes: seq<RopeView>, pins: seq<PinView>, n: int, x: IntersectionData)
    requires 0 <= n <= |ropes|
    ensures x in Sweep(ropes, pins, n) <==> exists i, k :: i < n && Recorded(ropes, pins, i, k, x)
  {
    hide FindRopeIntersections, PairsRow;
    if n > 0 {
      var prev, row := Sweep(ropes, pins, n - 1), PairsRow(ropes, pins, n - 1, |ropes|);
      assert Sweep(ropes, pins, n) == prev + row;
      SweepMembers(ropes, pins, n - 1, x);
      PairsRowMembers(ropes, pins, n - 1, |ropes|, x);
      if x in prev + row {
        if x in prev {
          var i, k :| i < n - 1 && Recorded(ropes, pins, i, k, x);
          assert i < n && Recorded(ropes, pins, i, k, x);
        } else {
          assert x in row;
          var k :| k < |ropes| && Recorded(ropes, pins, n - 1, k, x);
          assert n - 1 < n && Recorded(ropes, pins, n - 1, k, x);
        }
      }
      if exists i, k :: i < n && Recorded(ropes, pins, i, k, x) {
        var i, k :| i < n && Recorded(ropes, pins, i, k, x);
        if i < n - 1 {
          assert x in prev;
        } else {
          assert x in row;
        }
      }
    }
  }

  /** Every record of the sweep comes from exactly the test of some pair i < k,
      with rope A the lower index, and every crossing pair i < k is recorded. */
  lemma AllIntersectionsMembers(ropes: seq<RopeView>, pins: seq<PinView>, x: IntersectionData)
    ensures x in AllIntersections(ropes, pins) <==> exists i, k :: Recorded(ropes, pins, i, k, x)
  {
    SweepMembers(ropes, pins, |ropes|, x);
  }

  /** Each record names the lower-index rope as rope A, and its top rope is
      one of its two ropes, which differ. */
  lemma AllIntersectionsRecordShape(ropes: seq<RopeView>, pins: seq<PinView>, x: IntersectionData)
    requires x in AllIntersections(ropes, pins)
    ensures exists i, k :: 0 <= i < k < |ropes| && x.ropeAId == ropes[i].id && x.ropeBId == ropes[k].id
                           && RopesCross(ropes[i], ropes[k], pins)
    ensures x.ropeAId != x.ropeBId && x.TopIsMember()
  {
    AllIntersectionsMembers(ropes, pins, x);
    var i, k :| Recorded(ropes, pins, i, k, x);
  }

  /** A rope whose render priority is above every other rope's is on top at
      each of its crossings (rope ids distinct). */
  lemma HighestPriorityIsTop(ropes: seq<RopeView>, pins: seq<PinView>, top: int, x: IntersectionData)
    requires 0 <= top < |ropes|
    requires forall i, k :: 0 <= i < k < |ropes| ==> ropes[i].id != ropes[k].id
    requires forall i :: 0 <= i < |ropes| && i != top ==> ropes[i].renderPriority < ropes[top].renderPriority
    requires x in AllIntersections(ropes, pins)
    requires x.ropeAId == ropes[top].id || x.ropeBId == ropes[top].id
    ensures x.topRopeId == ropes[top].id
  {
    AllIntersectionsMembers(ropes, pins, x);
    var i, k :| Recorded(ropes, pins, i, k, x);
    assert x.ropeAId == ropes[i].id && x.ropeBId == ropes[k].id;
  }

  /** The all-pairs sweep over the live ropes and pins. */
  method CalculateAllIntersections(ropes: seq<RopeData>, pins: seq<PinData>) returns (result: seq<IntersectionData>)
    ensures result == AllIntersections(RopeViews(ropes), Views(pins))
  {
    hide FindRopeIntersections;
    ghost var rv := RopeViews(ropes);
    var pv := Views(pins);
    result := [];
    var i := 0;
    while i < |ropes|
      invariant 0 <= i <= |ropes|
      invariant result == Sweep(rv, pv, i)
    {
      var j := i + 1;
      while j < |ropes|
        invariant i + 1 <= j <= |ropes|
        invariant result == Sweep(rv, pv, i) + PairsRow(rv, pv, i, j)
      {
        var crossings := FindRopeIntersections(ropes[i].View(), ropes[j].View(), pv);
        result := result + crossings;
        j := j + 1;
      }
      i := i + 1;
    }
  }

  // ---------------------------------------------------------------------
  // The drag preview count.

  /** The ropes among others, other than the dragged one (by id), that the
      dragged rope crosses, in list order. */
  function CrossedBy(dragged: RopeView, others: seq<RopeView>, pins: seq<PinView>): (r: seq<RopeView>)
    ensures |r| <= |others|
    decreases |others|
  {
    if others == [] then []
    else
      var last := others[|others| - 1];
      CrossedBy(dragged, others[..|others| - 1], pins)
        + (if last.id != dragged.id && RopesCross(dragged, last, pins) then [last] else [])
  }

  /** The ropes CrossedBy keeps are exactly the other ropes the dragged one crosses. */
  lemma {:induction false} CrossedByMembers(dragged: RopeView, others: seq<RopeView>, pins: seq<PinView>, o: RopeView)
    ensures o in CrossedBy(dragged, others, pins) <==> o in others && o.id != dragged.id && RopesCross(dragged, o, pins)
    decreases |others|
  {
    if others != [] {
      var last := others[|others| - 1];
      assert others == others[..|others| - 1] + [last];
      CrossedByMembers(dragged, others[..|others| - 1], pins, o);
    }
  }

  /** The pin views with the moved pin's LogicPos replaced by the preview
      position (WorldPos is untouched, as in the source). */
  function PreviewViews(pins: seq<PinData>, moved: PinData, previewPos: Vec2): (r: seq<PinView>)
    reads pins, moved
    ensures |r| == |pins|
    ensures forall i :: 0 <= i < |pins| ==>
      r[i] == if pins[i] == moved then pins[i].View().(logicPos := previewPos) else pins[i].View()
    decreases |pins|
  {
    if pins == [] then []
    else
      var p := pins[|pins| - 1];
      PreviewViews(pins[..|pins| - 1], moved, previewPos)
        + [if p == moved then p.View().(logicPos := previewPos) else p.View()]
  }

  /** CalculatePreviewIntersectionCount as a function: the number of other
      ropes the first rope with the given id crosses, 0 when there is none. */
  function PreviewCount(ropes: seq<RopeView>, pins: seq<PinView>, dragged: Option<RopeView>): int {
    match dragged
    case None => 0
    case Some(d) => |CrossedBy(d, ropes, pins)|
  }

  /** Counts the crossings of the moved pin's rope with every other rope at
      the preview position, restoring the pin's LogicPos before returning. The
      count is that of the state at the call with the moved pin's LogicPos
      replaced by the preview position. */
  method CalculatePreviewIntersectionCount(movedPin: PinData, previewPos: Vec2, ropes: seq<RopeData>, pins: seq<PinData>)
    returns (count: int)
    modifies movedPin`logicPos
    ensures movedPin.logicPos == old(movedPin.logicPos)
    ensures var dragged := FindRope(ropes, movedPin.ropeId);
      count == PreviewCount(old(RopeViews(ropes)), old(PreviewViews(pins, movedPin, previewPos)),
                            if dragged.Some? then Some(old(dragged.value.View())) else None)
  {
    hide CrossedBy, FindRopeIntersections, RopesCross;
    var originalPos := movedPin.logicPos;
    ghost var preview := PreviewViews(pins, movedPin, previewPos);
    movedPin.logicPos := previewPos;
    var draggedRope := FindRope(ropes, movedPin.ropeId);
    if draggedRope.None? {
      movedPin.logicPos := originalPos;
      return 0;
    }
    var pv := Views(pins);
    assert pv == preview;
    count := CountCrossings(draggedRope.value.View(), ropes, pv);
    movedPin.logicPos := originalPos;
  }

  /** The loop of CalculatePreviewIntersectionCount: the number of ropes other
      than the dragged one (by id) whose segment crosses the dragged rope's. */
  method CountCrossings(dragged: RopeView, ropes: seq<RopeData>, pv: seq<PinView>) returns (count: int)
    ensures count == |CrossedBy(dragged, RopeViews(ropes), pv)|
  {
    hide RopesCross, RopeSegment, SegmentIntersect;
    count := 0;
    var i := 0;
    while i < |ropes|
      invariant 0 <= i <= |ropes|
      invariant count == |CrossedBy(dragged, RopeViews(ropes)[..i], pv)|
    {
      var otherRope := ropes[i];
      ghost var seen, ov := RopeViews(ropes)[..i], otherRope.View();
      assert RopeViews(ropes)[..i + 1] == seen + [ov];
      assert (seen + [ov])[..i] == seen;
      FindRopeIntersectionsCases(dragged, ov, pv);
      if otherRope.id != dragged.id {
        var crossings := FindRopeIntersections(dragged, otherRope.View(), pv);
        count := count + |crossings|;
      }
      i := i + 1;
    }
    assert RopeViews(ropes)[..i] == RopeViews(ropes);
  }

  /** Each rope the preview counts also appears, paired with the dragged rope,
      in the full sweep over the same state (rope ids distinct). */
  lemma PreviewCountedPairsAreRecorded(ropes: seq<RopeView>, pins: seq<PinView>, k: int, o: RopeView)
    requires 0 <= k < |ropes|
    requires o in CrossedBy(ropes[k], ropes, pins)
    ensures exists x :: x in AllIntersections(ropes, pins) && {x.ropeAId, x.ropeBId} == {ropes[k].id, o.id}
  {
    CrossedByMembers(ropes[k], ropes, pins, o);
    var j :| 0 <= j < |ropes| && ropes[j] == o;
    assert j != k;
    FindRopeIntersectionsCases(ropes[k], ropes[j], pins);
    if k < j {
      var x := FindRopeIntersections(ropes[k], ropes[j], pins)[0];
      AllIntersectionsMembers(ropes, pins, x);
      assert Recorded(ropes, pins, k, j, x);
      assert {x.ropeAId, x.ropeBId} == {ropes[k].id, o.id};
    } else {
      SwappedRopesAgree(ropes[k], ropes[j], pins);
      var x := FindRopeIntersections(ropes[j], ropes[k], pins)[0];
      AllIntersectionsMembers(ropes, pins, x);
      assert Recorded(ropes, pins, j, k, x);
      assert {x.ropeAId, x.ropeBId} == {ropes[k].id, o.id};
    }
  }

  /** Conversely, with distinct rope ids, each rope that the full sweep pairs
      with the dragged rope is counted by the preview over the same state. */
  lemma RecordedPairsAreCounted(ropes: seq<RopeView>, pins: seq<PinView>, k: int, j: int, x: IntersectionData)
    requires 0 <= k < |ropes| && 0 <= j < |ropes|
    requires forall a, b :: 0 <= a < b < |ropes| ==> ropes[a].id != ropes[b].id
    requires x in AllIntersections(ropes, pins)
    requires (x.ropeAId == ropes[k].id && x.ropeBId == ropes[j].id) || (x.ropeAId == ropes[j].id && x.ropeBId == ropes[k].id)
    ensures ropes[j] in CrossedBy(ropes[k], ropes, pins)
  {
    AllIntersectionsMembers(ropes, pins, x);
    var a, b :| Recorded(ropes, pins, a, b, x);
    FindRopeIntersectionsCases(ropes[a], ropes[b], pins);
    assert x.ropeAId == ropes[a].id && x.ropeBId == ropes[b].id;
    if a == k {
      assert b == j;
    } else {
      assert a == j && b == k;
      SwappedRopesAgree(ropes[a], ropes[b], pins);
      FindRopeIntersectionsCases(ropes[b], ropes[a], pins);
    }
    CrossedByMembers(ropes[k], ropes, pins, ropes[j]);
  }
}
