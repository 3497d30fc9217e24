/** IntersectionData: one crossing of two ropes, with the rope drawn on top. */
module Intersections {
  import opened Vectors

  /** Every field is written once, by the constructor; the segment indices
      are always 0 because a rope joins exactly two pins. */
  datatype IntersectionData = IntersectionData(
    ropeAId: int,
    ropeBId: int,
    segmentAIndex: int,
    segmentBIndex: int,
    point: Vec2,
    topRopeId: int)
  {
    /** The rope that is not on top (rope A unless rope A is on top). */
    function BottomRopeId(): int {
      if topRopeId == ropeAId then ropeBId else ropeAId
    }

    predicate IsSameRope() {
      ropeAId == ropeBId
    }

    /** The top rope is one of the two ropes of the record. */
    predicate TopIsMember() {
      topRopeId == ropeAId || topRopeId == ropeBId
    }
  }

  /** The source constructor: stores its arguments, segment indices 0. */
  function NewIntersection(ropeAId: int, ropeBId: int, point: Vec2, topRopeId: int): (r: IntersectionData)
    ensures r.ropeAId == ropeAId && r.ropeBId == ropeBId
    ensures r.point == point && r.topRopeId == topRopeId
    ensures r.segmentAIndex == 0 && r.segmentBIndex == 0
  {
    IntersectionData(ropeAId, ropeBId, 0, 0, point, topRopeId)
  }

  /** BottomRopeId picks rope B exactly when rope A is on top. */
  lemma BottomRopeIdCases(x: IntersectionData)
    ensures x.topRopeId == x.ropeAId ==> x.BottomRopeId() == x.ropeBId
    ensures x.topRopeId != x.ropeAId ==> x.BottomRopeId() == x.ropeAId
  {
  }

  /** For a record of two different ropes whose top rope is one of them,
      top and bottom are the two ropes, in some order, and differ. */
  lemma TopBottomPartition(x: IntersectionData)
    requires !x.IsSameRope() && x.TopIsMember()
    ensures {x.topRopeId, x.BottomRopeId()} == {x.ropeAId, x.ropeBId}
    ensures x.topRopeId != x.BottomRopeId()
  {
  }

  /** A record of one rope with itself has that rope on the bottom too. */
  lemma SameRopeBottom(x: IntersectionData)
    requires x.IsSameRope()
    ensures x.BottomRopeId() == x.ropeAId
  {
  }
}
