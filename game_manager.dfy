/** GameManager: owns the level's slots, pins, ropes and crossing records,
    snaps pins into slots, recomputes the crossings and reports changes.
    The singleton becomes an explicit object; each operation returns, as a
    ghost result, the C# event notifications it raises, in order. */
module GameManagement {
  import opened Vectors
  import opened Slots
  import opened Pins
  import opened Intersections
  import opened Ropes
  import opened IntersectionCalculator

  /** The notifications GameManager raises, in the order raised. */
  datatype GameEvent =
    | RopePathsUpdated
    | IntersectionCountChanged(count: int)
    | LevelCleared
    | PinSnapped(pinId: int, slotId: int)

  /** The notifications of one recompute that goes from previousCount
      records to count records. */
  function RecalcEvents(previousCount: int, count: int): (r: seq<GameEvent>)
    ensures |r| >= 1 && r[0] == RopePathsUpdated
    ensures IntersectionCountChanged(count) in r <==> count != previousCount
    ensures forall c :: IntersectionCountChanged(c) in r ==> c == count
    ensures LevelCleared in r <==> count == 0
    ensures LevelCleared in r ==> r[|r| - 1] == LevelCleared
  {
    [RopePathsUpdated]
      + (if count != previousCount then [IntersectionCountChanged(count)] else [])
      + (if count == 0 then [LevelCleared] else [])
  }

  /** A recompute that finds as many records as the previous one reports no
      count change; it still reports a cleared level when there are none. */
  lemma RepeatedRecomputeIsQuiet(count: int)
    ensures forall c :: IntersectionCountChanged(c) !in RecalcEvents(count, count)
    ensures RecalcEvents(count, count) == if count == 0 then [RopePathsUpdated, LevelCleared] else [RopePathsUpdated]
  {
  }

  // ---------------------------------------------------------------------
  // Occupancy duality on value snapshots.

  /** Slots record pin ids and pins record slot list indices, and the two
      agree in both directions; pin ids are distinct and never NoPin. */
  predicate Agree(occ: seq<int>, pins: seq<PinView>) {
    && (forall p, q :: 0 <= p < q < |pins| ==> pins[p].id != pins[q].id)
    && (forall p :: 0 <= p < |pins| ==> pins[p].id != NoPin)
    && (forall p :: 0 <= p < |pins| && 0 <= pins[p].slotIndex < |occ| ==> occ[pins[p].slotIndex] == pins[p].id)
    && (forall s :: 0 <= s < |occ| && occ[s] != NoPin ==>
          exists p :: 0 <= p < |pins| && pins[p].id == occ[s] && pins[p].slotIndex == s)
  }

  /** Agreement reads only ids and slot indices: moving pins keeps it. */
  lemma AgreeIgnoresPositions(occ: seq<int>, a: seq<PinView>, b: seq<PinView>)
    requires |a| == |b|
    requires forall i :: 0 <= i < |a| ==> a[i].id == b[i].id && a[i].slotIndex == b[i].slotIndex
    requires Agree(occ, a)
    ensures Agree(occ, b)
  {
    forall s | 0 <= s < |occ| && occ[s] != NoPin
      ensures exists p :: 0 <= p < |b| && b[p].id == occ[s] && b[p].slotIndex == s
    {
      var p :| 0 <= p < |a| && a[p].id == occ[s] && a[p].slotIndex == s;
      assert b[p].id == occ[s] && b[p].slotIndex == s;
    }
  }

  lemma AgreedIdsDistinct(occ: seq<int>, pins: seq<PinView>)
    requires Agree(occ, pins)
    ensures forall p, q :: 0 <= p < |pins| && 0 <= q < |pins| && pins[p].id == pins[q].id ==> p == q
  {
  }

  /** The occupants after a snap: the previous slot (if a list index) is
      released, then the target slot (if a list index) records the pin. */
  function SnapOccupants(occ: seq<int>, previous: int, target: int, pinId: int): (r: seq<int>)
    ensures |r| == |occ|
    ensures 0 <= target < |occ| ==> r[target] == pinId
    ensures forall s :: 0 <= s < |occ| && s != target ==>
      r[s] == if s == previous then NoPin else occ[s]
  {
    var released := if 0 <= previous < |occ| then occ[previous := NoPin] else occ;
    if 0 <= target < |occ| then released[target := pinId] else released
  }

  /** The snapped pin: its slot index and both positions follow the target. */
  function SnapPinView(p: PinView, target: int, position: Vec2): PinView {
    p.(slotIndex := target, logicPos := position, worldPos := Lift(position, 0.0))
  }

  /** Snapping a listed pin into an empty slot keeps occupancy duality:
      occ' and pins' are the occupants and pin snapshots after pin k moved
      to the target index. */
  lemma SnapPreservesAgreement(occ: seq<int>, pins: seq<PinView>, occ': seq<int>, pins': seq<PinView>,
                               k: int, target: int, position: Vec2)
    requires Agree(occ, pins)
    requires 0 <= k < |pins|
    requires 0 <= target < |occ| ==> occ[target] == NoPin
    requires occ' == SnapOccupants(occ, pins[k].slotIndex, target, pins[k].id)
    requires |pins'| == |pins|
    requires forall j :: 0 <= j < |pins| ==> pins'[j] == if j == k then SnapPinView(pins[j], target, position) else pins[j]
    ensures Agree(occ', pins')
  {
    var P := pins[k];
    forall p | 0 <= p < |pins'| && 0 <= pins'[p].slotIndex < |occ'|
      ensures occ'[pins'[p].slotIndex] == pins'[p].id
    {
      if p != k {
        var q := pins[p].slotIndex;
        assert occ[q] == pins[p].id;
        assert q != target;
        assert q != P.slotIndex;
      }
    }
    forall s | 0 <= s < |occ'| && occ'[s] != NoPin
      ensures exists p :: 0 <= p < |pins'| && pins'[p].id == occ'[s] && pins'[p].slotIndex == s
    {
      if s == target {
        assert pins'[k].id == occ'[s] && pins'[k].slotIndex == s;
      } else {
        assert s != P.slotIndex && occ'[s] == occ[s];
        var p :| 0 <= p < |pins| && pins[p].id == occ[s] && pins[p].slotIndex == s;
        assert p != k;
        assert pins'[p].id == occ'[s] && pins'[p].slotIndex == s;
      }
    }
  }

  // ---------------------------------------------------------------------
  // Lookups by id and the nearest-slot search, as functions.

  /** List.Find over the pin objects: the first pin with the id, or null. */
  function FindPinById(pins: seq<PinData>, id: int): (r: PinData?)
    ensures r == null <==> forall i :: 0 <= i < |pins| ==> pins[i].id != id
    ensures r != null ==> exists i :: 0 <= i < |pins| && pins[i] == r && r.id == id
                                      && forall j :: 0 <= j < i ==> pins[j].id != id
    decreases |pins|
  {
    if pins == [] then null
    else if pins[0].id == id then pins[0]
    else
      var r := FindPinById(pins[1..], id);
      assert forall i :: 1 <= i < |pins| ==> pins[i] == pins[1..][i - 1];
      assert r != null ==> exists i :: 0 <= i < |pins| && pins[i] == r && r.id == id
                                       && forall j :: 0 <= j < i ==> pins[j].id != id by {
        if r != null {
          var i :| 0 <= i < |pins[1..]| && pins[1..][i] == r && r.id == id
                   && forall j :: 0 <= j < i ==> pins[1..][j].id != id;
          assert pins[i + 1] == r;
        }
      }
      r
  }

  /** Vector2.Distance from the position to the slot. */
  function SlotDistance(m: MathOracle, position: Vec2, slot: SlotData): real {
    m.sqrt(DistSq2(position, slot.position))
  }

  /** Slot k is a snap candidate: empty and within maxDistance. */
  predicate Candidate(m: MathOracle, slots: seq<SlotData>, position: Vec2, maxDistance: real, k: int)
    reads slots`occupiedByPinId
    requires 0 <= k < |slots|
  {
    slots[k].IsEmpty() && SlotDistance(m, position, slots[k]) <= maxDistance
  }

  /** The index FindNearestEmptySlot settles on after the first n slots, -1
      for none: a strictly nearer candidate replaces the one found so far. */
  function NearestAmong(m: MathOracle, slots: seq<SlotData>, position: Vec2, maxDistance: real, n: int): (r: int)
    reads slots`occupiedByPinId
    requires 0 <= n <= |slots|
    ensures -1 <= r < n
    ensures r >= 0 ==> Candidate(m, slots, position, maxDistance, r)
  {
    if n == 0 then -1
    else
      var r := NearestAmong(m, slots, position, maxDistance, n - 1);
      if Candidate(m, slots, position, maxDistance, n - 1)
         && (r == -1 || SlotDistance(m, position, slots[n - 1]) < SlotDistance(m, position, slots[r]))
      then n - 1
      else r
  }

  /** The search finds nothing exactly when no slot is a candidate, and
      otherwise a candidate at minimal distance, the earliest on ties. */
  lemma {:induction false} NearestAmongIsNearest(m: MathOracle, slots: seq<SlotData>, position: Vec2,
                                                 maxDistance: real, n: int)
    requires 0 <= n <= |slots|
    ensures var r := NearestAmong(m, slots, position, maxDistance, n);
      && (r == -1 <==> forall k :: 0 <= k < n ==> !Candidate(m, slots, position, maxDistance, k))
      && (r >= 0 ==> forall k :: 0 <= k < n && Candidate(m, slots, position, maxDistance, k) ==>
                       SlotDistance(m, position, slots[r]) <= SlotDistance(m, position, slots[k]))
      && (r >= 0 ==> forall k :: 0 <= k < r && Candidate(m, slots, position, maxDistance, k) ==>
                       SlotDistance(m, position, slots[r]) < SlotDistance(m, position, slots[k]))
  {
    if n > 0 {
      NearestAmongIsNearest(m, slots, position, maxDistance, n - 1);
    }
  }

  /** The rope loop of SetLevelData: every rope's path is reset to the
      world positions of its pins. */
  method InitializeAll(ropes: seq<RopeData>, pins: seq<PinData>)
    modifies ropes`renderPath
    ensures forall r :: r in ropes ==> r.renderPath == BasePath(r.pinIds, Views(pins))
  {
    hide BasePath, Views;
    ghost var pv := Views(pins);
    var i := 0;
    while i < |ropes|
      invariant 0 <= i <= |ropes|
      invariant Views(pins) == pv
      invariant forall k :: 0 <= k < i ==> ropes[k].renderPath == BasePath(ropes[k].pinIds, pv)
    {
      ropes[i].InitializeRenderPath(pins);
      i := i + 1;
    }
  }

  /** The rope loop of RecalculateIntersections: every rope is re-woven
      over the same crossing list; render priorities stay as they were. */
  method ApplyHelixToAll(m: MathOracle, ropes: seq<RopeData>, xs: seq<IntersectionData>, pins: seq<PinData>)
    modifies ropes`renderPath
    ensures forall r :: r in ropes ==> r.renderPath == Woven(m, r.id, r.pinIds, xs, Views(pins))
  {
    hide Woven, Views;
    ghost var pv := Views(pins);
    var i := 0;
    while i < |ropes|
      invariant 0 <= i <= |ropes|
      invariant Views(pins) == pv
      invariant forall k :: 0 <= k < i ==> ropes[k].renderPath == Woven(m, ropes[k].id, ropes[k].pinIds, xs, pv)
    {
      ghost var before := seq(|ropes|, k requires 0 <= k < |ropes| reads ropes => ropes[k].renderPath);
      ropes[i].ApplyHelixAtIntersections(m, xs, pins);
      forall k | 0 <= k < i + 1
        ensures ropes[k].renderPath == Woven(m, ropes[k].id, ropes[k].pinIds, xs, pv)
      {
        if ropes[k] != ropes[i] {
          assert ropes[k].renderPath == before[k];
        }
      }
      i := i + 1;
    }
  }

  // ---------------------------------------------------------------------
  // The manager.

  class GameManager {
    /** Square root, sine, cosine and normalisation used by the geometry. */
    const math: MathOracle
    var slots: seq<SlotData>
    var pins: seq<PinData>
    var ropes: seq<RopeData>
    var intersections: seq<IntersectionData>

    constructor (math: MathOracle)
      ensures this.math == math
      ensures slots == [] && pins == [] && ropes == [] && intersections == []
    {
      this.math := math;
      slots, pins, ropes, intersections := [], [], [], [];
    }

    /** Slot objects are distinct and slot occupants agree with pin slot
        indices in both directions. */
    predicate OccupancyAgrees()
      reads this`slots, this`pins, slots`occupiedByPinId, pins`slotIndex, pins`logicPos, pins`worldPos
    {
      && (forall i, j :: 0 <= i < j < |slots| ==> slots[i] != slots[j])
      && Agree(Occupants(slots), Views(pins))
    }

    /** OccupancyAgrees in terms of the snapshots it reads, for callers
        that keep its definition hidden. */
    lemma OccupancyAgreesByViews()
      ensures OccupancyAgrees() <==>
        (forall i, j :: 0 <= i < j < |slots| ==> slots[i] != slots[j]) && Agree(Occupants(slots), Views(pins))
    {
    }

    /** Installs the level's lists (a null list in the source becomes the
        empty list), builds every rope's base path and recomputes. */
    method SetLevelData(slots: seq<SlotData>, pins: seq<PinData>, ropes: seq<RopeData>)
      returns (ghost raised: seq<GameEvent>)
      modifies this`slots, this`pins, this`ropes, this`intersections, ropes`renderPath
      ensures this.slots == slots && this.pins == pins && this.ropes == ropes
      ensures intersections == AllIntersections(RopeViews(ropes), Views(pins))
      ensures forall r :: r in ropes ==> r.renderPath == Woven(math, r.id, r.pinIds, intersections, Views(pins))
      ensures raised == RecalcEvents(old(|intersections|), |intersections|)
    {
      hide *;
      this.slots := slots;
      this.pins := pins;
      this.ropes := ropes;
      InitializeAll(ropes, pins);
      raised := RecalculateIntersections();
    }

    /** Replaces the crossing list wholesale with the all-pairs result,
        re-weaves every rope, then reports: paths updated; the new count if
        it changed; a cleared level whenever no crossing is left. */
    method RecalculateIntersections() returns (ghost raised: seq<GameEvent>)
      modifies this`intersections, ropes`renderPath
      ensures intersections == AllIntersections(RopeViews(ropes), Views(pins))
      ensures forall r :: r in ropes ==> r.renderPath == Woven(math, r.id, r.pinIds, intersections, Views(pins))
      ensures raised == RecalcEvents(old(|intersections|), |intersections|)
      ensures OccupancyAgrees() == old(OccupancyAgrees())
    {
      hide *;
      ghost var rv, pv, agreed := RopeViews(ropes), Views(pins), OccupancyAgrees();
      var previousCount := |intersections|;
      intersections := CalculateAllIntersections(ropes, pins);
      ApplyHelixToAll(math, ropes, intersections, pins);
      assert RopeViews(ropes) == rv && Views(pins) == pv && OccupancyAgrees() == agreed;
      raised := RecalcEvents(previousCount, |intersections|);
    }

    function GetSlotByIndex(index: int): (r: SlotData?)
      reads this`slots
      ensures r == null <==> index < 0 || index >= |slots|
      ensures r != null ==> r == slots[index]
    {
      if index < 0 || index >= |slots| then null else slots[index]
    }

    function GetPinById(id: int): (r: PinData?)
      reads this`pins
      ensures r == null <==> forall i :: 0 <= i < |pins| ==> pins[i].id != id
      ensures r != null ==> r in pins && r.id == id
    {
      FindPinById(pins, id)
    }

    function GetRopeById(id: int): (r: RopeData?)
      reads this`ropes
      ensures r == null <==> forall i :: 0 <= i < |ropes| ==> ropes[i].id != id
      ensures r != null ==> r in ropes && r.id == id
    {
      var found := FindRope(ropes, id);
      if found.Some? then found.value else null
    }

    /** Scans the slots with a running minimum over empty slots within
        maxDistance; a strictly smaller distance replaces the candidate. */
    method FindNearestEmptySlot(position: Vec2, maxDistance: real) returns (nearest: SlotData?)
      ensures var r := NearestAmong(math, slots, position, maxDistance, |slots|);
        nearest == if r == -1 then null else slots[r]
    {
      nearest := null;
      var minDist: Option<real> := None;
      ghost var best := -1;
      var i := 0;
      while i < |slots|
        invariant 0 <= i <= |slots|
        invariant best == NearestAmong(math, slots, position, maxDistance, i)
        invariant best == -1 <==> minDist.None?
        invariant best == -1 ==> nearest == null
        invariant best >= 0 ==> nearest == slots[best] && minDist.value == SlotDistance(math, position, slots[best])
      {
        var slot := slots[i];
        if slot.IsEmpty() {
          var dist := SlotDistance(math, position, slot);
          if dist <= maxDistance && (minDist.None? || dist < minDist.value) {
            minDist := Some(dist);
            nearest := slot;
            best := i;
          }
        }
        i := i + 1;
      }
    }

    /** Validates, then moves the pin (see MovePin), recomputes and reports
        the snap. */
    method SnapPinToSlot(pin: PinData?, targetSlot: SlotData?) returns (success: bool, ghost raised: seq<GameEvent>)
      modifies this`intersections, ropes`renderPath, slots`occupiedByPinId, {targetSlot}`occupiedByPinId,
               {pin}`slotIndex, {pin}`logicPos, {pin}`worldPos
      ensures success <==> pin != null && targetSlot != null && old(targetSlot.occupiedByPinId) == NoPin
      ensures !success ==> intersections == old(intersections) && raised == []
      ensures !success ==> Occupants(slots) == old(Occupants(slots))
      ensures !success && pin != null ==>
        pin.slotIndex == old(pin.slotIndex) && pin.logicPos == old(pin.logicPos) && pin.worldPos == old(pin.worldPos)
      ensures !success ==> forall r :: r in ropes ==> r.renderPath == old(r.renderPath)
      ensures success ==> targetSlot.occupiedByPinId == pin.id
      ensures success ==> forall k :: 0 <= k < |slots| ==>
        slots[k].occupiedByPinId ==
          if slots[k] == targetSlot then pin.id
          else if 0 <= old(pin.slotIndex) < |slots| && slots[k] == slots[old(pin.slotIndex)] then NoPin
          else old(slots[k].occupiedByPinId)
      ensures success ==> pin.slotIndex == IndexOf(slots, targetSlot)
      ensures success ==> pin.logicPos == targetSlot.position && pin.worldPos == Lift(targetSlot.position, 0.0)
      ensures success ==> intersections == AllIntersections(RopeViews(ropes), Views(pins))
      ensures success ==> forall r :: r in ropes ==>
        r.renderPath == Woven(math, r.id, r.pinIds, intersections, Views(pins))
      ensures success ==> raised == RecalcEvents(old(|intersections|), |intersections|)
                                    + [PinSnapped(pin.id, targetSlot.id)]
      ensures old(OccupancyAgrees()) && pin in pins ==> OccupancyAgrees()
    {
      hide AllIntersections, Woven, OccupancyAgrees, Occupants, Views, RopeViews;
      if pin == null || targetSlot == null {
        return false, [];
      }
      if !targetSlot.IsEmpty() {
        return false, [];
      }
      MovePin(pin, targetSlot);
      raised := RecalculateIntersections();
      raised := raised + [PinSnapped(pin.id, targetSlot.id)];
      success := true;
    }

    /** The move itself: releases the slot at the pin's old index (when that
        index is in range), occupies the target, stores the target's list
        index in the pin and puts the pin on the target's position. Moving
        a listed pin onto an empty slot keeps slot occupants and pin indices
        in agreement. */
    method MovePin(pin: PinData, targetSlot: SlotData)
      modifies slots`occupiedByPinId, targetSlot`occupiedByPinId, pin`slotIndex, pin`logicPos, pin`worldPos
      ensures targetSlot.occupiedByPinId == pin.id
      ensures forall k :: 0 <= k < |slots| ==>
        slots[k].occupiedByPinId ==
          if slots[k] == targetSlot then pin.id
          else if 0 <= old(pin.slotIndex) < |slots| && slots[k] == slots[old(pin.slotIndex)] then NoPin
          else old(slots[k].occupiedByPinId)
      ensures pin.slotIndex == IndexOf(slots, targetSlot)
      ensures pin.logicPos == targetSlot.position && pin.worldPos == Lift(targetSlot.position, 0.0)
      ensures old(OccupancyAgrees()) && old(targetSlot.occupiedByPinId) == NoPin && pin in pins ==> OccupancyAgrees()
    {
      hide Agree, SnapOccupants, SnapPinView, Occupants, Views, IndexOf, Lift;
      ghost var occ0, pv0 := Occupants(slots), Views(pins);
      ghost var agreed := OccupancyAgrees() && targetSlot.occupiedByPinId == NoPin;
      ghost var previous := pin.slotIndex;
      MoveOccupant(pin.slotIndex, targetSlot, pin.id);
      ghost var occ1 := Occupants(slots);
      PlacePin(pin, targetSlot);
      ghost var pv1 := Views(pins);
      assert Occupants(slots) == occ1;
      if agreed && pin in pins {
        var k :| 0 <= k < |pins| && pins[k] == pin;
        AgreedIdsDistinct(occ0, pv0);
        assert forall j :: 0 <= j < |pins| ==> (pins[j] == pin <==> j == k);
        SnapPreservesAgreement(occ0, pv0, occ1, pv1, k, IndexOf(slots, targetSlot), targetSlot.position);
      }
    }

    /** The slot half of MovePin: the slot at index previous (if any) is
        released, then the target records pinId. With distinct slot objects
        this is SnapOccupants on the occupant list. */
    method MoveOccupant(previous: int, targetSlot: SlotData, pinId: int)
      modifies slots`occupiedByPinId, targetSlot`occupiedByPinId
      ensures targetSlot.occupiedByPinId == pinId
      ensures forall k :: 0 <= k < |slots| ==>
        slots[k].occupiedByPinId ==
          if slots[k] == targetSlot then pinId
          else if 0 <= previous < |slots| && slots[k] == slots[previous] then NoPin
          else old(slots[k].occupiedByPinId)
      ensures (forall i, j :: 0 <= i < j < |slots| ==> slots[i] != slots[j]) ==>
        Occupants(slots) == SnapOccupants(old(Occupants(slots)), previous, IndexOf(slots, targetSlot), pinId)
    {
      var previousSlot := GetSlotByIndex(previous);
      if previousSlot != null {
        previousSlot.Release();
      }
      targetSlot.Occupy(pinId);
      if forall i, j :: 0 <= i < j < |slots| ==> slots[i] != slots[j] {
        var t := IndexOf(slots, targetSlot);
        assert forall s :: 0 <= s < |slots| ==> (slots[s] == targetSlot <==> s == t);
      }
    }

    /** The pin half of MovePin: the pin takes the target's list index and
        position; every other pin's snapshot is unchanged. */
    method PlacePin(pin: PinData, targetSlot: SlotData)
      modifies pin`slotIndex, pin`logicPos, pin`worldPos
      ensures pin.slotIndex == IndexOf(slots, targetSlot)
      ensures pin.logicPos == targetSlot.position && pin.worldPos == Lift(targetSlot.position, 0.0)
      ensures |Views(pins)| == |old(Views(pins))|
      ensures forall j :: 0 <= j < |pins| ==>
        Views(pins)[j] == if pins[j] == pin then SnapPinView(old(Views(pins))[j], pin.slotIndex, targetSlot.position)
                          else old(Views(pins))[j]
    {
      pin.slotIndex := IndexOf(slots, targetSlot);
      pin.SyncPositionFromSlot(targetSlot);
    }
  }
}
