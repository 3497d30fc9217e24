/** DragController: the drag state machine of a pin. A drag starts on a pin,
    follows the cursor while highlighting the nearest empty slot, and ends
    either in a snap through the GameManager or in a rollback to the slot
    the pin came from. The Unity Transform of the dragged pin is an optional
    position; tweens are not modelled, their completion is the explicit
    call OnSnapAnimationComplete. Notifications are returned as ghost results. */
module Dragging {
  import opened Vectors
  import opened Slots
  import opened Pins
  import opened Intersections
  import opened Ropes
  import opened IntersectionCalculator
  import opened GameManagement

  /** The notifications DragController raises, in order; Manager wraps a
      notification the GameManager raises during the call. */
  datatype DragEvent =
    | HighlightCleared
    | HighlightRequested(slotId: int)
    | DragStarted(pinId: int)
    | DragEnded(pinId: int, success: bool)
    | Manager(event: GameEvent)

  const DefaultSnapRadius: real := 1.0

  /** The GameManager's notifications as seen in the drag trace. */
  function Forwarded(events: seq<GameEvent>): (r: seq<DragEvent>)
    ensures |r| == |events|
    ensures forall i :: 0 <= i < |events| ==> r[i] == Manager(events[i])
  {
    seq(|events|, i requires 0 <= i < |events| => Manager(events[i]))
  }

  /** The highlight notifications of a drag step whose nearest empty slot
      went from previous to nearest: none when it stayed the same, otherwise
      a clear followed by a request for the new slot, if there is one. */
  function HighlightEvents(previous: SlotData?, nearest: SlotData?): (r: seq<DragEvent>)
    ensures previous == nearest <==> r == []
    ensures r != [] ==> r[0] == HighlightCleared
    ensures forall e :: e in r && e.HighlightRequested? ==> nearest != null && e.slotId == nearest.id
    ensures |r| <= 2
  {
    if nearest == previous then []
    else [HighlightCleared] + (if nearest != null then [HighlightRequested(nearest.id)] else [])
  }

  /** The path point of pin pinId moved to position, when the pin's place in
      pinIds is inside the path; otherwise the path as it is. */
  function PathWithPin(path: seq<Vec3>, pinIds: seq<int>, pinId: int, position: Vec3): (r: seq<Vec3>)
    ensures |r| == |path|
    ensures forall i :: 0 <= i < |path| && i != IndexOf(pinIds, pinId) ==> r[i] == path[i]
    ensures 0 <= IndexOf(pinIds, pinId) < |path| ==> r[IndexOf(pinIds, pinId)] == position
  {
    var k := IndexOf(pinIds, pinId);
    if 0 <= k < |path| then path[k := position] else path
  }

  /** The snap-time recompute runs while the dragged rope (index k) has
      priority int.MaxValue and every other rope less: the dragged rope is on
      top, and never the bottom, at each of its crossings. */
  lemma DraggedRopeIsTop(rv: seq<RopeView>, pv: seq<PinView>, k: int, x: IntersectionData)
    requires 0 <= k < |rv| && rv[k].renderPriority == IntMaxValue
    requires forall i :: 0 <= i < |rv| && i != k ==> rv[i].renderPriority < IntMaxValue
    requires forall i, j :: 0 <= i < j < |rv| ==> rv[i].id != rv[j].id
    requires x in AllIntersections(rv, pv)
    requires x.ropeAId == rv[k].id || x.ropeBId == rv[k].id
    ensures x.topRopeId == rv[k].id && x.BottomRopeId() != rv[k].id
  {
    HighestPriorityIsTop(rv, pv, k, x);
    AllIntersectionsRecordShape(rv, pv, x);
  }

  class DragController {
    const gm: GameManager
    const snapRadius: real
    var selectedPin: PinData?
    /** The position of the dragged pin's Transform; None when the scene has
        no object for the pin. */
    var pinTransform: Option<Vec3>
    var originalSlotIndex: int
    var targetSlot: SlotData?
    var isDragging: bool
    var isAnimating: bool
    var originalRenderPriority: int

    constructor (gm: GameManager)
      ensures this.gm == gm && snapRadius == DefaultSnapRadius
      ensures selectedPin == null && pinTransform.None? && targetSlot == null
      ensures !isDragging && !isAnimating
      ensures originalSlotIndex == 0 && originalRenderPriority == 0
    {
      this.gm := gm;
      snapRadius := DefaultSnapRadius;
      selectedPin := null;
      pinTransform := None;
      targetSlot := null;
      isDragging := false;
      isAnimating := false;
      originalSlotIndex := 0;
      originalRenderPriority := 0;
    }

    /** Selects the pin, remembers its slot index, and raises its rope (the
        first with the pin's rope id) to priority int.MaxValue, saving the old
        priority. pinObject is the pin's Transform position, if the scene has
        one. A null pin changes nothing. */
    method StartDrag(pin: PinData?, touchPos: Vec2, pinObject: Option<Vec3>) returns (ghost raised: seq<DragEvent>)
      modifies this`selectedPin, this`originalSlotIndex, this`isDragging, this`pinTransform,
               this`originalRenderPriority, gm.ropes`renderPriority
      ensures pin == null ==> unchanged(this) && raised == []
      ensures pin == null ==> forall r :: r in gm.ropes ==> r.renderPriority == old(r.renderPriority)
      ensures pin != null ==> selectedPin == pin && isDragging && originalSlotIndex == pin.slotIndex
      ensures pin != null ==> pinTransform == pinObject && raised == [DragStarted(pin.id)]
      ensures pin != null ==> var rope := FindRope(gm.ropes, pin.ropeId);
        && (rope.Some? ==> rope.value.renderPriority == IntMaxValue
                           && originalRenderPriority == old(rope.value.renderPriority))
        && (rope.None? ==> originalRenderPriority == old(originalRenderPriority))
        && forall r :: r in gm.ropes && (rope.None? || r != rope.value) ==> r.renderPriority == old(r.renderPriority)
      ensures targetSlot == old(targetSlot) && isAnimating == old(isAnimating)
    {
      if pin == null {
        return [];
      }
      selectedPin := pin;
      originalSlotIndex := pin.slotIndex;
      isDragging := true;
      pinTransform := pinObject;
      var rope := gm.GetRopeById(pin.ropeId);
      if rope != null {
        originalRenderPriority := rope.renderPriority;
        rope.renderPriority := IntMaxValue;
      }
      raised := [DragStarted(pin.id)];
    }

    /** While a drag is active: moves the Transform and the pin's preview
        position to the cursor, re-targets the nearest empty slot within the
        snap radius (highlight notifications only when it changes), and
        updates the dragged rope's preview path. */
    method UpdateDrag(worldPos: Vec2) returns (ghost raised: seq<DragEvent>)
      modifies this`pinTransform, this`targetSlot, {selectedPin}`logicPos, {selectedPin}`worldPos, gm.ropes`renderPath
      ensures !old(isDragging) || old(selectedPin) == null ==>
        && unchanged(this) && raised == []
        && (old(selectedPin) != null ==> unchanged(old(selectedPin)))
        && forall r :: r in gm.ropes ==> r.renderPath == old(r.renderPath)
      ensures old(isDragging) && old(selectedPin) != null ==>
        var p := selectedPin;
        var r := NearestAmong(gm.math, gm.slots, worldPos, snapRadius, |gm.slots|);
        var nearest := if r == -1 then null else gm.slots[r];
        && p == old(selectedPin) && isDragging
        && pinTransform == (if old(pinTransform).Some? then Some(Lift(worldPos, old(pinTransform).value.z)) else None)
        && p.logicPos == worldPos && XY(p.worldPos) == worldPos && p.worldPos.z == old(p.worldPos.z)
        && p.slotIndex == old(p.slotIndex)
        && targetSlot == nearest
        && raised == HighlightEvents(old(targetSlot), nearest)
        && forall rp :: rp in gm.ropes ==>
             rp.renderPath == if pinTransform.Some? && FindRope(gm.ropes, p.ropeId) == Some(rp)
                              then PathWithPin(old(rp.renderPath), rp.pinIds, p.id, pinTransform.value)
                              else old(rp.renderPath)
      ensures Occupants(gm.slots) == old(Occupants(gm.slots))
      ensures forall p :: p in gm.pins ==> p.slotIndex == old(p.slotIndex)
    {
      hide *;
      if !isDragging || selectedPin == null {
        return [];
      }
      FollowCursor(worldPos);
      raised := Retarget(worldPos);
      UpdateRopePreview();
    }

    /** The first half of a drag step: the Transform, when there is one,
        and the selected pin's preview position move to the cursor; both
        keep their depth. */
    method FollowCursor(worldPos: Vec2)
      requires selectedPin != null
      modifies this`pinTransform, selectedPin`logicPos, selectedPin`worldPos
      ensures pinTransform == if old(pinTransform).Some? then Some(Lift(worldPos, old(pinTransform).value.z)) else None
      ensures selectedPin.logicPos == worldPos && XY(selectedPin.worldPos) == worldPos
      ensures selectedPin.worldPos.z == old(selectedPin.worldPos.z)
    {
      if pinTransform.Some? {
        pinTransform := Some(Lift(worldPos, pinTransform.value.z));
      }
      selectedPin.SetPreviewPosition(worldPos);
    }

    /** The second half of a drag step: the target becomes the nearest empty
        slot within the snap radius, with the highlight notifications of the
        change. */
    method Retarget(worldPos: Vec2) returns (ghost raised: seq<DragEvent>)
      modifies this`targetSlot
      ensures var r := NearestAmong(gm.math, gm.slots, worldPos, snapRadius, |gm.slots|);
        targetSlot == if r == -1 then null else gm.slots[r]
      ensures raised == HighlightEvents(old(targetSlot), targetSlot)
    {
      var nearestSlot := gm.FindNearestEmptySlot(worldPos, snapRadius);
      raised := HighlightEvents(targetSlot, nearestSlot);
      if nearestSlot != targetSlot {
        targetSlot := nearestSlot;
      }
    }

    /** Ends an active drag: clears the highlight, looks for the nearest
        empty slot within the snap radius and snaps the pin there through
        the GameManager, whose recompute still sees the dragged rope at
        int.MaxValue. With a Transform the snap animates, restores the
        priority and reports the end; without one the state is cleaned up
        and neither happens. With no slot in reach the pin rolls back.
        snapped reports whether a snap took place. */
    method EndDrag(worldPos: Vec2) returns (ghost snapped: bool, ghost raised: seq<DragEvent>)
      modifies this`isDragging, this`isAnimating, this`selectedPin, this`pinTransform, this`targetSlot
      modifies gm`intersections, gm.ropes`renderPath, gm.ropes`renderPriority, gm.slots`occupiedByPinId
      modifies {selectedPin}`slotIndex, {selectedPin}`logicPos, {selectedPin}`worldPos
      ensures !old(isDragging) || old(selectedPin) == null ==>
        && unchanged(this) && !snapped && raised == []
        && gm.intersections == old(gm.intersections)
        && Occupants(gm.slots) == old(Occupants(gm.slots))
      ensures snapped <==> old(isDragging) && old(selectedPin) != null
                           && old(NearestAmong(gm.math, gm.slots, worldPos, snapRadius, |gm.slots|)) != -1
      ensures old(isDragging) && old(selectedPin) != null ==> !isDragging
      ensures snapped ==>
        var p, t := old(selectedPin), gm.slots[old(NearestAmong(gm.math, gm.slots, worldPos, snapRadius, |gm.slots|))];
        && SnapOutcome(p, t, old(RopeViews(gm.ropes)), old(gm.OccupancyAgrees()))
        && var manager := Forwarded(SnapEvents(old(|gm.intersections|), |gm.intersections|, p.id, t.id));
           if old(pinTransform).Some? then
             && selectedPin == p && isAnimating && RestoredPriorities(old(RopeViews(gm.ropes)))
             && raised == [HighlightCleared] + manager + [DragEnded(p.id, true)]
           else
             && selectedPin == null && pinTransform.None? && targetSlot == null
             && PrioritiesKept(old(RopeViews(gm.ropes)))
             && raised == [HighlightCleared] + manager
      ensures old(isDragging) && old(selectedPin) != null && !snapped ==>
        && gm.intersections == old(gm.intersections)
        && Occupants(gm.slots) == old(Occupants(gm.slots))
        && (var p := old(selectedPin); p.slotIndex == old(p.slotIndex))
        && (forall r :: r in gm.ropes ==> r.renderPath == old(r.renderPath))
        && (old(gm.OccupancyAgrees()) ==> gm.OccupancyAgrees())
        && |raised| >= 1 && raised[0] == HighlightCleared
        && RollbackOutcome(old(selectedPin), old(gm.GetSlotByIndex(originalSlotIndex)), old(pinTransform),
                           old(isAnimating), old(RopeViews(gm.ropes)), raised[1..])
    {
      hide AllIntersections, Woven, Views, RopeViews, Occupants, GameManager.OccupancyAgrees, SlotDistance,
           RecalcEvents, Forwarded, FindRope, RestoredPriorities, PrioritiesKept, SnapOutcome, SnapEvents,
           RollbackOutcome, NearestAmong;
      if !isDragging || selectedPin == null {
        return false, [];
      }
      ghost var before, agreed := RopeViews(gm.ropes), gm.OccupancyAgrees();
      ghost var nearest := NearestAmong(gm.math, gm.slots, worldPos, snapRadius, |gm.slots|);
      isDragging := false;
      assert RopeViews(gm.ropes) == before && gm.OccupancyAgrees() == agreed;
      assert NearestAmong(gm.math, gm.slots, worldPos, snapRadius, |gm.slots|) == nearest;
      raised := [HighlightCleared];
      var target := gm.FindNearestEmptySlot(worldPos, snapRadius);
      var snapSuccess := false;
      if target != null {
        ghost var more;
        snapSuccess, more := SnapToTarget(target);
        raised := raised + more;
        if snapSuccess && pinTransform.Some? {
          return true, raised;
        }
      }
      snapped := snapSuccess;
      if !snapSuccess {
        ghost var more := RollbackToOriginalSlot();
        raised := raised + more;
        return;
      }
      CleanupDragState();
    }

    /** The snap of a finished drag onto target through the GameManager; on
        success with a Transform, also the animated ending: the priority is
        restored and the end of the drag reported. The target of EndDrag is
        always empty, so the snap there always succeeds. */
    method SnapToTarget(target: SlotData) returns (success: bool, ghost raised: seq<DragEvent>)
      requires selectedPin != null
      modifies this`isAnimating, gm`intersections, gm.ropes`renderPath, gm.ropes`renderPriority,
               gm.slots`occupiedByPinId, target`occupiedByPinId,
               selectedPin`slotIndex, selectedPin`logicPos, selectedPin`worldPos
      ensures success <==> old(target.occupiedByPinId) == NoPin
      ensures success ==> SnapOutcome(selectedPin, target, old(RopeViews(gm.ropes)), old(gm.OccupancyAgrees()))
      ensures success ==> var manager := Forwarded(SnapEvents(old(|gm.intersections|), |gm.intersections|,
                                                             selectedPin.id, target.id));
        if pinTransform.Some? then
          && isAnimating && RestoredPriorities(old(RopeViews(gm.ropes)))
          && raised == manager + [DragEnded(selectedPin.id, true)]
        else
          isAnimating == old(isAnimating) && PrioritiesKept(old(RopeViews(gm.ropes))) && raised == manager
      ensures !success ==> raised == [] && isAnimating == old(isAnimating)
    {
      hide AllIntersections, Woven, Views, RopeViews, Occupants, GameManager.OccupancyAgrees,
           RecalcEvents, Forwarded, FindRope, RestoredPriorities, SnapOutcome, PrioritiesKept, SnapEvents;
      success, raised := SnapThroughManager(target);
      if success && pinTransform.Some? {
        isAnimating := true;
        RestoreRopePriority();
        raised := raised + [DragEnded(selectedPin.id, true)];
      }
    }

    /** The GameManager's half of SnapToTarget: SnapPinToSlot on the
        selected pin, its outcome stated as SnapOutcome, its notifications
        forwarded; rope priorities are not touched. */
    method SnapThroughManager(target: SlotData) returns (success: bool, ghost raised: seq<DragEvent>)
      requires selectedPin != null
      modifies gm`intersections, gm.ropes`renderPath, gm.slots`occupiedByPinId, target`occupiedByPinId,
               selectedPin`slotIndex, selectedPin`logicPos, selectedPin`worldPos
      ensures success <==> old(target.occupiedByPinId) == NoPin
      ensures success ==> SnapOutcome(selectedPin, target, old(RopeViews(gm.ropes)), old(gm.OccupancyAgrees()))
      ensures success ==> PrioritiesKept(old(RopeViews(gm.ropes)))
      ensures success ==>
        raised == Forwarded(SnapEvents(old(|gm.intersections|), |gm.intersections|, selectedPin.id, target.id))
      ensures !success ==> raised == []
    {
      hide AllIntersections, Woven, Views, RopeViews, Occupants, GameManager.OccupancyAgrees,
           RecalcEvents, Forwarded, FindRope;
      ghost var managerRaised;
      success, managerRaised := gm.SnapPinToSlot(selectedPin, target);
      raised := Forwarded(managerRaised);
    }

    /** The GameManager's notifications for a snap of pin pinId onto slot
        slotId that changed the crossing count from previousCount to count. */
    function SnapEvents(previousCount: int, count: int, pinId: int, slotId: int): (r: seq<GameEvent>)
      ensures |r| >= 2 && r[0] == RopePathsUpdated && r[|r| - 1] == PinSnapped(pinId, slotId)
    {
      RecalcEvents(previousCount, count) + [PinSnapped(pinId, slotId)]
    }

    /** What a snap of pin p onto slot t leaves behind, given the rope views
        and the agreement of occupancy before it: t holds p, p stores t's
        index and sits on t's position, the crossings are recomputed from
        the ropes as they were (the dragged rope still raised), every rope's
        render path is rewoven through the new crossings, and the occupancy
        agreement is kept. */
    ghost predicate SnapOutcome(p: PinData, t: SlotData, before: seq<RopeView>, agreedBefore: bool)
      reads gm`intersections, gm`slots, gm`pins, gm`ropes, gm.slots`occupiedByPinId, t`occupiedByPinId
      reads gm.pins`slotIndex, gm.pins`logicPos, gm.pins`worldPos, p`slotIndex, p`logicPos, p`worldPos
      reads gm.ropes`renderPath
    {
      && t.occupiedByPinId == p.id && p.slotIndex == IndexOf(gm.slots, t)
      && p.logicPos == t.position && p.worldPos == Lift(t.position, 0.0)
      && gm.intersections == AllIntersections(before, Views(gm.pins))
      && (forall r :: r in gm.ropes ==>
            r.renderPath == Woven(gm.math, r.id, r.pinIds, gm.intersections, Views(gm.pins)))
      && (agreedBefore && p in gm.pins ==> gm.OccupancyAgrees())
    }

    /** Every rope keeps the priority it had in before. */
    ghost predicate PrioritiesKept(before: seq<RopeView>)
      reads gm`ropes, gm.ropes`renderPriority
    {
      |before| == |gm.ropes| && forall i :: 0 <= i < |gm.ropes| ==> gm.ropes[i].renderPriority == before[i].renderPriority
    }

    /** What a rollback of pin p to the slot at its original index leaves
        behind; original is that slot (null when the index does not resolve),
        transform the pin's Transform at the time and before the rope views
        before. */
    ghost predicate RollbackOutcome(p: PinData, original: SlotData?, transform: Option<Vec3>,
                                    wasAnimating: bool, before: seq<RopeView>, raised: seq<DragEvent>)
      reads this`selectedPin, this`isAnimating, this`originalRenderPriority, p`logicPos, p`worldPos,
            gm`ropes, gm.ropes`renderPriority
    {
      && selectedPin == p
      && (original == null ==> raised == [] && isAnimating == wasAnimating && PrioritiesKept(before))
      && (original != null ==>
            && p.logicPos == original.position && p.worldPos == Lift(original.position, 0.0)
            && isAnimating == (wasAnimating || transform.Some?)
            && RestoredPriorities(before)
            && raised == [DragEnded(p.id, false)])
    }

    /** The tween's completion: animation over, drag state cleared. */
    method OnSnapAnimationComplete(wasSuccess: bool)
      modifies this`isAnimating, this`selectedPin, this`pinTransform, this`targetSlot
      ensures !isAnimating && selectedPin == null && pinTransform.None? && targetSlot == null
    {
      isAnimating := false;
      CleanupDragState();
    }

    /** Forgets the selected pin, its Transform and the target slot. */
    method CleanupDragState()
      modifies this`selectedPin, this`pinTransform, this`targetSlot
      ensures selectedPin == null && pinTransform.None? && targetSlot == null
    {
      selectedPin := null;
      pinTransform := None;
      targetSlot := null;
    }

    /** Puts the pin back on the position of the slot at the original index
        (data only: no recompute, no change of occupancy), starts the rollback
        tween when there is a Transform, restores the rope's priority and
        reports a failed drag. An index that no longer resolves ends the
        rollback before any of this. */
    method RollbackToOriginalSlot() returns (ghost raised: seq<DragEvent>)
      requires selectedPin != null
      modifies this`isAnimating, selectedPin`logicPos, selectedPin`worldPos, gm.ropes`renderPriority
      ensures RollbackOutcome(selectedPin, gm.GetSlotByIndex(originalSlotIndex), pinTransform, old(isAnimating),
                              old(RopeViews(gm.ropes)), raised)
      ensures old(gm.OccupancyAgrees()) ==> gm.OccupancyAgrees()
    {
      hide RopeViews, FindRope, RestoredPriorities, GameManager.OccupancyAgrees, Views, Occupants, Agree;
      var originalSlot := gm.GetSlotByIndex(originalSlotIndex);
      if originalSlot == null {
        return [];
      }
      ghost var agreed, pv, occ := gm.OccupancyAgrees(), Views(gm.pins), Occupants(gm.slots);
      gm.OccupancyAgreesByViews();
      selectedPin.SyncPositionFromSlot(originalSlot);
      if pinTransform.Some? {
        isAnimating := true;
      }
      RestoreRopePriority();
      raised := [DragEnded(selectedPin.id, false)];
      assert Occupants(gm.slots) == occ;
      if agreed {
        AgreeIgnoresPositions(occ, pv, Views(gm.pins));
      }
      gm.OccupancyAgreesByViews();
    }

    /** The rope priorities after RestoreRopePriority, given the views before:
        the first rope with the selected pin's rope id has the saved priority
        back, every other rope keeps its own. */
    ghost predicate RestoredPriorities(before: seq<RopeView>)
      reads this`selectedPin, this`originalRenderPriority, gm`ropes, gm.ropes`renderPriority
    {
      && |before| == |gm.ropes|
      && forall i :: 0 <= i < |gm.ropes| ==>
           gm.ropes[i].renderPriority ==
             if selectedPin != null && FindRope(gm.ropes, selectedPin.ropeId) == Some(gm.ropes[i])
             then originalRenderPriority else before[i].renderPriority
    }

    /** Writes the saved priority back to the first rope with the selected
        pin's rope id; nothing happens without a selected pin or such a rope. */
    method RestoreRopePriority()
      modifies gm.ropes`renderPriority
      ensures RestoredPriorities(old(RopeViews(gm.ropes)))
      ensures selectedPin != null ==> var rope := FindRope(gm.ropes, selectedPin.ropeId);
        rope.Some? ==> rope.value.renderPriority == originalRenderPriority
    {
      if selectedPin == null {
        return;
      }
      var rope := gm.GetRopeById(selectedPin.ropeId);
      if rope != null {
        rope.renderPriority := originalRenderPriority;
      }
    }

    /** Moves the selected pin's point of its rope's render path to the
        Transform position (the first rope with the pin's rope id; nothing
        without a Transform). */
    method UpdateRopePreview()
      modifies gm.ropes`renderPath
      ensures forall rp :: rp in gm.ropes ==>
        rp.renderPath == if selectedPin != null && pinTransform.Some? && FindRope(gm.ropes, selectedPin.ropeId) == Some(rp)
                         then PathWithPin(old(rp.renderPath), rp.pinIds, selectedPin.id, pinTransform.value)
                         else old(rp.renderPath)
    {
      if selectedPin == null {
        return;
      }
      var rope := gm.GetRopeById(selectedPin.ropeId);
      if rope != null && pinTransform.Some? {
        rope.UpdatePinPositionInPath(selectedPin.id, pinTransform.value);
      }
    }

    /** The same path update, called on each step of the rollback tween; it
        checks for the Transform before looking up the rope. */
    method UpdateRopePreviewForRollback()
      modifies gm.ropes`renderPath
      ensures forall rp :: rp in gm.ropes ==>
        rp.renderPath == if selectedPin != null && pinTransform.Some? && FindRope(gm.ropes, selectedPin.ropeId) == Some(rp)
                         then PathWithPin(old(rp.renderPath), rp.pinIds, selectedPin.id, pinTransform.value)
                         else old(rp.renderPath)
    {
      if selectedPin == null || pinTransform.None? {
        return;
      }
      var rope := gm.GetRopeById(selectedPin.ropeId);
      if rope != null {
        rope.UpdatePinPositionInPath(selectedPin.id, pinTransform.value);
      }
    }
  }
}
