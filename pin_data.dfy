/** PinData: the draggable end point of a rope, and value snapshots of pins
    that the intersection logic works on. */
module Pins {
  import opened Vectors
  import opened Slots

  class PinData {
    const id: int
    const ropeId: int
    var slotIndex: int
    /** 2D position used by the intersection logic. */
    var logicPos: Vec2
    /** 3D position used by the renderer. */
    var worldPos: Vec3

    /** The source constructor leaves both positions at their zero default. */
    constructor (id: int, slotIndex: int, ropeId: int)
      ensures this.id == id && this.slotIndex == slotIndex && this.ropeId == ropeId
      ensures logicPos == Zero2 && worldPos == Zero3
    {
      this.id := id;
      this.slotIndex := slotIndex;
      this.ropeId := ropeId;
      logicPos := Zero2;
      worldPos := Zero3;
    }

    /** Puts the pin on the slot's position, flat on the z = 0 plane. */
    method SyncPositionFromSlot(slot: SlotData)
      modifies this`logicPos, this`worldPos
      ensures logicPos == slot.position
      ensures worldPos == Lift(slot.position, 0.0)
      ensures XY(worldPos) == logicPos
    {
      logicPos := slot.position;
      worldPos := Lift(slot.position, 0.0);
    }

    /** Moves the pin to a provisional position while it is dragged; the
        rendering depth is kept. */
    method SetPreviewPosition(position: Vec2)
      modifies this`logicPos, this`worldPos
      ensures logicPos == position
      ensures XY(worldPos) == position && worldPos.z == old(worldPos.z)
    {
      logicPos := position;
      worldPos := Lift(position, worldPos.z);
    }

    function View(): PinView
      reads this`slotIndex, this`logicPos, this`worldPos
    {
      PinView(id, slotIndex, ropeId, logicPos, worldPos)
    }
  }

  /** An immutable copy of a pin's state. */
  datatype PinView = PinView(id: int, slotIndex: int, ropeId: int, logicPos: Vec2, worldPos: Vec3)

  function Views(pins: seq<PinData>): (r: seq<PinView>)
    reads pins`slotIndex, pins`logicPos, pins`worldPos
    ensures |r| == |pins|
    ensures forall i :: 0 <= i < |pins| ==> r[i] == pins[i].View()
    decreases |pins|
  {
    if pins == [] then [] else Views(pins[..|pins| - 1]) + [pins[|pins| - 1].View()]
  }

  /** List.Find by id: the first pin with the id, if any. */
  function FindPin(pins: seq<PinView>, id: int): (r: Option<PinView>)
    ensures r.None? <==> forall i :: 0 <= i < |pins| ==> pins[i].id != id
    ensures r.Some? ==> r.value in pins && r.value.id == id
    decreases |pins|
  {
    if pins == [] then None
    else if pins[0].id == id then Some(pins[0])
    else
      assert forall i :: 1 <= i < |pins| ==> pins[i] == pins[1..][i - 1];
      FindPin(pins[1..], id)
  }

  /** The pin found is the first one carrying the id. */
  lemma {:induction false} FindPinIsFirst(pins: seq<PinView>, id: int, i: int)
    requires 0 <= i < |pins| && pins[i].id == id
    ensures FindPin(pins, id).Some?
    ensures (forall j :: 0 <= j < i ==> pins[j].id != id) ==> FindPin(pins, id) == Some(pins[i])
    decreases |pins|
  {
    if pins[0].id != id {
      FindPinIsFirst(pins[1..], id, i - 1);
    }
  }
}
