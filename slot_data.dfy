/** SlotData: a fixed position on the board that at most one pin occupies. */
module Slots {
  import opened Vectors

  /** Occupant id that marks an empty slot. */
  const NoPin: int := -1

  class SlotData {
    const id: int
    /** Logic-layer 2D position; never moved after construction. */
    const position: Vec2
    var occupiedByPinId: int

    constructor (id: int, position: Vec2)
      ensures this.id == id && this.position == position
      ensures occupiedByPinId == NoPin
    {
      this.id := id;
      this.position := position;
      occupiedByPinId := NoPin;
    }

    predicate IsEmpty()
      reads this`occupiedByPinId
    {
      occupiedByPinId == NoPin
    }

    /** Records the occupant unconditionally; no check that the slot was empty. */
    method Occupy(pinId: int)
      modifies this`occupiedByPinId
      ensures occupiedByPinId == pinId
      ensures IsEmpty() <==> pinId == NoPin
    {
      occupiedByPinId := pinId;
    }

    method Release()
      modifies this`occupiedByPinId
      ensures IsEmpty()
    {
      occupiedByPinId := NoPin;
    }
  }

  /** The occupant of every slot, in list order. */
  function Occupants(slots: seq<SlotData>): (r: seq<int>)
    reads slots`occupiedByPinId
    ensures |r| == |slots|
    ensures forall i :: 0 <= i < |slots| ==> r[i] == slots[i].occupiedByPinId
    decreases |slots|
  {
    if slots == [] then [] else Occupants(slots[..|slots| - 1]) + [slots[|slots| - 1].occupiedByPinId]
  }
}
