/** TestLevelSetup, data half: the grid of slots, the pins placed on it so
    that two ropes cross, and the ropes grouping the pins. The scene objects
    it also creates (slot, pin and rope GameObjects) are not modelled. */
module LevelSetup {
  import opened Vectors
  import opened Slots
  import opened Pins
  import opened Intersections
  import opened Ropes
  import opened IntersectionCalculator
  import opened GameManagement

  /** The inspector settings a level is built from. */
  datatype LevelConfig = LevelConfig(gridRows: int, gridCols: int, slotSpacing: real, ropeCount: int)

  /** The settings the component ships with: a 3x3 grid, spacing 2, two ropes. */
  const DefaultConfig: LevelConfig := LevelConfig(3, 3, 2.0, 2)

  // ---------------------------------------------------------------------
  // The grid.

  /** How many times a `for (i = 0; i < n; i++)` loop runs. */
  function Iterations(n: int): nat {
    if n > 0 then n else 0
  }

  /** Half the extent of count cells spaced spacing apart. */
  function GridOffset(count: int, spacing: real): real {
    (count - 1) as real * spacing * 0.5
  }

  /** The position of the slot in the given row and column. */
  function GridPosition(cfg: LevelConfig, row: int, col: int): Vec2 {
    Vec2(col as real * cfg.slotSpacing - GridOffset(cfg.gridCols, cfg.slotSpacing),
         row as real * cfg.slotSpacing - GridOffset(cfg.gridRows, cfg.slotSpacing))
  }

  /** The grid is centred on the origin: the cells mirrored through the
      centre have opposite positions. */
  lemma GridIsCentred(cfg: LevelConfig, row: int, col: int)
    ensures var p, q := GridPosition(cfg, row, col), GridPosition(cfg, cfg.gridRows - 1 - row, cfg.gridCols - 1 - col);
      q.x == -p.x && q.y == -p.y
  {
  }

  /** Slot k of a grid with cols columns sits in row k / cols, column k % cols. */
  lemma RowMajor(row: int, col: int, cols: int)
    requires 0 <= row && 0 <= col < cols
    ensures (row * cols + col) / cols == row && (row * cols + col) % cols == col
  {
    var k := row * cols + col;
    var q, r := k / cols, k % cols;
    assert (q - row) * cols == col - r;
    if q > row {
      AtLeastOnce(q - row, cols);
      assert false;
    } else if q < row {
      AtLeastOnce(row - q, cols);
      assert false;
    }
  }

  lemma AtLeastOnce(a: int, c: int)
    requires a >= 1 && c >= 1
    ensures a * c >= c
  {
    assert a * c - c == (a - 1) * c;
  }

  /** Builds rows x cols empty slots in row-major order; each slot's id is
      its index in the list. */
  method CreateSlotData(cfg: LevelConfig) returns (slots: seq<SlotData>)
    ensures |slots| == Iterations(cfg.gridRows) * Iterations(cfg.gridCols)
    ensures forall k :: 0 <= k < |slots| ==>
      && slots[k].id == k && slots[k].IsEmpty()
      && slots[k].position == GridPosition(cfg, k / cfg.gridCols, k % cfg.gridCols)
    ensures forall i, j :: 0 <= i < j < |slots| ==> slots[i] != slots[j]
    ensures forall k :: 0 <= k < |slots| ==> fresh(slots[k])
  {
    hide GridPosition;
    slots := [];
    var id := 0;
    var row := 0;
    while row < cfg.gridRows
      invariant 0 <= row <= Iterations(cfg.gridRows)
      invariant id == |slots| == row * Iterations(cfg.gridCols)
      invariant forall k :: 0 <= k < |slots| ==>
        && slots[k].id == k && slots[k].IsEmpty()
        && slots[k].position == GridPosition(cfg, k / cfg.gridCols, k % cfg.gridCols)
      invariant forall i, j :: 0 <= i < j < |slots| ==> slots[i] != slots[j]
      invariant forall k :: 0 <= k < |slots| ==> fresh(slots[k])
    {
      var col := 0;
      while col < cfg.gridCols
        invariant 0 <= col <= Iterations(cfg.gridCols)
        invariant id == |slots| == row * Iterations(cfg.gridCols) + col
        invariant forall k :: 0 <= k < |slots| ==>
          && slots[k].id == k && slots[k].IsEmpty()
          && slots[k].position == GridPosition(cfg, k / cfg.gridCols, k % cfg.gridCols)
        invariant forall i, j :: 0 <= i < j < |slots| ==> slots[i] != slots[j]
        invariant forall k :: 0 <= k < |slots| ==> fresh(slots[k])
      {
        var position := GridPosition(cfg, row, col);
        RowMajor(row, col, cfg.gridCols);
        var slot := new SlotData(id, position);
        slots := slots + [slot];
        id := id + 1;
        col := col + 1;
      }
      assert (row + 1) * Iterations(cfg.gridCols) == row * Iterations(cfg.gridCols) + Iterations(cfg.gridCols);
      row := row + 1;
    }
  }

  /** The smallest slot index not in usedIndices, or -1 when every index is used. */
  method FindUnusedSlotIndex(slots: seq<SlotData>, usedIndices: seq<int>) returns (r: int)
    ensures -1 <= r < |slots|
    ensures r == -1 <==> forall i :: 0 <= i < |slots| ==> i in usedIndices
    ensures r >= 0 ==> r !in usedIndices && forall i :: 0 <= i < r ==> i in usedIndices
  {
    var i := 0;
    while i < |slots|
      invariant 0 <= i <= |slots|
      invariant forall j :: 0 <= j < i ==> j in usedIndices
    {
      if i !in usedIndices {
        return i;
      }
      i := i + 1;
    }
    return -1;
  }

  // ---------------------------------------------------------------------
  // Pin placement.

  /** Where one created pin goes: its slot's list index and its rope id. The
      pin's id is its position in the list of placements. */
  datatype Placement = Placement(slot: int, rope: int)

  /** The slot pairs of the crossing layout: rope 0 runs from the bottom-left
      to the top-right corner of a 3x3 grid, rope 1 from the top-left to the
      bottom-right, so the two cross in the middle. */
  const CrossingLayout: seq<(int, int)> := [(0, 8), (6, 2)]

  /** The pins of rope r of the crossing layout: none unless both of its
      slots exist. */
  function CrossingPins(slotCount: int, r: int): seq<Placement>
    requires 0 <= r < |CrossingLayout|
  {
    var (slot1, slot2) := CrossingLayout[r];
    if slot1 < slotCount && slot2 < slotCount then [Placement(slot1, r), Placement(slot2, r)] else []
  }

  /** The crossing layout's pins for its first ropes ropes. */
  function CrossingPlacements(slotCount: int, ropes: int): seq<Placement>
    requires 0 <= ropes <= |CrossingLayout|
  {
    if ropes == 0 then [] else CrossingPlacements(slotCount, ropes - 1) + CrossingPins(slotCount, ropes - 1)
  }

  /** The fallback layout's pins for its first ropes ropes: each rope takes
      the two lowest slot indices not used yet. */
  function SequentialPlacements(ropes: nat): seq<Placement> {
    if ropes == 0 then []
    else SequentialPlacements(ropes - 1) + [Placement(2 * ropes - 2, ropes - 1), Placement(2 * ropes - 1, ropes - 1)]
  }

  /** In the fallback layout pin k sits in slot k and belongs to rope k / 2. */
  lemma {:induction false} SequentialPlacementsAt(ropes: nat)
    ensures |SequentialPlacements(ropes)| == 2 * ropes
    ensures forall k :: 0 <= k < 2 * ropes ==> SequentialPlacements(ropes)[k] == Placement(k, k / 2)
  {
    if ropes > 0 {
      SequentialPlacementsAt(ropes - 1);
    }
  }

  /** How many ropes the fallback builds: it stops at ropeCount, or when
      fewer than two slots are left. */
  function FallbackRopeCount(ropeCount: int, slotCount: nat): nat {
    MaxInt(0, MinInt(ropeCount, slotCount / 2))
  }

  /** Does the level use the crossing layout? */
  predicate UsesCrossingLayout(cfg: LevelConfig) {
    cfg.gridRows >= 3 && cfg.gridCols >= 3 && cfg.ropeCount >= 2
  }

  /** Every placement names a slot of the list, and no two name the same. */
  predicate ValidPlacements(placements: seq<Placement>, slotCount: int) {
    && (forall k :: 0 <= k < |placements| ==> 0 <= placements[k].slot < slotCount)
    && (forall j, k :: 0 <= j < k < |placements| ==> placements[j].slot != placements[k].slot)
  }

  /** The pins CreatePinData builds, for a list of slotCount slots. Every
      pin gets a slot of the list and no two pins share a slot. */
  function Layout(cfg: LevelConfig, slotCount: nat): (r: seq<Placement>)
    ensures forall k :: 0 <= k < |r| ==> 0 <= r[k].slot < slotCount
    ensures forall j, k :: 0 <= j < k < |r| ==> r[j].slot != r[k].slot
  {
    if UsesCrossingLayout(cfg) then
      CrossingPlacementsValid(slotCount, MinInt(cfg.ropeCount, 2));
      CrossingPlacements(slotCount, MinInt(cfg.ropeCount, 2))
    else
      var ropes := FallbackRopeCount(cfg.ropeCount, slotCount);
      SequentialPlacementsAt(ropes);
      SequentialPlacements(ropes)
  }

  /** The occupants after the pins of placements are put, one after the
      other, into the slots whose occupants were occ. */
  function Placed(occ: seq<int>, placements: seq<Placement>): (r: seq<int>)
    ensures |r| == |occ|
  {
    if placements == [] then occ
    else
      var before := Placed(occ, placements[..|placements| - 1]);
      var p := placements[|placements| - 1];
      if 0 <= p.slot < |before| then before[p.slot := |placements| - 1] else before
  }

  /** With distinct slots, a slot ends up holding the pin placed there, and
      a slot nobody was placed in keeps its occupant. */
  lemma {:induction false} PlacedAt(occ: seq<int>, placements: seq<Placement>, s: int)
    requires forall j, k :: 0 <= j < k < |placements| ==> placements[j].slot != placements[k].slot
    requires 0 <= s < |occ|
    ensures forall k :: 0 <= k < |placements| && placements[k].slot == s ==> Placed(occ, placements)[s] == k
    ensures (forall k :: 0 <= k < |placements| ==> placements[k].slot != s) ==> Placed(occ, placements)[s] == occ[s]
    decreases |placements|
  {
    if placements != [] {
      var front := placements[..|placements| - 1];
      PlacedAt(occ, front, s);
      assert forall k :: 0 <= k < |front| ==> front[k] == placements[k];
    }
  }

  /** Placing the pins of a valid layout into empty slots makes slot
      occupants and pin slot indices agree (pin k has id k). */
  lemma PlacementAgrees(occ: seq<int>, placements: seq<Placement>, pins: seq<PinView>)
    requires forall s :: 0 <= s < |occ| ==> occ[s] == NoPin
    requires forall k :: 0 <= k < |placements| ==> 0 <= placements[k].slot < |occ|
    requires forall j, k :: 0 <= j < k < |placements| ==> placements[j].slot != placements[k].slot
    requires |pins| == |placements|
    requires forall k :: 0 <= k < |pins| ==> pins[k].id == k && pins[k].slotIndex == placements[k].slot
    ensures Agree(Placed(occ, placements), pins)
  {
    var placed := Placed(occ, placements);
    forall s | 0 <= s < |occ|
      ensures placed[s] != NoPin ==> exists p :: 0 <= p < |pins| && pins[p].id == placed[s] && pins[p].slotIndex == s
      ensures forall k :: 0 <= k < |placements| && placements[k].slot == s ==> placed[s] == k
    {
      PlacedAt(occ, placements, s);
      if placed[s] != NoPin {
        var k :| 0 <= k < |placements| && placements[k].slot == s;
        assert pins[k].id == placed[s] && pins[k].slotIndex == s;
      }
    }
  }

  /** The pins of a valid layout, placed into empty slots, agree with the
      slots' occupants. */
  lemma LayoutAgrees(occ: seq<int>, placements: seq<Placement>, pins: seq<PinData>, slots: seq<SlotData>)
    requires |occ| == |slots| && forall s :: 0 <= s < |occ| ==> occ[s] == NoPin
    requires ValidPlacements(placements, |slots|)
    requires PinsMatch(pins, slots, placements)
    ensures Agree(Placed(occ, placements), Views(pins))
  {
    PlacementAgrees(occ, placements, Views(pins));
  }

  predicate DistinctSlots(slots: seq<SlotData>) {
    forall i, j :: 0 <= i < j < |slots| ==> slots[i] != slots[j]
  }

  /** The pins follow the placements: pin k has id k, the placement's slot
      index and rope id, and sits on that slot's position. */
  ghost predicate PinsMatch(pins: seq<PinData>, slots: seq<SlotData>, placements: seq<Placement>)
    reads pins`slotIndex, pins`logicPos, pins`worldPos
  {
    && |pins| == |placements|
    && forall k :: 0 <= k < |pins| ==>
         && 0 <= placements[k].slot < |slots|
         && pins[k].id == k && pins[k].slotIndex == placements[k].slot && pins[k].ropeId == placements[k].rope
         && pins[k].logicPos == slots[placements[k].slot].position
         && pins[k].worldPos == Lift(slots[placements[k].slot].position, 0.0)
  }

  /** One pin of the layout: created for its slot, synced to the slot's
      position, and recorded by the slot. */
  method AddPin(slots: seq<SlotData>, pinId: int, slotIndex: int, ropeId: int) returns (pin: PinData)
    requires 0 <= slotIndex < |slots|
    modifies {slots[slotIndex]}`occupiedByPinId
    ensures fresh(pin)
    ensures pin.id == pinId && pin.slotIndex == slotIndex && pin.ropeId == ropeId
    ensures pin.logicPos == slots[slotIndex].position && pin.worldPos == Lift(slots[slotIndex].position, 0.0)
    ensures DistinctSlots(slots) ==> Occupants(slots) == old(Occupants(slots))[slotIndex := pinId]
  {
    pin := new PinData(pinId, slotIndex, ropeId);
    pin.SyncPositionFromSlot(slots[slotIndex]);
    slots[slotIndex].Occupy(pin.id);
  }

  /** Placing one more pin: the occupants of the earlier placements, with
      the new pin's id in its slot. */
  lemma PlacedStep(occ: seq<int>, placements: seq<Placement>, p: Placement)
    requires 0 <= p.slot < |occ|
    ensures Placed(occ, placements + [p]) == Placed(occ, placements)[p.slot := |placements|]
  {
    assert (placements + [p])[..|placements|] == placements;
  }

  lemma PlacedNone(occ: seq<int>)
    ensures Placed(occ, []) == occ
  {
  }

  lemma PinsMatchNone(slots: seq<SlotData>)
    ensures PinsMatch([], slots, [])
  {
  }

  /** A pin that follows placement p extends a matching list of pins. */
  lemma PinsMatchStep(pins: seq<PinData>, slots: seq<SlotData>, placements: seq<Placement>, pin: PinData, p: Placement)
    requires PinsMatch(pins, slots, placements)
    requires 0 <= p.slot < |slots|
    requires pin.id == |pins| && pin.slotIndex == p.slot && pin.ropeId == p.rope
    requires pin.logicPos == slots[p.slot].position && pin.worldPos == Lift(slots[p.slot].position, 0.0)
    ensures PinsMatch(pins + [pin], slots, placements + [p])
  {
  }

  lemma CrossingPlacementsStep(slotCount: int, ropes: nat)
    requires ropes < |CrossingLayout|
    ensures CrossingPlacements(slotCount, 0) == []
    ensures CrossingPlacements(slotCount, ropes + 1) == CrossingPlacements(slotCount, ropes)
      + if CrossingLayout[ropes].0 < slotCount && CrossingLayout[ropes].1 < slotCount
        then [Placement(CrossingLayout[ropes].0, ropes), Placement(CrossingLayout[ropes].1, ropes)]
        else []
  {
  }

  /** The crossing layout's placements stay inside the list and use
      distinct slots. */
  lemma CrossingPlacementsValid(slotCount: int, ropes: int)
    requires 0 <= ropes <= |CrossingLayout|
    ensures ValidPlacements(CrossingPlacements(slotCount, ropes), slotCount)
  {
    hide CrossingPlacements, ValidPlacements;
    assert CrossingLayout[0] == (0, 8) && CrossingLayout[1] == (6, 2);
    CrossingPlacementsStep(slotCount, 0);
    CrossingPlacementsStep(slotCount, 1);
    var first := [Placement(0, 0), Placement(8, 0)];
    var second := [Placement(6, 1), Placement(2, 1)];
    PairValid(first[0], first[1], slotCount);
    PairValid(second[0], second[1], slotCount);
    if slotCount <= 6 {
      assert CrossingPlacements(slotCount, ropes) == [];
    } else if slotCount <= 8 {
      assert CrossingPlacements(slotCount, 1) == [];
      assert CrossingPlacements(slotCount, 2) == second;
      assert ropes == 0 || ropes == 1 || ropes == 2;
    } else if ropes < 2 {
      assert CrossingPlacements(slotCount, 1) == first;
      assert ValidPlacements(CrossingPlacements(slotCount, ropes), slotCount);
    } else {
      assert CrossingPlacements(slotCount, 2) == first + second;
      forall j, k | 0 <= j < |first| && 0 <= k < |second|
        ensures first[j].slot != second[k].slot
      {
      }
      ValidConcat(first, second, slotCount);
    }
  }

  lemma PairValid(p: Placement, q: Placement, slotCount: int)
    ensures 0 <= p.slot < slotCount && 0 <= q.slot < slotCount && p.slot != q.slot
      ==> ValidPlacements([p, q], slotCount)
    ensures ValidPlacements([], slotCount)
  {
  }

  lemma ValidConcat(a: seq<Placement>, b: seq<Placement>, slotCount: int)
    requires ValidPlacements(a, slotCount) && ValidPlacements(b, slotCount)
    requires forall j, k :: 0 <= j < |a| && 0 <= k < |b| ==> a[j].slot != b[k].slot
    ensures ValidPlacements(a + b, slotCount)
  {
    var ab := a + b;
    forall j, k | 0 <= j < k < |ab|
      ensures ab[j].slot != ab[k].slot
    {
      if k >= |a| && j < |a| {
        assert ab[k] == b[k - |a|];
      }
    }
  }

  /** The two pins of one rope, with the next two pin ids, appended to
      pins. */
  method AddRopePins(slots: seq<SlotData>, pins: seq<PinData>, slot1: int, slot2: int, ropeId: int,
                     ghost placed: seq<Placement>, ghost occ: seq<int>)
    returns (pins': seq<PinData>)
    requires 0 <= slot1 < |slots| && 0 <= slot2 < |slots|
    requires PinsMatch(pins, slots, placed)
    requires |occ| == |slots|
    requires DistinctSlots(slots) ==> Occupants(slots) == Placed(occ, placed)
    modifies {slots[slot1]}`occupiedByPinId, {slots[slot2]}`occupiedByPinId
    ensures |pins'| == |pins| + 2 && pins'[..|pins|] == pins
    ensures fresh(pins'[|pins|]) && fresh(pins'[|pins| + 1]) && pins'[|pins|] != pins'[|pins| + 1]
    ensures PinsMatch(pins', slots, placed + [Placement(slot1, ropeId), Placement(slot2, ropeId)])
    ensures DistinctSlots(slots) ==>
      Occupants(slots) == Placed(occ, placed + [Placement(slot1, ropeId), Placement(slot2, ropeId)])
  {
    hide Placed, PinsMatch, Occupants;
    ghost var p1, p2 := Placement(slot1, ropeId), Placement(slot2, ropeId);
    var pin1 := AddPin(slots, |pins|, slot1, ropeId);
    PinsMatchStep(pins, slots, placed, pin1, p1);
    PlacedStep(occ, placed, p1);
    pins' := pins + [pin1];
    var pin2 := AddPin(slots, |pins'|, slot2, ropeId);
    PinsMatchStep(pins', slots, placed + [p1], pin2, p2);
    PlacedStep(occ, placed + [p1], p2);
    pins' := pins' + [pin2];
    assert placed + [p1] + [p2] == placed + [p1, p2];
  }

  /** Adds pin by pin the pins of the first ropes ropes of the crossing
      layout, skipping a rope whose slots do not all exist. */
  method PlaceCrossingPins(slots: seq<SlotData>, ropes: int) returns (pins: seq<PinData>)
    requires 0 <= ropes <= |CrossingLayout|
    modifies slots`occupiedByPinId
    ensures PinsMatch(pins, slots, CrossingPlacements(|slots|, ropes))
    ensures forall i, j :: 0 <= i < j < |pins| ==> pins[i] != pins[j]
    ensures forall k :: 0 <= k < |pins| ==> fresh(pins[k])
    ensures DistinctSlots(slots) ==> Occupants(slots) == Placed(old(Occupants(slots)), CrossingPlacements(|slots|, ropes))
  {
    hide Placed, PinsMatch, Occupants, CrossingPlacements;
    CrossingPlacementsStep(|slots|, 0);
    ghost var occ := Occupants(slots);
    pins := [];
    PlacedNone(occ);
    PinsMatchNone(slots);
    var pinId := 0;
    var r := 0;
    while r < ropes
      invariant 0 <= r <= ropes
      invariant pinId == |pins|
      invariant PinsMatch(pins, slots, CrossingPlacements(|slots|, r))
      invariant forall i, j :: 0 <= i < j < |pins| ==> pins[i] != pins[j]
      invariant forall k :: 0 <= k < |pins| ==> fresh(pins[k])
      invariant DistinctSlots(slots) ==> Occupants(slots) == Placed(occ, CrossingPlacements(|slots|, r))
    {
      ghost var placed := CrossingPlacements(|slots|, r);
      var (slot1, slot2) := CrossingLayout[r];
      if slot1 < |slots| && slot2 < |slots| {
        pins := AddRopePins(slots, pins, slot1, slot2, r, placed, occ);
        pinId := pinId + 2;
      }
      CrossingPlacementsStep(|slots|, r);
      r := r + 1;
    }
  }

  lemma SequentialPlacementsStep(ropes: nat)
    ensures SequentialPlacements(0) == []
    ensures SequentialPlacements(ropes + 1)
         == SequentialPlacements(ropes) + [Placement(2 * ropes, ropes)] + [Placement(2 * ropes + 1, ropes)]
  {
  }

  /** The fallback loop runs exactly FallbackRopeCount rounds. */
  lemma FallbackRounds(r: nat, ropeCount: int, slotCount: nat)
    ensures r < ropeCount && 2 * r < slotCount - 1 ==> r + 1 <= FallbackRopeCount(ropeCount, slotCount)
    ensures r <= FallbackRopeCount(ropeCount, slotCount) && !(r < ropeCount && 2 * r < slotCount - 1)
      ==> r == FallbackRopeCount(ropeCount, slotCount)
  {
  }

  /** Adds rope after rope on the two lowest unused slot indices, while
      ropes are wanted and at least two slots are unused. */
  method PlaceSequentialPins(slots: seq<SlotData>, ropeCount: int) returns (pins: seq<PinData>)
    modifies slots`occupiedByPinId
    ensures PinsMatch(pins, slots, SequentialPlacements(FallbackRopeCount(ropeCount, |slots|)))
    ensures forall i, j :: 0 <= i < j < |pins| ==> pins[i] != pins[j]
    ensures forall k :: 0 <= k < |pins| ==> fresh(pins[k])
    ensures DistinctSlots(slots) ==> Occupants(slots) == Placed(old(Occupants(slots)), SequentialPlacements(FallbackRopeCount(ropeCount, |slots|)))
  {
    hide Placed, PinsMatch, Occupants, SequentialPlacements, FallbackRopeCount;
    ghost var occ := Occupants(slots);
    pins := [];
    PlacedNone(occ);
    PinsMatchNone(slots);
    SequentialPlacementsStep(0);
    var pinId := 0;
    var ropeId := 0;
    var usedSlotIndices: seq<int> := [];
    while ropeId < ropeCount && |usedSlotIndices| < |slots| - 1
      invariant 0 <= ropeId <= FallbackRopeCount(ropeCount, |slots|)
      invariant |usedSlotIndices| == 2 * ropeId && forall i :: i in usedSlotIndices <==> 0 <= i < 2 * ropeId
      invariant pinId == 2 * ropeId == |pins|
      invariant PinsMatch(pins, slots, SequentialPlacements(ropeId))
      invariant forall i, j :: 0 <= i < j < |pins| ==> pins[i] != pins[j]
      invariant forall k :: 0 <= k < |pins| ==> fresh(pins[k])
      invariant DistinctSlots(slots) ==> Occupants(slots) == Placed(occ, SequentialPlacements(ropeId))
    {
      ghost var placed := SequentialPlacements(ropeId);
      FallbackRounds(ropeId, ropeCount, |slots|);
      var slot1 := FindUnusedSlotIndex(slots, usedSlotIndices);
      assert 2 * ropeId !in usedSlotIndices;
      if slot1 < 0 {
        break;
      }
      assert slot1 == 2 * ropeId;
      usedSlotIndices := usedSlotIndices + [slot1];
      var slot2 := FindUnusedSlotIndex(slots, usedSlotIndices);
      assert 2 * ropeId + 1 !in usedSlotIndices;
      if slot2 < 0 {
        break;
      }
      assert slot2 == 2 * ropeId + 1;
      usedSlotIndices := usedSlotIndices + [slot2];
      pins := AddRopePins(slots, pins, slot1, slot2, ropeId, placed, occ);
      pinId := pinId + 2;
      assert placed + [Placement(slot1, ropeId)] + [Placement(slot2, ropeId)]
          == placed + [Placement(slot1, ropeId), Placement(slot2, ropeId)];
      SequentialPlacementsStep(ropeId);
      ropeId := ropeId + 1;
    }
    FallbackRounds(ropeId, ropeCount, |slots|);
  }

  /** Creates the pins of Layout, each synced to its slot and recorded by
      it: on a grid of at least 3x3 with at least two ropes, the crossing
      layout; otherwise rope after rope on the lowest unused slots. */
  method CreatePinData(cfg: LevelConfig, slots: seq<SlotData>) returns (pins: seq<PinData>)
    modifies slots`occupiedByPinId
    ensures PinsMatch(pins, slots, Layout(cfg, |slots|))
    ensures forall i, j :: 0 <= i < j < |pins| ==> pins[i] != pins[j]
    ensures forall k :: 0 <= k < |pins| ==> fresh(pins[k])
    ensures DistinctSlots(slots) ==> Occupants(slots) == Placed(old(Occupants(slots)), Layout(cfg, |slots|))
  {
    if UsesCrossingLayout(cfg) {
      pins := PlaceCrossingPins(slots, MinInt(cfg.ropeCount, 2));
    } else {
      pins := PlaceSequentialPins(slots, cfg.ropeCount);
    }
  }

  // ---------------------------------------------------------------------
  // Ropes.

  /** The rope ids of the pins in the order each first appears: the order
      in which the grouping dictionary receives its keys. */
  function RopeOrder(pins: seq<PinData>): seq<int> {
    if pins == [] then []
    else
      var order := RopeOrder(pins[..|pins| - 1]);
      var ropeId := pins[|pins| - 1].ropeId;
      if ropeId in order then order else order + [ropeId]
  }

  /** The ids of the pins of one rope, in pin-list order. */
  function PinsOfRope(pins: seq<PinData>, ropeId: int): seq<int> {
    if pins == [] then []
    else
      var front := PinsOfRope(pins[..|pins| - 1], ropeId);
      var pin := pins[|pins| - 1];
      if pin.ropeId == ropeId then front + [pin.id] else front
  }

  /** Each rope id is listed once, and exactly the rope ids some pin carries
      are listed. */
  lemma {:induction false} RopeOrderIsKeySet(pins: seq<PinData>)
    ensures forall i, j :: 0 <= i < j < |RopeOrder(pins)| ==> RopeOrder(pins)[i] != RopeOrder(pins)[j]
    ensures forall r :: r in RopeOrder(pins) <==> exists k :: 0 <= k < |pins| && pins[k].ropeId == r
  {
    if pins != [] {
      var front := pins[..|pins| - 1];
      RopeOrderIsKeySet(front);
      assert forall k :: 0 <= k < |front| ==> front[k] == pins[k];
      forall r | exists k :: 0 <= k < |pins| && pins[k].ropeId == r
        ensures r in RopeOrder(pins)
      {
        var k :| 0 <= k < |pins| && pins[k].ropeId == r;
        if k < |front| {
          assert front[k].ropeId == r;
        }
      }
    }
  }

  /** A rope's pin list holds exactly the ids of the pins of that rope. */
  lemma {:induction false} PinsOfRopeMembers(pins: seq<PinData>, ropeId: int)
    ensures forall id :: id in PinsOfRope(pins, ropeId) <==>
      exists k :: 0 <= k < |pins| && pins[k].ropeId == ropeId && pins[k].id == id
  {
    if pins != [] {
      var front := pins[..|pins| - 1];
      PinsOfRopeMembers(front, ropeId);
      assert forall k :: 0 <= k < |front| ==> front[k] == pins[k];
      forall id | exists k :: 0 <= k < |pins| && pins[k].ropeId == ropeId && pins[k].id == id
        ensures id in PinsOfRope(pins, ropeId)
      {
        var k :| 0 <= k < |pins| && pins[k].ropeId == ropeId && pins[k].id == id;
        if k < |front| {
          assert front[k].ropeId == ropeId && front[k].id == id;
        }
      }
    }
  }

  /** The grouping dictionary: each rope id mapped to its pins' ids, with
      its keys listed in insertion order. */
  method GroupPinsByRope(pins: seq<PinData>) returns (ropePins: map<int, seq<int>>, keys: seq<int>)
    ensures keys == RopeOrder(pins)
    ensures forall r :: r in ropePins <==> r in keys
    ensures forall r :: r in ropePins ==> ropePins[r] == PinsOfRope(pins, r)
  {
    ropePins := map[];
    keys := [];
    var i := 0;
    while i < |pins|
      invariant 0 <= i <= |pins|
      invariant keys == RopeOrder(pins[..i])
      invariant forall r :: r in ropePins <==> r in keys
      invariant forall r :: r in ropePins ==> ropePins[r] == PinsOfRope(pins[..i], r)
      invariant forall r :: r !in ropePins ==> PinsOfRope(pins[..i], r) == []
    {
      assert pins[..i + 1][..i] == pins[..i];
      var pin := pins[i];
      if pin.ropeId !in ropePins {
        ropePins := ropePins[pin.ropeId := []];
        keys := keys + [pin.ropeId];
      }
      ropePins := ropePins[pin.ropeId := ropePins[pin.ropeId] + [pin.id]];
      i := i + 1;
    }
    assert pins[..i] == pins;
  }

  /** Groups the pins by rope id, then creates one rope per group in key
      order, each with its own id as render priority and a base path built
      from the pins. */
  method CreateRopeData(pins: seq<PinData>) returns (ropes: seq<RopeData>)
    ensures |ropes| == |RopeOrder(pins)|
    ensures forall j :: 0 <= j < |ropes| ==>
      && ropes[j].id == RopeOrder(pins)[j]
      && ropes[j].pinIds == PinsOfRope(pins, ropes[j].id)
      && ropes[j].renderPriority == ropes[j].id
      && ropes[j].renderPath == BasePath(ropes[j].pinIds, Views(pins))
    ensures forall i, j :: 0 <= i < j < |ropes| ==> ropes[i] != ropes[j]
    ensures forall j :: 0 <= j < |ropes| ==> fresh(ropes[j])
  {
    hide Views, BasePath, RopeOrder, PinsOfRope;
    ghost var views := Views(pins);
    var ropePins, keys := GroupPinsByRope(pins);
    ropes := [];
    var j := 0;
    while j < |keys|
      invariant 0 <= j <= |keys| && |ropes| == j
      invariant Views(pins) == views
      invariant forall k :: 0 <= k < j ==>
        && ropes[k].id == keys[k]
        && ropes[k].pinIds == PinsOfRope(pins, ropes[k].id)
        && ropes[k].renderPriority == ropes[k].id
        && ropes[k].renderPath == BasePath(ropes[k].pinIds, views)
      invariant forall a, b :: 0 <= a < b < |ropes| ==> ropes[a] != ropes[b]
      invariant forall k :: 0 <= k < |ropes| ==> fresh(ropes[k])
    {
      var ropeId := keys[j];
      var rope := new RopeData(ropeId, ropePins[ropeId], ropeId);
      rope.InitializeRenderPath(pins);
      ropes := ropes + [rope];
      j := j + 1;
    }
  }

  // ---------------------------------------------------------------------
  // The shipped level.

  /** The four pins of the shipped level: rope 0 on the bottom-left and
      top-right corners, rope 1 on the top-left and bottom-right ones. */
  const DefaultPinViews: seq<PinView> := [
    PinView(0, 0, 0, Vec2(-2.0, -2.0), Vec3(-2.0, -2.0, 0.0)),
    PinView(1, 8, 0, Vec2(2.0, 2.0), Vec3(2.0, 2.0, 0.0)),
    PinView(2, 6, 1, Vec2(-2.0, 2.0), Vec3(-2.0, 2.0, 0.0)),
    PinView(3, 2, 1, Vec2(2.0, -2.0), Vec3(2.0, -2.0, 0.0))]

  /** The two ropes of the shipped level, each drawn at its id's priority. */
  const DefaultRopeViews: seq<RopeView> := [RopeView(0, [0, 1], 0), RopeView(1, [2, 3], 1)]

  /** On the 3x3 grid the crossing layout puts both ropes on the diagonals. */
  lemma DefaultLayout()
    ensures Layout(DefaultConfig, 9) == [Placement(0, 0), Placement(8, 0), Placement(6, 1), Placement(2, 1)]
  {
    assert CrossingPlacements(9, 1) == [Placement(0, 0), Placement(8, 0)];
  }

  /** The corner slots of the shipped grid sit two units from the centre. */
  lemma DefaultCorners()
    ensures GridPosition(DefaultConfig, 0, 0) == Vec2(-2.0, -2.0)
    ensures GridPosition(DefaultConfig, 2, 2) == Vec2(2.0, 2.0)
    ensures GridPosition(DefaultConfig, 2, 0) == Vec2(-2.0, 2.0)
    ensures GridPosition(DefaultConfig, 0, 2) == Vec2(2.0, -2.0)
  {
  }

  /** Every pin of the shipped level is found under its own id. */
  lemma DefaultPinsFound()
    ensures FindPin(DefaultPinViews, 0) == Some(DefaultPinViews[0])
    ensures FindPin(DefaultPinViews, 1) == Some(DefaultPinViews[1])
    ensures FindPin(DefaultPinViews, 2) == Some(DefaultPinViews[2])
    ensures FindPin(DefaultPinViews, 3) == Some(DefaultPinViews[3])
  {
    var pins := DefaultPinViews;
    assert pins[0].id == 0 && pins[1].id == 1 && pins[2].id == 2 && pins[3].id == 3;
    FindPinIsFirst(pins, 0, 0);
    FindPinIsFirst(pins, 1, 1);
    FindPinIsFirst(pins, 2, 2);
    FindPinIsFirst(pins, 3, 3);
  }

  /** The two ropes of the shipped level run along the diagonals and cross
      at the centre, rope 1 on top because its render priority is higher. */
  lemma DefaultRopesCross()
    ensures FindRopeIntersections(DefaultRopeViews[0], DefaultRopeViews[1], DefaultPinViews)
         == [NewIntersection(0, 1, Zero2, 1)]
  {
    hide FindPin, SegmentIntersect;
    DefaultPinsFound();
    var pins := DefaultPinViews;
    var r0, r1 := DefaultRopeViews[0], DefaultRopeViews[1];
    assert r0.StartPinId() == 0 && r0.EndPinId() == 1 && r1.StartPinId() == 2 && r1.EndPinId() == 3;
    var a0, a1, b0, b1 := FindPin(pins, 0), FindPin(pins, 1), FindPin(pins, 2), FindPin(pins, 3);
    assert a0 == Some(pins[0]) && a1 == Some(pins[1]) && b0 == Some(pins[2]) && b1 == Some(pins[3]);
    assert a0.value.logicPos == Vec2(-2.0, -2.0) && a1.value.logicPos == Vec2(2.0, 2.0);
    assert b0.value.logicPos == Vec2(-2.0, 2.0) && b1.value.logicPos == Vec2(2.0, -2.0);
    var a, b, c, d := Vec2(-2.0, -2.0), Vec2(2.0, 2.0), Vec2(-2.0, 2.0), Vec2(2.0, -2.0);
    assert Cross(Sub2(b, a), Sub2(d, c)) == -32.0;
    assert ParamT(a, b, c, d) == 0.5 && ParamU(a, b, c, d) == 0.5;
    var hit := SegmentIntersect(a, b, c, d);
    assert hit.intersects && hit.point == Zero2;
    assert TopRopeId(r0, r1) == 1;
  }

  /** The shipped level starts tangled: of all pairs of its ropes, only the
      one pair crosses, once. */
  lemma DefaultLevelCrossesOnce()
    ensures AllIntersections(DefaultRopeViews, DefaultPinViews) == [NewIntersection(0, 1, Zero2, 1)]
  {
    hide FindRopeIntersections;
    DefaultRopesCross();
    assert PairsRow(DefaultRopeViews, DefaultPinViews, 0, 1) == [];
    assert PairsRow(DefaultRopeViews, DefaultPinViews, 0, 2) == [NewIntersection(0, 1, Zero2, 1)];
    assert PairsRow(DefaultRopeViews, DefaultPinViews, 1, 2) == [];
    assert Sweep(DefaultRopeViews, DefaultPinViews, 1) == [NewIntersection(0, 1, Zero2, 1)];
  }

  /** What the setup builds for the shipped settings: the four pins and
      the two ropes above. */
  lemma DefaultViews(slots: seq<SlotData>, pins: seq<PinData>, ropes: seq<RopeData>)
    requires |slots| == 9
    requires forall k :: 0 <= k < 9 ==> slots[k].position == GridPosition(DefaultConfig, k / 3, k % 3)
    requires PinsMatch(pins, slots, Layout(DefaultConfig, 9))
    requires |ropes| == |RopeOrder(pins)|
    requires forall j :: 0 <= j < |ropes| ==>
      && ropes[j].id == RopeOrder(pins)[j]
      && ropes[j].pinIds == PinsOfRope(pins, ropes[j].id)
      && ropes[j].renderPriority == ropes[j].id
    ensures Views(pins) == DefaultPinViews
    ensures RopeViews(ropes) == DefaultRopeViews
  {
    DefaultLayout();
    DefaultCorners();
    assert slots[8].position == GridPosition(DefaultConfig, 2, 2);
    assert slots[6].position == GridPosition(DefaultConfig, 2, 0);
    assert slots[2].position == GridPosition(DefaultConfig, 0, 2);
    assert slots[0].position == GridPosition(DefaultConfig, 0, 0);
    assert |pins| == 4;
    assert pins[0].ropeId == 0 && pins[1].ropeId == 0 && pins[2].ropeId == 1 && pins[3].ropeId == 1;
    assert pins[0].id == 0 && pins[1].id == 1 && pins[2].id == 2 && pins[3].id == 3;
    assert Views(pins) == DefaultPinViews;
    assert pins[..3][..2][..1][..0] == [];
    assert RopeOrder(pins[..3][..2][..1]) == [0];
    assert RopeOrder(pins[..3][..2]) == [0];
    assert RopeOrder(pins[..3]) == [0, 1];
    assert RopeOrder(pins) == [0, 1];
    assert PinsOfRope(pins[..3][..2][..1], 0) == [0] && PinsOfRope(pins[..3][..2][..1], 1) == [];
    assert PinsOfRope(pins[..3][..2], 0) == [0, 1] && PinsOfRope(pins[..3][..2], 1) == [];
    assert PinsOfRope(pins[..3], 0) == [0, 1] && PinsOfRope(pins[..3], 1) == [2];
    assert PinsOfRope(pins, 0) == [0, 1] && PinsOfRope(pins, 1) == [2, 3];
  }

  // ---------------------------------------------------------------------
  // Setting up a level.

  /** Builds the grid of slots and places the pins in them; slot occupants
      and pin slot indices agree. */
  method PlaceLevel(cfg: LevelConfig) returns (slots: seq<SlotData>, pins: seq<PinData>)
    ensures |slots| == Iterations(cfg.gridRows) * Iterations(cfg.gridCols)
    ensures forall k :: 0 <= k < |slots| ==>
      slots[k].id == k && slots[k].position == GridPosition(cfg, k / cfg.gridCols, k % cfg.gridCols)
    ensures forall i, j :: 0 <= i < j < |slots| ==> slots[i] != slots[j]
    ensures PinsMatch(pins, slots, Layout(cfg, |slots|))
    ensures Agree(Occupants(slots), Views(pins))
  {
    hide Views, Occupants, Placed, PinsMatch, GridPosition, Layout, Agree;
    slots := CreateSlotData(cfg);
    ghost var empty := Occupants(slots);
    assert forall s :: 0 <= s < |empty| ==> empty[s] == NoPin;
    assert DistinctSlots(slots);
    pins := CreatePinData(cfg, slots);
    LayoutAgrees(empty, Layout(cfg, |slots|), pins, slots);
  }

  /** Builds the data of a level: the grid of slots, the pins placed in
      them and the ropes grouped from the pins. The shipped settings give
      exactly one crossing. */
  method BuildLevel(cfg: LevelConfig) returns (slots: seq<SlotData>, pins: seq<PinData>, ropes: seq<RopeData>)
    ensures |slots| == Iterations(cfg.gridRows) * Iterations(cfg.gridCols)
    ensures forall k :: 0 <= k < |slots| ==>
      slots[k].id == k && slots[k].position == GridPosition(cfg, k / cfg.gridCols, k % cfg.gridCols)
    ensures forall i, j :: 0 <= i < j < |slots| ==> slots[i] != slots[j]
    ensures PinsMatch(pins, slots, Layout(cfg, |slots|))
    ensures Agree(Occupants(slots), Views(pins))
    ensures |ropes| == |RopeOrder(pins)|
    ensures forall j :: 0 <= j < |ropes| ==>
      && ropes[j].id == RopeOrder(pins)[j]
      && ropes[j].pinIds == PinsOfRope(pins, ropes[j].id)
      && ropes[j].renderPriority == ropes[j].id
    ensures forall j :: 0 <= j < |ropes| ==> fresh(ropes[j])
    ensures cfg == DefaultConfig ==> AllIntersections(RopeViews(ropes), Views(pins)) == [NewIntersection(0, 1, Zero2, 1)]
  {
    hide AllIntersections, RopeViews, Views, Occupants, Placed, PinsMatch, RopeOrder, PinsOfRope,
         BasePath, GridPosition, Layout, Agree;
    slots, pins := PlaceLevel(cfg);
    ghost var pv, occ := Views(pins), Occupants(slots);
    ropes := CreateRopeData(pins);
    assert Views(pins) == pv && Occupants(slots) == occ;
    if cfg == DefaultConfig {
      DefaultViews(slots, pins, ropes);
      DefaultLevelCrossesOnce();
    }
  }

  /** Builds a level and hands it to the game manager, which installs it
      and computes the crossings. */
  method SetupTestLevel(cfg: LevelConfig, gm: GameManager) returns (ghost raised: seq<GameEvent>)
    modifies gm`slots, gm`pins, gm`ropes, gm`intersections
    ensures |gm.slots| == Iterations(cfg.gridRows) * Iterations(cfg.gridCols)
    ensures forall k :: 0 <= k < |gm.slots| ==>
      gm.slots[k].id == k && gm.slots[k].position == GridPosition(cfg, k / cfg.gridCols, k % cfg.gridCols)
    ensures PinsMatch(gm.pins, gm.slots, Layout(cfg, |gm.slots|))
    ensures gm.OccupancyAgrees()
    ensures |gm.ropes| == |RopeOrder(gm.pins)|
    ensures forall j :: 0 <= j < |gm.ropes| ==>
      && gm.ropes[j].id == RopeOrder(gm.pins)[j]
      && gm.ropes[j].pinIds == PinsOfRope(gm.pins, gm.ropes[j].id)
      && gm.ropes[j].renderPriority == gm.ropes[j].id
    ensures gm.intersections == AllIntersections(RopeViews(gm.ropes), Views(gm.pins))
    ensures forall r :: r in gm.ropes ==>
      r.renderPath == Woven(gm.math, r.id, r.pinIds, gm.intersections, Views(gm.pins))
    ensures raised == RecalcEvents(old(|gm.intersections|), |gm.intersections|)
    ensures cfg == DefaultConfig ==> gm.intersections == [NewIntersection(0, 1, Zero2, 1)]
  {
    hide AllIntersections, Woven, RopeViews, Views, Occupants, Placed, PinsMatch, RopeOrder, PinsOfRope,
         BasePath, GridPosition, Layout, Agree;
    var slots, pins, ropes := BuildLevel(cfg);
    ghost var pv, occ, rv := Views(pins), Occupants(slots), RopeViews(ropes);
    raised := gm.SetLevelData(slots, pins, ropes);
    assert Views(pins) == pv && Occupants(slots) == occ && RopeViews(ropes) == rv;
    assert PinsMatch(pins, slots, Layout(cfg, |slots|));
  }
}
