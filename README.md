# Rope untangle puzzle: a verified model of the game logic

The game is a Unity puzzle. Coloured ropes are stretched between pins, and
every pin sits in a slot of a grid. The player drags a pin to another empty
slot, and wins when no two ropes cross any more. This project models the
game's logic in Dafny and proves what it promises:

- **Data records:** slots, pins, ropes and crossing records, with the
  agreement between slot occupants and pin slot indices.
- **Crossing engine:** the exact 2D segment test, the all-pairs sweep, and
  the crossing count used for the drag preview.
- **Weave of a rope's render path:** a helix detour is spliced into the rope
  at every crossing where that rope lies on top.
- **Game manager:** snapping a pin into a slot, recomputing the crossings,
  and raising the count-changed and level-cleared notifications.
- **Drag controller:** the state machine for start, update, snap and
  rollback of a drag.
- **Test level:** the centred grid of slots, with two diagonal ropes that
  cross once.
- **Rendering geometry:**
  - Catmull-Rom interpolation;
  - the helix and arch detours;
  - the buffer and index layout of the tube mesh.
- **Verlet rope simulator:** anchors, one integration step and the distance
  constraints.

## How the model is laid out

There is one module per source file. The shared module `Vectors` holds
Unity's vector arithmetic over reals.

| file | module | source |
|---|---|---|
| vectors.dfy | Vectors | UnityEngine vector and Mathf helpers |
| intersection_data.dfy | Intersections | Data/Models/IntersectionData.cs |
| slot_data.dfy | Slots | Data/Models/SlotData.cs |
| pin_data.dfy | Pins | Data/Models/PinData.cs |
| rope_data.dfy | Ropes | Data/Models/RopeData.cs |
| intersection_calculator.dfy | IntersectionCalculator | Logic/IntersectionCalculator.cs |
| helix_generator.dfy | Helices | Rendering/HelixGenerator.cs |
| game_manager.dfy | GameManagement | Core/GameManager.cs |
| drag_controller.dfy | Dragging | Core/DragController.cs |
| level_setup.dfy | LevelSetup | Game/TestLevelSetup.cs |
| spline_interpolator.dfy | Splines | Rendering/SplineInterpolator.cs |
| tube_mesh_generator.dfy | TubeMesh | Rendering/TubeMeshGenerator.cs |
| verlet_rope_simulator.dfy | Verlet | Physics/VerletRopeSimulator.cs |

Mutable objects are Dafny classes:

- `SlotData`, `PinData`, `RopeData`, `GameManager` and `DragController`;
- `TubeMeshGenerator` with its list caches;
- `VerletRopeSimulator`, whose node buffers are `array`s.

Each method is proved against a specification function. The properties the
game relies on are proved about those functions, as lemmas. Examples:

| method | specification function |
|---|---|
| `ApplyHelixAtIntersections` | `Woven` |
| `CalculateAllIntersections` | `AllIntersections` |
| `FindClosestSegmentIndex` | `ClosestSegment` |
| `InterpolateCatmullRom` | `CatmullRomCurve` |
| `GenerateMesh` | `TubeVertices` and `TriangleIndices` |
| `Simulate` | `Step` |

The crossing engine works on value snapshots of the heap objects (`PinView`,
`RopeView`). Statements like "computed from the state at entry" are then
plain `old(...)` equations.

Three modelling choices run through the whole project:

- **Floats are reals.** `Mathf.Sqrt`, `Sin`, `Cos` and `Vector3.normalized`
  come from a `MathOracle` value passed as a parameter. Nothing is assumed
  about those functions unless a lemma states it (for example
  `NonNegativeSqrt`).
- **Singletons become references.** The `Instance` singletons are explicit
  object references.
- **Notifications become ghost traces.** C# events are modelled as ghost
  sequences of `GameEvent` and `DragEvent` values, returned by the methods
  that raise them.

Source paths below are relative to the repository root.

## Model

| member | source | states |
|---|---|---|
| Intersections.NewIntersection | Assets/Application/Scripts/Data/Models/IntersectionData.cs:54-62 | The constructor stores both rope ids, the point and the top rope id, and sets both segment indices to 0 |
| Intersections.BottomRopeIdCases | Assets/Application/Scripts/Data/Models/IntersectionData.cs:47 | The bottom rope is rope B when the top rope is rope A, otherwise rope A |
| Intersections.TopBottomPartition | Assets/Application/Scripts/Data/Models/IntersectionData.cs:47-52 | For two different ropes with the top rope one of them, {top, bottom} = {A, B} and top ≠ bottom |
| Intersections.SameRopeBottom | Assets/Application/Scripts/Data/Models/IntersectionData.cs:47-52 | For a record of one rope with itself, the bottom rope is rope A |
| Slots.SlotData.constructor | Assets/Application/Scripts/Data/Models/SlotData.cs:49-54 | A new slot stores its id and position and is empty (occupant -1) |
| Slots.SlotData.Occupy | Assets/Application/Scripts/Data/Models/SlotData.cs:36-39 | Sets the occupant without any emptiness check. The slot is then empty iff the id is -1. Id and position are constants, so they cannot change |
| Slots.SlotData.Release | Assets/Application/Scripts/Data/Models/SlotData.cs:44-47 | The slot is empty afterwards, whatever occupied it |
| Pins.PinData.constructor | Assets/Application/Scripts/Data/Models/PinData.cs:57-62 | Stores id, slot index and rope id; both positions start at zero |
| Pins.PinData.SyncPositionFromSlot | Assets/Application/Scripts/Data/Models/PinData.cs:42-46 | LogicPos becomes the slot position and WorldPos becomes (x, y, 0). The result does not depend on earlier positions, so syncing after any preview restores the slot's positions |
| Pins.PinData.SetPreviewPosition | Assets/Application/Scripts/Data/Models/PinData.cs:51-55 | LogicPos and WorldPos.xy become the point; WorldPos.z is kept |
| Pins.FindPin | Assets/Application/Scripts/Logic/IntersectionCalculator.cs:76-81 | `List.Find` by id finds nothing iff no pin has that id; otherwise it finds a listed pin with that id |
| Pins.FindPinIsFirst | Assets/Application/Scripts/Logic/IntersectionCalculator.cs:76-81 | `List.Find` returns the first pin with the id |
| Ropes.SinglePinRopeHasNoEnd | Assets/Application/Scripts/Data/Models/RopeData.cs:47-52 | For a one-pin rope, StartPinId is that pin and EndPinId is -1 |
| Ropes.BasePathAllFound | Assets/Application/Scripts/Data/Models/RopeData.cs:57-69 | When every pin id is found, the base path is the WorldPos of each pin id, in order |
| Ropes.BasePathNoneFound | Assets/Application/Scripts/Data/Models/RopeData.cs:57-69 | When no pin id is found, the base path is empty |
| Ropes.ProjectionParam | Assets/Application/Scripts/Data/Models/RopeData.cs:248-249 | The projection parameter is clamped into [0, 1] |
| Ropes.ClosestPointOnTheSegment | Assets/Application/Scripts/Data/Models/RopeData.cs:240-252 | The point used for the distance always lies on the segment, at a + t (b - a) with t in [0, 1]. For a degenerate segment it is the start |
| Ropes.ClosestPointIsPerpendicularFoot | Assets/Application/Scripts/Data/Models/RopeData.cs:240-252 | For a segment of squared length at least 1e-4 whose projection falls inside it, the closest point is the perpendicular foot: (point - closest) · (b - a) = 0 |
| Ropes.ClosestAmong | Assets/Application/Scripts/Data/Models/RopeData.cs:214-230 | The running minimum over the first n segments has minimal distance and is strictly closer than every earlier segment, so ties keep the first |
| Ropes.ClosestSegment | Assets/Application/Scripts/Data/Models/RopeData.cs:207-233 | Returns -1 iff the path has fewer than 2 points, otherwise an index in [0, Count-2] |
| Ropes.DirectionAtPoint | Assets/Application/Scripts/Data/Models/RopeData.cs:160-179 | Returns Vector3.right for a path shorter than 2. The result always has squared magnitude ≥ 0.001 |
| Ropes.DirectionDependsOnEndpoints | Assets/Application/Scripts/Data/Models/RopeData.cs:167-171 | The direction depends only on the first and last path points, not on the query point |
| Ropes.SpliceShape | Assets/Application/Scripts/Data/Models/RopeData.cs:184-201 | A path shorter than 2 or an empty detour is left unchanged. Otherwise the length grows by exactly the detour's length and the first and last points stay in place |
| Ropes.SpliceParts | Assets/Application/Scripts/Data/Models/RopeData.cs:192-201 | The detour sits at FindClosestSegmentIndex + 1. Everything before it and after it is the old path, unchanged |
| Ropes.Detour | Assets/Application/Scripts/Data/Models/RopeData.cs:128-135 | The helix detour for a crossing has DefaultSamples + 1 = 21 points |
| Ropes.Mine | Assets/Application/Scripts/Data/Models/RopeData.cs:111-112 | The filtered crossings all have this rope on top |
| Ropes.MineMembers | Assets/Application/Scripts/Data/Models/RopeData.cs:111-112 | x is kept iff x is in the list and names this rope as top |
| Ropes.MineEmpty | Assets/Application/Scripts/Data/Models/RopeData.cs:111-119 | The filter is empty iff no crossing names this rope as top |
| Ropes.MineIdempotent | Assets/Application/Scripts/Data/Models/RopeData.cs:111-112 | Filtering twice is filtering once |
| Ropes.InsertByKeyPermutes | Assets/Application/Scripts/Data/Models/RopeData.cs:113 | Inserting into the sorted list adds exactly that element, as a multiset |
| Ropes.SortByKeyPermutes | Assets/Application/Scripts/Data/Models/RopeData.cs:113 | OrderBy is a permutation of its input |
| Ropes.InsertByKeySorted | Assets/Application/Scripts/Data/Models/RopeData.cs:113 | Insertion keeps the list sorted by distance from the path start |
| Ropes.SortByKeySorted | Assets/Application/Scripts/Data/Models/RopeData.cs:113 | OrderBy's result is sorted by distance from the path start |
| Ropes.InsertByKeyStable | Assets/Application/Scripts/Data/Models/RopeData.cs:113 | Insertion keeps equal-key elements in their original order |
| Ropes.SortByKeyStable | Assets/Application/Scripts/Data/Models/RopeData.cs:113 | OrderBy is stable: for each key, the elements with that key keep their input order |
| Ropes.WeaveOne | Assets/Application/Scripts/Data/Models/RopeData.cs:122-139 | One weave step leaves a path shorter than 2 unchanged. Otherwise it adds 21 points and keeps both end points |
| Ropes.WeaveFromShape | Assets/Application/Scripts/Data/Models/RopeData.cs:122-139 | The back-to-front loop over the sorted crossings k.. adds 21 points per crossing and keeps both end points; a path shorter than 2 is untouched |
| Ropes.DetourDirectionIsBaseDirection | Assets/Application/Scripts/Data/Models/RopeData.cs:128 | Each detour's direction, computed on the partly woven path, equals the direction of the base path |
| Ropes.NoTopNoWeave | Assets/Application/Scripts/Data/Models/RopeData.cs:103-119 | If no crossing has this rope on top, the woven path is exactly the initialised path |
| Ropes.OnlyTopCrossingsMatter | Assets/Application/Scripts/Data/Models/RopeData.cs:111-112 | Crossings where the rope is not on top have no effect on its path |
| Ropes.WovenShape | Assets/Application/Scripts/Data/Models/RopeData.cs:98-140 | The woven path has the base path's end points and exactly 21 extra points per crossing with this rope on top |
| Ropes.IndexOf | Assets/Application/Scripts/Data/Models/RopeData.cs:76 | `List.IndexOf`: -1 iff absent; otherwise the first position holding the element |
| Ropes.FindRope | Assets/Application/Scripts/Logic/IntersectionCalculator.cs:148 | `List.Find` by rope id finds nothing iff no rope has that id; otherwise it finds a listed rope with that id |
| Ropes.RopeData.constructor | Assets/Application/Scripts/Data/Models/RopeData.cs:83-90 | Stores id, pin ids and render priority; the render path starts empty |
| Ropes.RopeData.InitializeRenderPath | Assets/Application/Scripts/Data/Models/RopeData.cs:57-69 | The render path becomes the base path: the WorldPos of each known pin id in order, skipping unknown ids, with length ≤ PinIds.Count |
| Ropes.RopeData.UpdatePinPositionInPath | Assets/Application/Scripts/Data/Models/RopeData.cs:74-81 | Overwrites only path[IndexOf(pinId)] when that index is in range. Length and other points are unchanged, and an unknown pin changes nothing |
| Ropes.EndPinUpdateAfterWeave | Assets/Application/Scripts/Data/Models/RopeData.cs:74-81 | On a woven two-pin rope with at least one detour, the end pin's index is 1 and the path has at least 23 points. The update writes that detour point, and the last point keeps the end pin's old position |
| Ropes.RopeData.FindClosestSegmentIndex | Assets/Application/Scripts/Data/Models/RopeData.cs:207-233 | -1 for fewer than 2 points; otherwise a segment of minimal distance, the first on ties |
| Ropes.RopeData.InsertHelixPointsAtIntersection | Assets/Application/Scripts/Data/Models/RopeData.cs:184-202 | The new path is the splice of the helix points after the closest segment's start (see SpliceShape and SpliceParts) |
| Ropes.RopeData.ApplyHelixAtIntersections | Assets/Application/Scripts/Data/Models/RopeData.cs:98-140 | The path is rebuilt from the pins. Then the crossings with this rope on top, stably sorted by distance from the start, are woven in from last to first (see WovenShape) |
| IntersectionCalculator.SegmentIntersect | Assets/Application/Scripts/Logic/IntersectionCalculator.cs:25-53 | Never a hit when \|cross(B-A, D-C)\| < 1e-6. Otherwise a hit iff t and u both lie strictly in (1e-6, 1-1e-6). The point is A + t(B-A) on a hit and (0, 0) otherwise |
| IntersectionCalculator.HitLiesOnBothSegments | Assets/Application/Scripts/Logic/IntersectionCalculator.cs:41-48 | A hit's point also equals C + u(D-C) |
| IntersectionCalculator.LinesMeet | Assets/Application/Scripts/Logic/IntersectionCalculator.cs:41-48 | For non-parallel lines, A + t(B-A) = C + u(D-C) |
| IntersectionCalculator.SegmentIntersectSymmetric | Assets/Application/Scripts/Logic/IntersectionCalculator.cs:25-53 | Swapping the segments swaps t and u and gives the same result and point |
| IntersectionCalculator.SharedEndpointNeverCrosses | Assets/Application/Scripts/Logic/IntersectionCalculator.cs:41-46 | Segments that share an end point never cross |
| IntersectionCalculator.RopeSegment | Assets/Application/Scripts/Logic/IntersectionCalculator.cs:76-86 | A rope has a segment iff both its start and end pins are found |
| IntersectionCalculator.TopRopeId | Assets/Application/Scripts/Logic/IntersectionCalculator.cs:94-96 | The higher render priority is on top, and ties go to rope A |
| IntersectionCalculator.FindRopeIntersections | Assets/Application/Scripts/Logic/IntersectionCalculator.cs:66-109 | At most one record, and none for equal ids. A record names A and B in argument order, with the top rope by priority |
| IntersectionCalculator.FindRopeIntersectionsCases | Assets/Application/Scripts/Logic/IntersectionCalculator.cs:73-107 | There is no record when an end pin is missing. There is one record iff the ropes cross, and it carries the segment hit point |
| IntersectionCalculator.SwappedRopesAgree | Assets/Application/Scripts/Logic/IntersectionCalculator.cs:66-109 | Testing (B, A) finds a record iff testing (A, B) does, with the same point and swapped ids. The top rope also agrees unless the priorities tie |
| IntersectionCalculator.PairsRowMembers | Assets/Application/Scripts/Logic/IntersectionCalculator.cs:123-127 | The inner loop's records are exactly those of the pairs (i, k) for k < j |
| IntersectionCalculator.SweepMembers | Assets/Application/Scripts/Logic/IntersectionCalculator.cs:121-128 | After n outer rounds, the records are exactly those of the pairs whose first index is below n |
| IntersectionCalculator.AllIntersectionsMembers | Assets/Application/Scripts/Logic/IntersectionCalculator.cs:115-131 | The result holds a record iff it is the record of some pair i < k |
| IntersectionCalculator.AllIntersectionsRecordShape | Assets/Application/Scripts/Logic/IntersectionCalculator.cs:121-128 | Every record comes from a pair i < k of ropes that cross. Rope A is the lower index, the two ids differ, and the top rope is one of them |
| IntersectionCalculator.HighestPriorityIsTop | Assets/Application/Scripts/Logic/IntersectionCalculator.cs:94-96 | With distinct ids, a rope whose priority is above every other rope's is on top of each crossing it takes part in |
| IntersectionCalculator.CalculateAllIntersections | Assets/Application/Scripts/Logic/IntersectionCalculator.cs:115-131 | The nested loop returns the all-pairs sweep over the ropes and pins at call time |
| IntersectionCalculator.CrossedBy | Assets/Application/Scripts/Logic/IntersectionCalculator.cs:157-164 | Keeps at most as many ropes as it is given |
| IntersectionCalculator.CrossedByMembers | Assets/Application/Scripts/Logic/IntersectionCalculator.cs:157-164 | A rope is counted iff it is another rope (by id) that the dragged rope crosses |
| IntersectionCalculator.PreviewViews | Assets/Application/Scripts/Logic/IntersectionCalculator.cs:142-145 | The pin state with only the moved pin's LogicPos replaced by the preview position |
| IntersectionCalculator.CalculatePreviewIntersectionCount | Assets/Application/Scripts/Logic/IntersectionCalculator.cs:137-170 | LogicPos is restored on every path. The count is 0 without the moved pin's rope, otherwise the number of other ropes it crosses at the preview position |
| IntersectionCalculator.CountCrossings | Assets/Application/Scripts/Logic/IntersectionCalculator.cs:155-164 | The foreach counts exactly the ropes in CrossedBy |
| IntersectionCalculator.PreviewCountedPairsAreRecorded | Assets/Application/Scripts/Logic/IntersectionCalculator.cs:157-164 | One direction: each rope the preview counts also appears, paired with the dragged rope, in the all-pairs result |
| IntersectionCalculator.RecordedPairsAreCounted | Assets/Application/Scripts/Logic/IntersectionCalculator.cs:157-164 | The other direction, for distinct rope ids: each rope that the all-pairs result pairs with the dragged rope is counted by the preview |
| Helices.DirectionOrRight | Assets/Application/Scripts/Rendering/HelixGenerator.cs:39-44 | A direction with squared magnitude < 0.001 is replaced by Vector3.right and any other is kept. The result is never that short |
| Helices.HelixRadius | Assets/Application/Scripts/Rendering/HelixGenerator.cs:16-60 | The helix radius is tubeRadius + 0.15, strictly above the tube radius |
| Helices.HelixPathLength | Assets/Application/Scripts/Rendering/HelixGenerator.cs:65-89 | The helix has samples + 1 points, or none for negative samples |
| Helices.DefaultHelixHas21Points | Assets/Application/Scripts/Rendering/HelixGenerator.cs:15-35 | With the default 20 samples, the helix has 21 points |
| Helices.GenerateHelixPath | Assets/Application/Scripts/Rendering/HelixGenerator.cs:29-92 | For samples ≠ 0, the loop builds the helix function point by point, with samples + 1 points (samples = 0: see Left out) |
| Helices.GenerateArchPath | Assets/Application/Scripts/Rendering/HelixGenerator.cs:98-131 | For samples ≠ 0, the loop builds the arch function point by point, with samples + 1 points (samples = 0: see Left out) |
| Helices.ProgressOffsetRange | Assets/Application/Scripts/Rendering/HelixGenerator.cs:113-128 | The along-direction offset runs from -length/2 at the first sample to +length/2 at the last, without decreasing |
| Helices.ProgressOffsetMonotone | Assets/Application/Scripts/Rendering/HelixGenerator.cs:118 | (t - 0.5) · length does not decrease in t for length ≥ 0 |
| Helices.SampleParamMonotone | Assets/Application/Scripts/Rendering/HelixGenerator.cs:115 | i / samples does not decrease in i |
| Helices.ValidateParameters | Assets/Application/Scripts/Rendering/HelixGenerator.cs:136-145 | Each parameter is clamped: height ≤ 0 becomes 0.8, wrapCount < 1 becomes 1, samples into [5, 100]. Values already valid are left alone |
| GameManagement.RecalcEvents | Assets/Application/Scripts/Core/GameManager.cs:143-158 | Paths-updated comes first. Count-changed fires iff the count differs, and carries the new count. Level-cleared fires iff the count is 0, and comes last |
| GameManagement.RepeatedRecomputeIsQuiet | Assets/Application/Scripts/Core/GameManager.cs:133-158 | A recompute that finds the previous count never fires count-changed, but still fires level-cleared at 0 |
| GameManagement.AgreedIdsDistinct | Assets/Application/Scripts/Core/GameManager.cs:106-115 | When occupancy agrees, no two listed pins share an id |
| GameManagement.SnapOccupants | Assets/Application/Scripts/Core/GameManager.cs:106-113 | The target slot holds the pin. Every other slot keeps its occupant, except the pin's previous slot, which is released |
| GameManagement.SnapPreservesAgreement | Assets/Application/Scripts/Core/GameManager.cs:106-115 | Moving a listed pin into an empty slot keeps slot occupants and pin slot indices in two-way agreement |
| GameManagement.AgreeIgnoresPositions | Assets/Application/Scripts/Core/DragController.cs:252-260 | Moving pins without changing their ids or slot indices, as the rollback's sync does, keeps slot occupants and pin slot indices in agreement |
| GameManagement.FindPinById | Assets/Application/Scripts/Core/GameManager.cs:173-176 | null iff no pin has the id, otherwise a listed pin with the id |
| GameManagement.NearestAmong | Assets/Application/Scripts/Core/GameManager.cs:189-207 | The running minimum is -1 or an empty slot within maxDistance |
| GameManagement.NearestAmongIsNearest | Assets/Application/Scripts/Core/GameManager.cs:189-207 | -1 iff there is no candidate. Otherwise a candidate of minimal distance, strictly closer than every earlier candidate, so ties keep list order |
| GameManagement.InitializeAll | Assets/Application/Scripts/Core/GameManager.cs:76-79 | Every rope's path is its base path over the pins |
| GameManagement.ApplyHelixToAll | Assets/Application/Scripts/Core/GameManager.cs:138-141 | Every rope's path is its weave over the same crossing list |
| GameManagement.GameManager.constructor | Assets/Application/Scripts/Core/GameManager.cs:24-27 | All four lists start empty |
| GameManagement.GameManager.SetLevelData | Assets/Application/Scripts/Core/GameManager.cs:69-85 | Installs the three lists, computes the all-pairs crossings and weaves every rope. It raises the recompute's notifications |
| GameManagement.GameManager.RecalculateIntersections | Assets/Application/Scripts/Core/GameManager.cs:131-159 | Replaces the crossings wholesale with the all-pairs result and weaves every rope over it. It raises RecalcEvents(old count, new count) and keeps occupancy agreement as it was |
| GameManagement.GameManager.GetSlotByIndex | Assets/Application/Scripts/Core/GameManager.cs:164-168 | null iff the index is outside [0, Count), otherwise slots[index] |
| GameManagement.GameManager.GetPinById | Assets/Application/Scripts/Core/GameManager.cs:173-176 | null iff no pin has the id, otherwise a listed pin with the id |
| GameManagement.GameManager.GetRopeById | Assets/Application/Scripts/Core/GameManager.cs:181-184 | null iff no rope has the id, otherwise a listed rope with the id |
| GameManagement.GameManager.FindNearestEmptySlot | Assets/Application/Scripts/Core/GameManager.cs:189-207 | Returns the slot NearestAmong picks, or null (see NearestAmongIsNearest) |
| GameManagement.GameManager.SnapPinToSlot | Assets/Application/Scripts/Core/GameManager.cs:90-126 | False with nothing changed for a null pin, a null slot or an occupied slot. Otherwise the pin moves (see MovePin), crossings and paths are recomputed, and the recompute's notifications are followed by pin-snapped. Occupancy agreement is kept |
| GameManagement.GameManager.MovePin | Assets/Application/Scripts/Core/GameManager.cs:106-115 | Releases the slot at the pin's old index and occupies the target. The pin takes the target's list index and position. Agreement is kept for a listed pin and an empty target |
| GameManagement.GameManager.MoveOccupant | Assets/Application/Scripts/Core/GameManager.cs:106-113 | The slot occupants after release and occupy are SnapOccupants of the old ones |
| GameManagement.GameManager.PlacePin | Assets/Application/Scripts/Core/GameManager.cs:114-115 | The pin takes the target's list index and position; every other pin is unchanged |
| Dragging.HighlightEvents | Assets/Application/Scripts/Core/DragController.cs:151-160 | Nothing iff the nearest slot is the previous target. Otherwise a clear, followed by a request for the new slot when there is one |
| Dragging.PathWithPin | Assets/Application/Scripts/Data/Models/RopeData.cs:74-81 | Only the pin's path point is moved, when it is in range |
| Dragging.DraggedRopeIsTop | Assets/Application/Scripts/Core/DragController.cs:115-121 | A rope raised to int.MaxValue, above all others, is the top rope of each crossing it takes part in and never the bottom one |
| Dragging.DragController.constructor | Assets/Application/Scripts/Core/DragController.cs:21-39 | Snap radius 1.0. No pin, no Transform and no target; not dragging and not animating |
| Dragging.DragController.StartDrag | Assets/Application/Scripts/Core/DragController.cs:96-125 | A null pin is a no-op. Otherwise the pin is selected, its slot index saved and dragging set. The rope's priority is saved and then set to int.MaxValue, with every other rope unchanged |
| Dragging.DragController.UpdateDrag | Assets/Application/Scripts/Core/DragController.cs:130-164 | A no-op unless dragging with a pin. Otherwise it sets the preview position, retargets the nearest empty slot with edge-triggered highlights, and updates the rope preview. Occupancy and slot indices never change |
| Dragging.DragController.FollowCursor | Assets/Application/Scripts/Core/DragController.cs:135-145 | The Transform (when present) and the pin's preview position follow the cursor; WorldPos.z is kept |
| Dragging.DragController.Retarget | Assets/Application/Scripts/Core/DragController.cs:148-160 | The target becomes the nearest empty slot, and the highlight events are HighlightEvents(old target, new target) |
| Dragging.DragController.EndDrag | Assets/Application/Scripts/Core/DragController.cs:169-224 | A no-op unless dragging with a pin; otherwise dragging always ends. A snap to the nearest empty slot in reach gives the snap outcome. With a Transform the priority is restored and the end reported; without one the drag state is cleaned up (no pin, no Transform, no target), priorities stay and no end is reported. With no slot in reach, the pin rolls back: no recompute, no occupancy change, its slot index and every render path unchanged, occupancy agreement kept |
| Dragging.DragController.SnapToTarget | Assets/Application/Scripts/Core/DragController.cs:181-212 | Succeeds iff the target is empty. The pin is in the slot, the crossings are recomputed with the dragged rope still raised and every render path is rewoven through them. With a Transform the animation starts, the priority is restored and the end is reported; without one, priorities stay and nothing more is reported |
| Dragging.DragController.OnSnapAnimationComplete | Assets/Application/Scripts/Core/DragController.cs:229-233 | Animation over and drag state cleared |
| Dragging.DragController.CleanupDragState | Assets/Application/Scripts/Core/DragController.cs:238-245 | Pin, Transform and target are forgotten |
| Dragging.DragController.RollbackToOriginalSlot | Assets/Application/Scripts/Core/DragController.cs:252-288 | An original index that no longer resolves returns before anything happens, priority included. Otherwise the pin is synced to that slot, the animation starts iff there is a Transform, the priority is restored, and a failed drag end is reported. Occupancy agreement survives, since only positions move |
| Dragging.DragController.RestoreRopePriority | Assets/Application/Scripts/Core/DragController.cs:312-321 | The first rope with the selected pin's rope id gets the saved priority back; every other rope keeps its own |
| Dragging.DragController.UpdateRopePreview | Assets/Application/Scripts/Core/DragController.cs:326-350 | Only the dragged rope's point for the pin moves, to the Transform position, and only when there is a Transform |
| Dragging.DragController.UpdateRopePreviewForRollback | Assets/Application/Scripts/Core/DragController.cs:293-307 | The same single-point path update, during the rollback tween |
| LevelSetup.GridIsCentred | Assets/Application/Scripts/Game/TestLevelSetup.cs:106-117 | Cells mirrored through the grid centre have opposite positions, so the grid is centred on the origin |
| LevelSetup.CreateSlotData | Assets/Application/Scripts/Game/TestLevelSetup.cs:101-124 | Creates rows × cols distinct, empty slots in row-major order. Each id equals the list index, and slot k is at the grid position of row k / cols, column k % cols |
| LevelSetup.FindUnusedSlotIndex | Assets/Application/Scripts/Game/TestLevelSetup.cs:242-252 | Returns the smallest index not yet used, or -1 iff every index is used |
| LevelSetup.SequentialPlacementsAt | Assets/Application/Scripts/Game/TestLevelSetup.cs:177-198 | In the fallback layout, pin k sits in slot k and belongs to rope k / 2 |
| LevelSetup.Layout | Assets/Application/Scripts/Game/TestLevelSetup.cs:139-199 | Every pin gets a slot of the list, and no two pins share a slot |
| LevelSetup.CrossingPlacementsValid | Assets/Application/Scripts/Game/TestLevelSetup.cs:142-168 | The crossing layout uses only existing, distinct slots |
| LevelSetup.PlacementAgrees | Assets/Application/Scripts/Game/TestLevelSetup.cs:157-166 | Placing pins 0.. into distinct empty slots gives two-way occupancy agreement |
| LevelSetup.LayoutAgrees | Assets/Application/Scripts/Game/TestLevelSetup.cs:187-195 | The created pins and their slots agree after placement |
| LevelSetup.AddPin | Assets/Application/Scripts/Game/TestLevelSetup.cs:157-160 | A fresh pin with the given id, slot and rope, on the slot's position; the slot now holds it |
| LevelSetup.AddRopePins | Assets/Application/Scripts/Game/TestLevelSetup.cs:156-166 | Two fresh pins for the rope are appended, and their slots hold them |
| LevelSetup.PlaceCrossingPins | Assets/Application/Scripts/Game/TestLevelSetup.cs:139-168 | The pins follow the crossing layout (rope 0 in slots 0 and 8, rope 1 in slots 6 and 2, each rope only when both slots exist), and the occupants follow |
| LevelSetup.PlaceSequentialPins | Assets/Application/Scripts/Game/TestLevelSetup.cs:170-199 | The pins follow the fallback layout, stopping at ropeCount or when fewer than two slots remain, and the occupants follow |
| LevelSetup.CreatePinData | Assets/Application/Scripts/Game/TestLevelSetup.cs:130-202 | The pins follow Layout, and every created pin's slot records its id |
| LevelSetup.RopeOrderIsKeySet | Assets/Application/Scripts/Game/TestLevelSetup.cs:212-221 | The dictionary's keys are distinct and are exactly the rope ids of the pins |
| LevelSetup.PinsOfRopeMembers | Assets/Application/Scripts/Game/TestLevelSetup.cs:214-221 | A rope's group holds exactly the ids of its pins |
| LevelSetup.GroupPinsByRope | Assets/Application/Scripts/Game/TestLevelSetup.cs:212-221 | The dictionary maps each rope id, in first-seen order, to its pins' ids in list order |
| LevelSetup.CreateRopeData | Assets/Application/Scripts/Game/TestLevelSetup.cs:207-237 | One fresh rope per group, in key order. Each has its group's pin ids, render priority equal to its id, and the base path over the pins |
| LevelSetup.DefaultLayout | Assets/Application/Scripts/Game/TestLevelSetup.cs:139-168 | On the 3 × 3 grid with 2 ropes, pins 0 and 1 (rope 0) are in slots 0 and 8, and pins 2 and 3 (rope 1) in slots 6 and 2 |
| LevelSetup.DefaultCorners | Assets/Application/Scripts/Game/TestLevelSetup.cs:106-117 | The corner slots of the 3 × 3 grid are at (±2, ±2) |
| LevelSetup.DefaultRopesCross | Assets/Application/Scripts/Game/TestLevelSetup.cs:134-146 | The two diagonal ropes cross at the origin, with rope 1 on top |
| LevelSetup.DefaultLevelCrossesOnce | Assets/Application/Scripts/Game/TestLevelSetup.cs:134-146 | The default level has exactly one crossing: ropes 0 and 1 at (0, 0), with rope 1 on top |
| LevelSetup.PlaceLevel | Assets/Application/Scripts/Game/TestLevelSetup.cs:63-64 | The grid of slots (ids equal to indices, row-major positions, pairwise distinct) with the pins of Layout placed in it, and occupants and pin slot indices in two-way agreement |
| LevelSetup.BuildLevel | Assets/Application/Scripts/Game/TestLevelSetup.cs:63-65 | Adds the ropes grouped in first-seen order to the placed level. With the shipped settings, the all-pairs sweep over them finds exactly one crossing: ropes 0 and 1 at (0, 0), with rope 1 on top |
| LevelSetup.SetupTestLevel | Assets/Application/Scripts/Game/TestLevelSetup.cs:57-79 | The manager holds the grid, the pins of Layout and the grouped ropes, with occupancy agreement and the all-pairs crossings. Every rope's render path is woven through those crossings, and the recompute's notifications are raised. The default settings start with exactly one crossing |
| Splines.CatmullRomEndpoints | Assets/Application/Scripts/Rendering/SplineInterpolator.cs:70-84 | The Catmull-Rom point is p1 at t = 0 and p2 at t = 1 |
| Splines.NeighbourBefore | Assets/Application/Scripts/Rendering/SplineInterpolator.cs:42-43 | The clamped index before segment i lies in [0, i] |
| Splines.NeighbourAfter | Assets/Application/Scripts/Rendering/SplineInterpolator.cs:44-45 | The clamped index after segment i lies in [i+1, n-1] |
| Splines.InterpolateCatmullRom | Assets/Application/Scripts/Rendering/SplineInterpolator.cs:19-59 | Returns the Catmull-Rom curve: empty for fewer than 2 points, the two points themselves for 2 |
| Splines.SamplesLength | Assets/Application/Scripts/Rendering/SplineInterpolator.cs:39-56 | The first s segments give s · max(k, 0) samples |
| Splines.SamplesAt | Assets/Application/Scripts/Rendering/SplineInterpolator.cs:48-51 | Sample j of segment i sits at position i · k + j |
| Splines.CurveShape | Assets/Application/Scripts/Rendering/SplineInterpolator.cs:39-56 | For n ≥ 3 control points the curve has (n-1) · max(k, 0) + 1 points and ends with the last control point |
| Splines.SegmentStartsAtControlPoint | Assets/Application/Scripts/Rendering/SplineInterpolator.cs:48-51 | The first sample of segment i is control point i |
| Splines.CurvePassesThroughControlPoints | Assets/Application/Scripts/Rendering/SplineInterpolator.cs:48-51 | For k ≥ 1, result[i · k] is control point i |
| Splines.CalculatePathLength | Assets/Application/Scripts/Rendering/SplineInterpolator.cs:89-99 | 0 for fewer than 2 points, otherwise the sum of consecutive distances. It is non-negative when the square root is |
| Vectors.PolylineLengthNonNegative | Assets/Application/Scripts/Rendering/SplineInterpolator.cs:89-99 | A sum of non-negative square roots is non-negative |
| TubeMesh.ForwardVector | Assets/Application/Scripts/Rendering/TubeMeshGenerator.cs:127-156 | The forward vector always has squared magnitude ≥ 0.001, because Vector3.forward replaces a short one |
| TubeMesh.RingVertices | Assets/Application/Scripts/Rendering/TubeMeshGenerator.cs:54-60 | One ring has max(RadialSegments, 0) vertices |
| TubeMesh.RingNormals | Assets/Application/Scripts/Rendering/TubeMeshGenerator.cs:67-68 | One ring has as many normals as vertices |
| TubeMesh.RingUVs | Assets/Application/Scripts/Rendering/TubeMeshGenerator.cs:62-65 | One ring has as many UVs as vertices |
| TubeMesh.RingAt | Assets/Application/Scripts/Rendering/TubeMeshGenerator.cs:54-68 | Entry j of a ring is path[i] + the offset at angle 2πj/R, with UV (j/R, v) and the normalised offset as normal |
| TubeMesh.TubeStep | Assets/Application/Scripts/Rendering/TubeMeshGenerator.cs:46-69 | Each outer round appends one ring to each buffer |
| TubeMesh.BufferSizes | Assets/Application/Scripts/Rendering/TubeMeshGenerator.cs:46-69 | After count rings there are count · max(R, 0) vertices, UVs and normals |
| TubeMesh.Quad | Assets/Application/Scripts/Rendering/TubeMeshGenerator.cs:184-196 | One quad is six indices |
| TubeMesh.RowQuads | Assets/Application/Scripts/Rendering/TubeMeshGenerator.cs:182-197 | count quads are 6 · count indices |
| TubeMesh.QuadSpansAdjacentRings | Assets/Application/Scripts/Rendering/TubeMeshGenerator.cs:184-196 | Quad (i, j) uses ring i at positions 0, 2 and 3 and ring i+1 at positions 1, 4 and 5, wrapping j + 1 to 0 |
| TubeMesh.TriangleCount | Assets/Application/Scripts/Rendering/TubeMeshGenerator.cs:178-199 | There are 6 · rows · max(R, 0) indices |
| TubeMesh.RowQuadsInRings | Assets/Application/Scripts/Rendering/TubeMeshGenerator.cs:182-197 | Every index of row i lies in ring i or ring i+1 |
| TubeMesh.TrianglesInRange | Assets/Application/Scripts/Rendering/TubeMeshGenerator.cs:178-199 | For R ≥ 1, every index lies in [0, (rows + 1) · R) |
| TubeMesh.TriangleQuadAt | Assets/Application/Scripts/Rendering/TubeMeshGenerator.cs:180-197 | Indices 6(iR + j) .. 6(iR + j) + 5 are quad (i, j) |
| TubeMesh.MeshIndicesValid | Assets/Application/Scripts/Rendering/TubeMeshGenerator.cs:178-199 | Every triangle index of a path's mesh is a valid vertex index |
| TubeMesh.TubeMeshGenerator.constructor | Assets/Application/Scripts/Rendering/TubeMeshGenerator.cs:13-21 | Radius 0.1, 8 radial segments, UV scale 1 and empty caches |
| TubeMesh.TubeMeshGenerator.GenerateMesh | Assets/Application/Scripts/Rendering/TubeMeshGenerator.cs:28-93 | null with untouched caches for fewer than 2 points. Otherwise a fresh mesh whose buffers are the ring and index specifications, equal to the caches |
| TubeMesh.TubeMeshGenerator.AppendRing | Assets/Application/Scripts/Rendering/TubeMeshGenerator.cs:54-69 | The inner loop appends exactly ring i to each cache |
| TubeMesh.TubeMeshGenerator.GenerateMeshWithCaps | Assets/Application/Scripts/Rendering/TubeMeshGenerator.cs:98-107 | The same mesh as GenerateMesh; no caps are added |
| TubeMesh.TubeMeshGenerator.CalculateTotalLength | Assets/Application/Scripts/Rendering/TubeMeshGenerator.cs:114-122 | max(polyline length, 0.001), hence at least 0.001 |
| TubeMesh.TubeMeshGenerator.GenerateTriangles | Assets/Application/Scripts/Rendering/TubeMeshGenerator.cs:178-199 | Appends TriangleIndices(R, pathCount - 1) to the triangle cache |
| TubeMesh.TubeMeshGenerator.AppendQuad | Assets/Application/Scripts/Rendering/TubeMeshGenerator.cs:184-196 | Appends exactly quad (i, j) |
| TubeMesh.TubeMeshGenerator.UpdateMesh | Assets/Application/Scripts/Rendering/TubeMeshGenerator.cs:205-252 | No change without a mesh or with fewer than 2 points. A full rebuild when the vertex count differs from Count · R. Otherwise only the vertices are rebuilt, and triangles, UVs and normals stay |
| Verlet.LerpEnds | Assets/Application/Scripts/Physics/VerletRopeSimulator.cs:53-54 | Lerp is at the start for t = 0 and at the end for t = 1 |
| Verlet.EvenlySpacedEnds | Assets/Application/Scripts/Physics/VerletRopeSimulator.cs:51-57 | The layout starts at startPoint and ends at endPoint |
| Verlet.EvenlySpacedStep | Assets/Application/Scripts/Physics/VerletRopeSimulator.cs:51-57 | Consecutive nodes are one equal step (end - start)/(n - 1) apart |
| Verlet.Pinned | Assets/Application/Scripts/Physics/VerletRopeSimulator.cs:92-93 | Node 0 and node n-1 become the anchors; every other node is unchanged |
| Verlet.SweepKeepsEnds | Assets/Application/Scripts/Physics/VerletRopeSimulator.cs:135-145 | A constraint pass never moves node 0, node n-1 or any node past n-1 |
| Verlet.RelaxedKeepsEnds | Assets/Application/Scripts/Physics/VerletRopeSimulator.cs:106-109 | Any number of passes keeps node 0 and node n-1 |
| Verlet.StepKeepsAnchors | Assets/Application/Scripts/Physics/VerletRopeSimulator.cs:91-113 | After a step the first node is the start anchor and node n-1 the end anchor. The final re-pin changes nothing |
| Verlet.StepClampsDeltaTime | Assets/Application/Scripts/Physics/VerletRopeSimulator.cs:89 | A time step of 0.02 or more is simulated as exactly 0.02 |
| Verlet.VerletRopeSimulator.constructor | Assets/Application/Scripts/Physics/VerletRopeSimulator.cs:13-27 | 10 nodes, damping 0.98, gravity -2, 3 iterations and maximum length 5; not initialised |
| Verlet.VerletRopeSimulator.Initialize | Assets/Application/Scripts/Physics/VerletRopeSimulator.cs:32-60 | NodeCount is clamped to at least 2, and two fresh arrays of that length are allocated. The nodes are evenly spaced from start to end, previous equals current, the segment length is distance/(n-1), and the rope is initialised |
| Verlet.VerletRopeSimulator.SetAnchorPositions | Assets/Application/Scripts/Physics/VerletRopeSimulator.cs:65-76 | Both anchors are stored. The segment length changes only if they are more than 0.001 apart and NodeCount > 1 |
| Verlet.VerletRopeSimulator.Simulate | Assets/Application/Scripts/Physics/VerletRopeSimulator.cs:81-114 | A no-op when uninitialised or with fewer than 2 nodes. Otherwise positions and previous positions are exactly one Step, with dt = min(deltaTime, 0.02) |
| Verlet.VerletRopeSimulator.Integrate | Assets/Application/Scripts/Physics/VerletRopeSimulator.cs:98-103 | Inner nodes 1 .. n-2 take the damped Verlet move and remember their old position; the end nodes are untouched |
| Verlet.VerletRopeSimulator.ApplyDistanceConstraints | Assets/Application/Scripts/Physics/VerletRopeSimulator.cs:120-147 | One in-order pass over the pairs (i, i+1), as in Sweep |
| Verlet.VerletRopeSimulator.GetPositions | Assets/Application/Scripts/Physics/VerletRopeSimulator.cs:152-160 | Empty when uninitialised, otherwise a copy of all nodes |
| Verlet.VerletRopeSimulator.Reset | Assets/Application/Scripts/Physics/VerletRopeSimulator.cs:170-175 | Not initialised and no arrays, so GetPositions is empty |

## Left out

**Arithmetic and standard library**

- Floating point: floats are exact reals. Two consequences:
  - the 1e-6 and 0.001 tolerances are compared exactly;
  - `LinesMeet` and `CatmullRomEndpoints` hold over the reals, not over single-precision floats.
- Square roots and trigonometry: `Mathf.Sqrt`, `Sin`, `Cos` and `Vector3.normalized` are parameters of type `MathOracle`, about which nothing is assumed.
  - So no lemma states that a normalised vector has length 1.
  - No lemma states that the helix lies on its circle.
  - `float.MaxValue` sentinels in running-minimum loops are modelled as "no candidate yet".
- Null lists are modelled as empty sequences.
- `Dictionary` enumeration order in `CreateRopeData` is modelled as key insertion order (`RopeOrder`), which is the order .NET yields for a dictionary that only receives insertions.

**Game objects and rendering**

- Unity scene objects are not modelled: GameObjects, prefabs, colours, materials, `ClearLevel`, and the `Create*Objects` methods of the test level.
- Unity lifecycle methods are not modelled: `Awake`/`OnDestroy` singleton bookkeeping, `Start`, and `OnValidate`.
- `Mesh.name` and `RecalculateBounds` are not modelled, and the renderer cache in `DragController` is not modelled.
- DOTween animations are not modelled.
  - The tween's completion is the explicit call `OnSnapAnimationComplete`.
  - The rollback tween's `OnUpdate` is the method `UpdateRopePreviewForRollback`.
  - Transform scaling is not modelled.
- The pin's Transform is an optional position passed to `StartDrag`, because `GameObject.Find` cannot be modelled.
- The branches where `GameManager.Instance` is null are not modelled: the drag controller holds a non-null reference to the manager.

**Notifications**

- Events are ghost traces returned by the methods that raise them. Subscribers and their side effects are not modelled.

**Helper methods that have no counterpart in the source**

- Some methods split a source method into parts, so that each part verifies within the solver's limits:
  - `FollowCursor` and `Retarget` are parts of `UpdateDrag`;
  - `SnapToTarget` is part of `EndDrag`, and `SnapThroughManager` is its call into the `GameManager`;
  - `MovePin`, `MoveOccupant` and `PlacePin` are parts of `SnapPinToSlot`;
  - `PlaceCrossingPins`, `PlaceSequentialPins`, `AddRopePins` and `AddPin` are parts of `CreatePinData`;
  - `GroupPinsByRope` is part of `CreateRopeData`;
  - `PlaceLevel` and `BuildLevel` are the data-building half of `SetupTestLevel`;
  - `AppendRing` is part of `GenerateMesh`, and `AppendQuad` of `GenerateTriangles`;
  - `Integrate` is part of `Simulate`.
- The loops in `InitializeAll`, `ApplyHelixToAll` and `CountCrossings` are the `foreach` loops of their callers.

**Operations and files not modelled**

- `SplineInterpolator.ResamplePath` is left out: nothing in the core calls it, and it changes its input list in place.
- The end caps of `GenerateMeshWithCaps` are left out, because the source has none.
- Not part of this model: `InputManager.cs`, `PinController.cs`, `RopeRenderer.cs`, `PrototypeDebug.cs` and `PrefabGenerator.cs`. They hold input handling, scene glue, logging and editor tooling.
- `MaxRopeLength` is stored but has no effect. The source never reads it after construction.

**Contracts weaker than the source, or narrower**

- Helices.SampleParam: with samples = 0 the source divides 0 by 0.0f, which is NaN. The model uses t = 0 there, because reals have no NaN.
- Helices.GenerateHelixPath: with samples = 0 the source's single point is NaN (`HelixGenerator.cs:65-89`). The model returns the real point at t = 0.
- Helices.GenerateArchPath: with samples = 0 the source's single point is NaN (`HelixGenerator.cs:113-128`). The model returns the real point at t = 0.
- Verlet.VerletRopeSimulator.Simulate: requires NodeCount to be between 1 and the length of the node arrays whenever a step would run. The source indexes past the arrays, and throws, if NodeCount has been raised since `Initialize`.
- Verlet.VerletRopeSimulator.Simulate: no convergence or length-preservation property of the constraint passes is proved. Those would need facts about the square root that the model does not assume.
- TubeMesh.RingUVs: the UVs and normals are specified, but nothing about their values is proved beyond their number and their agreement with the loop.
- IntersectionCalculator.CrossedBy: the function's own contract bounds only the length. Membership is stated in CrossedByMembers.

**Behaviour of the code worth knowing**

- A rollback recomputes no crossings and does not rebuild the rope's render path from the restored pin position. Only the rollback tween's `OnUpdate` moves the pin's point of the path (`DragController.cs:252-307`; `RollbackToOriginalSlot`, `UpdateRopePreviewForRollback`).
- A successful snap without a Transform goes straight to `CleanupDragState`. It neither restores the rope's render priority nor raises `OnDragEnded` (`DragController.cs:181-212`; `EndDrag`, `SnapToTarget`).
- `UpdatePinPositionInPath` writes the render-path index equal to the pin's position in PinIds (`RopeData.cs:74-81`). Once a rope is woven, the end pin of a two-pin rope writes index 1, a point of the first detour, and the path's last point stays where it was (`EndPinUpdateAfterWeave`).
