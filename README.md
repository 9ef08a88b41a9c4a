# Bowling scorer and hull-walking tag-cloud layouter, in Dafny

This project models two small C# exercises and proves properties of the models.

**The bowling scorer** (`BowlingGame/Game.cs`). `Game` is a state machine over these fields:
- `score`;
- a two-slot bonus queue `nextCountBonus`;
- `previousPins`;
- `isFirstInFrame`;
- `frameCount`.

`Roll(pins)` first calls `validate`, which throws `ArgumentException` for pins outside [0, 10] and `ValidationException` when two rolls of a frame other than the tenth add up to more than 10. Only then does it update the fields. `GetScore` reads the score.

The model has two parts:
- **The specification.** `Validate`, `Advance` and `Step` describe one roll, and `PlayFrom` / `ScoreOf` describe a sequence of rolls. The lemmas about them cover the score increase, the bonus queue, the frame counter and the bounds every reachable state keeps. Every scoring test with an expected result (Game.cs:79-87) and the three exception tests (Game.cs:98-115) are proved. The test at Game.cs:118-125 disagrees with the code (see below).
- **The object.** `class Game` keeps the bonus queue in an `array<int>` of length 2. `Roll` is proved against `Step`, and `ScoreOfRolls` (the test driver) is proved against `ScoreOf`.

**The tag-cloud layouter** (`TagsCloudVisualization/CircularCloudLayouter.cs`). The layouter keeps a "hull": a `LinkedList<PointF>` of the outline of the rectangles placed so far. It is walked as a ring from a current node. The model covers these building blocks:
- corner generation with rotation (`GetVertexes`);
- ring navigation (`GetNextNode` / `GetPreviousNode`);
- the direction, concave-turn and shift tables;
- `FixMiddlePoint`;
- the "behind the radius" test `ShouldToRemove`;
- the pruning loop `RemoveSpareNodes`;
- the bounding box `edges` (`InitEdges`, `RefreshEdges`, `CheckEdgeValue`);
- the first placement of `PutNextRectangle`.

The hull is the sequence of its values, and the current node is a position in it. `class CircularCloudLayouter` holds the hull, the current node, the shift table and the bounds as fields, and its methods update them in place:
- `RemoveSpareNodes` is proved against a specification function `RemoveSpare`. Lemmas show that `RemoveSpare` removes exactly the maximal run of nodes after the current one that lie behind it, keeps the rest in ring order, and throws right after removing the first node of the run that lies farther from the centre.
- `RefreshEdges` is proved against `Widen`. `WidenSmallest` shows that `Widen` gives the smallest box holding the old box and the point.

**The newer layouter's helpers** (`PointExtensions.cs`, `Extensions.cs`, `Cloud.cs`):
- `Shift` and `GetQuarter`;
- the `Quarter` enum;
- `Cloud<T>`, a list of items with a readonly centre.

Modules:

| module | file | source |
|---|---|---|
| `Bowling` | `bowling.dfy` | `BowlingGame/Game.cs` |
| `Drawing` | `drawing.dfy` | the `System.Drawing` value types `Point`, `PointF`, `Size` and `Rectangle` |
| `RectangleExtensions` | `rectangle_extensions.dfy` | `GetVertexes` |
| `LinkedListExtensions` | `linked_list_extensions.dfy` | ring navigation |
| `Edges` | `edges.dfy` | the `edges` bounding box |
| `Layouter` | `layouter.dfy` | the layouter's tables, pruning and first placement, and `class CircularCloudLayouter` |
| `Extensions` | `extensions.dfy` | `Extensions.cs` |
| `PointExtensions` | `point_extensions.dfy` | `PointExtensions.cs` |
| `Clouds` | `cloud.dfy` | `Cloud.cs` |

Modelling choices:
- **`PointF` coordinates are `real`.** Every coordinate the layouter computes is an integer or a half-integer.
- **Tolerance comparisons are exact.** The `Tolerance` comparisons (`Math.Abs(d) < 1e-6`) are modelled as exact equality.
- **Squared distances.** `GetDistance` (a square root) is replaced by the squared distance, which orders points the same way.
- **C# exceptions are values.** Each becomes an error value: `Outcome.Fail`, or `Result.Err` with a `RollError` or `LayoutError` saying which exception it is.

Where the code and its own tests disagree, the model follows the code:
- **`validate` (Game.cs:51).** Its frame-sum check is skipped exactly when `frameCount == 10`. It therefore also applies to rolls after the tenth frame.
- **The test at Game.cs:118-125.** It expects a `ValidationException` for a roll after an open tenth frame, but the code accepts that roll and opens an eleventh frame. `Bowling.RollAfterLastFrameAccepted` states what the code does.

## Model

| member | source | states |
|---|---|---|
| Bowling.Validate | BowlingGame/Game.cs:48-55 | pins outside [0, 10] give ArgumentException, and only they do. Otherwise, a second roll of a frame other than frame 10 whose sum with the previous roll exceeds 10 gives ValidationException carrying that sum, and only it does. Every other roll passes |
| Bowling.Game.CheckRoll | BowlingGame/Game.cs:48-55 | `validate` as a method reading the fields: its outcome is `Validate` of the current state |
| Bowling.Game.constructor | BowlingGame/Game.cs:17-21 | a new game has a fresh two-slot bonus array, zero score, bonuses, pins and frames, and the next roll first in its frame |
| Bowling.Game.Roll | BowlingGame/Game.cs:23-46 | a rejected roll reports validate's exception and leaves every field unchanged. An accepted roll updates the state to `Advance`. The bonus bounds are preserved, and the result is `Step` of the old state |
| Bowling.Game.GetScore | BowlingGame/Game.cs:57-60 | returns the score, which is never negative |
| Bowling.RollScore | BowlingGame/Game.cs:27-28 | an accepted roll raises the score by exactly pins × (1 + bonus owed to this roll), so the score never decreases |
| Bowling.RollBonusQueue | BowlingGame/Game.cs:29-40 | the bonus queue shifts one slot. A spare before frame 10 adds one count to the next roll. A strike before frame 10 adds one to each of the next two rolls |
| Bowling.RollFrames | BowlingGame/Game.cs:26-45 | the frame count grows exactly on rolls made first in a frame. A strike or spare before frame 10 leaves the next roll first in its frame; otherwise the flag toggles. `previousPins` becomes the roll |
| Bowling.RollKeepsReachable | BowlingGame/Game.cs:29-40 | every accepted roll keeps 0 ≤ nextCountBonus[0] ≤ 2, 0 ≤ nextCountBonus[1] ≤ 1, pins in [0, 10], and a non-negative score and frame count |
| Bowling.PlayKeepsReachable | BowlingGame/Game.cs:23-46 | any sequence of accepted rolls keeps those bounds and never lowers the score |
| Bowling.Advance | BowlingGame/Game.cs:26-45 | the field updates of an accepted roll. Its partners `RollScore`, `RollBonusQueue` and `RollFrames` state the score increase, the bonus-queue shift and the frame bookkeeping |
| Bowling.Step | BowlingGame/Game.cs:23-46 | one call of `Roll`: validate's exception, or `Advance` of the state. `Game.Roll` is proved to return exactly this, and `RollKeepsReachable` shows an accepted step keeps the state's bounds |
| Bowling.PlayFrom | BowlingGame/Game.cs:89-96 | the rolls in order, stopping at the first exception. `PlayConcat` shows feeding them in two pieces gives the same result, `RejectedRollStops` that the first exception ends the game, and `PlayKeepsReachable` that the bounds hold and the score never falls |
| Bowling.ScoreOf | BowlingGame/Game.cs:89-96 | the score after the rolls, or the first exception. `ScoreOfRolls` computes it with a real `Game`, and `ScoreNeverNegative` shows the score is never negative |
| Bowling.ScoreNeverNegative | BowlingGame/Game.cs:89-96 | every score a game reports is at least 0 |
| Bowling.PlayConcat | BowlingGame/Game.cs:92-93 | feeding rolls in two pieces is feeding them all at once |
| Bowling.RejectedRollStops | BowlingGame/Game.cs:92-93 | once a roll is rejected, no later roll is scored: the whole game ends with that roll's exception |
| Bowling.OpenFrame | BowlingGame/Game.cs:26-45 | an open frame before the tenth adds each roll times its owed bonus, and afterwards no bonus is owed |
| Bowling.SpareFrame | BowlingGame/Game.cs:31-35 | a spare before the tenth frame leaves one bonus count owed to the next roll |
| Bowling.StrikeFrame | BowlingGame/Game.cs:36-40 | a strike before the tenth frame adds one owed count to each of the next two rolls and keeps the next roll first in its frame |
| Bowling.TenthFrame | BowlingGame/Game.cs:31-44 | in the tenth frame, three rolls in [0, 10] are accepted whatever their sum. They earn no new bonus, and the third counts once |
| Bowling.TenthFrameSumUnchecked | BowlingGame/Game.cs:51-54 | in frame 10 a second roll in [0, 10] is never rejected for the frame sum |
| Bowling.RollAfterLastFrameAccepted | BowlingGame/Game.cs:48-55 | after a completed frame 10 (or later), a roll in [0, 10] is accepted and opens frame 11 (or later), scored as usual |
| Bowling.ScoreOfRolls | BowlingGame/Game.cs:89-96 | the test driver: a new `Game`, every roll in order, then `GetScore`. It returns `ScoreOf(rolls)`, or the first exception, and the score is never negative |
| Bowling.NewGameScoresZero | BowlingGame/Game.cs:79 | no rolls score 0 |
| Bowling.FirstRollScenario | BowlingGame/Game.cs:80 | 5 scores 5 |
| Bowling.OpenFrameScenario | BowlingGame/Game.cs:81 | 5, 1 scores 6 |
| Bowling.SpareScenario | BowlingGame/Game.cs:82 | 6, 4, 4, 4 scores 22 |
| Bowling.StrikeScenario | BowlingGame/Game.cs:83 | 10, 6, 4 scores 30 |
| Bowling.SeveralFramesScenario | BowlingGame/Game.cs:84 | 4, 4, 4, 4, 10, 4, 4 scores 42 |
| Bowling.ThreeStrikesScenario | BowlingGame/Game.cs:85 | 10, 10, 10 scores 60 |
| Bowling.SampleGameScenario | BowlingGame/Game.cs:86 | the 19-roll sample game scores 133 |
| Bowling.PerfectGameScenario | BowlingGame/Game.cs:87 | twelve strikes score 300 |
| Bowling.OutOfRangeScenario | BowlingGame/Game.cs:98-102 | a roll of 11 raises ArgumentException |
| Bowling.NegativePinsScenario | BowlingGame/Game.cs:104-108 | a roll of -1 raises ArgumentException |
| Bowling.OverflowScenario | BowlingGame/Game.cs:110-115 | 9 then 2 raises ValidationException with the sum 11 |
| RectangleExtensions.GetVertexes | TagsCloudVisualization/CircularCloudLayouter.cs:15-30 | a fresh array whose i-th element is corner (i + shift) % 4. The corners are lower-left, upper-left, upper-right and lower-right, at half a width and half a height from (X, Y) |
| RectangleExtensions.RotateIsPermutation | TagsCloudVisualization/CircularCloudLayouter.cs:26-28 | the result is the corner list cut at shift % 4 with its halves swapped, so it lists every corner exactly once (same multiset) |
| RectangleExtensions.RotateReduce | TagsCloudVisualization/CircularCloudLayouter.cs:27-28 | only shift % 4 matters: the callers pass 0 to 3, and a larger shift, which the signature allows, lists the corners as its remainder does |
| RectangleExtensions.RotateZero | TagsCloudVisualization/CircularCloudLayouter.cs:27-28 | shift 0 lists the corners in their own order |
| RectangleExtensions.Corners | TagsCloudVisualization/CircularCloudLayouter.cs:17-25 | the four corners before rotation: lower-left, upper-left, upper-right and lower-right. `CornersAroundCentre` shows they span width × height around (X, Y) |
| RectangleExtensions.CornersAroundCentre | TagsCloudVisualization/CircularCloudLayouter.cs:17-25 | the corners span exactly width × height, pair up on vertical and horizontal sides, and average to (X, Y) |
| RectangleExtensions.GetVertexesExample | TagsCloudVisualization/CircularCloudLayouter.cs:36-53 | Rectangle(1, 1, 2, 2) has corners (0,0), (0,2), (2,2), (2,0), and position i holds corner (i + shift) % 4 |
| LinkedListExtensions.GetNextNode | TagsCloudVisualization/CircularCloudLayouter.cs:58-65 | the next node: after the last node comes the first, a null node also gives the first, and the result is null only on an empty list |
| LinkedListExtensions.GetPreviousNode | TagsCloudVisualization/CircularCloudLayouter.cs:67-74 | the previous node: before the first comes the last, a null node also gives the last, and the result is null only on an empty list |
| LinkedListExtensions.NextPreviousInverse | TagsCloudVisualization/CircularCloudLayouter.cs:58-74 | stepping back undoes stepping forward and vice versa |
| LinkedListExtensions.NextNAdd | TagsCloudVisualization/CircularCloudLayouter.cs:58-65 | a + b steps are a steps followed by b steps |
| LinkedListExtensions.NextNForward | TagsCloudVisualization/CircularCloudLayouter.cs:58-65 | before the end of the list, k steps move k places forward |
| LinkedListExtensions.WalkRing | TagsCloudVisualization/CircularCloudLayouter.cs:58-65 | \|list\| steps from any node return to it |
| LinkedListExtensions.RingReachesAll | TagsCloudVisualization/CircularCloudLayouter.cs:58-65 | every node reaches every other in fewer than \|list\| steps |
| LinkedListExtensions.NavigationExamples | TagsCloudVisualization/CircularCloudLayouter.cs:90-114 | on one node, next-of-last is first and previous-of-first is last. On an empty list, null stays null both ways |
| Edges.InitEdges | TagsCloudVisualization/CircularCloudLayouter.cs:224-233 | all four bounds are present, and the box they describe holds the centre and nothing else |
| Edges.Widen | TagsCloudVisualization/CircularCloudLayouter.cs:430-440 | the new box keeps the same four keys, holds the point and still holds every point of the old box: it only widens |
| Edges.WidenSmallest | TagsCloudVisualization/CircularCloudLayouter.cs:430-440 | for a non-empty old box, every box holding the old box and the point also holds the widened box, so `Widen` is the smallest such box |
| Edges.WidenInsideUnchanged | TagsCloudVisualization/CircularCloudLayouter.cs:430-440 | refreshing with a point already inside changes nothing, so refreshing twice is refreshing once |
| Edges.WidenCommutes | TagsCloudVisualization/CircularCloudLayouter.cs:430-440 | the order of two refreshes does not matter |
| Edges.Envelope | TagsCloudVisualization/CircularCloudLayouter.cs:180-184 | refreshing with each point in turn gives a box holding every point and the old box |
| Edges.CheckEdgeValue | TagsCloudVisualization/CircularCloudLayouter.cs:442-448 | a point on one of the four bound lines is not strictly inside the box. Its partner `WidenedPointOnEdge` shows that a point which widened the box lies on its edge |
| Edges.WidenedPointOnEdge | TagsCloudVisualization/CircularCloudLayouter.cs:442-448 | a point that widened the box lies on its edge (`CheckEdgeValue` holds). For a point already inside, `CheckEdgeValue` is unchanged by the refresh |
| Edges.FirstPlacementEdges | TagsCloudVisualization/CircularCloudLayouter.cs:177-187 | after the first rectangle, the bounds are centre ± width/2 and centre ± height/2 |
| Edges.FirstPlacementExamples | TagsCloudVisualization/CircularCloudLayouter.cs:691-703 | a 4 × 4 first rectangle at the origin leaves the bounds at ±2 |
| Layouter.GetDirection | TagsCloudVisualization/CircularCloudLayouter.cs:240-249 | equal x: Up iff dy > 0, else Down. Otherwise, equal y: Right iff dx > 0, else Left. Both coordinates differ: InvalidDataException, and only then |
| Layouter.DirectionReversed | TagsCloudVisualization/CircularCloudLayouter.cs:240-249 | the reverse of a step of non-zero length has the opposite direction |
| Layouter.DirectionExamples | TagsCloudVisualization/CircularCloudLayouter.cs:528-543 | unit steps give Up, Right, Down and Left, and (0,0)→(1,1) throws |
| Layouter.SquaredDistance | TagsCloudVisualization/CircularCloudLayouter.cs:235-238 | `GetDistance` squared: never negative, and zero from a point to itself. `FixMiddlePoint` and `FirstFarther` compare these squares |
| Layouter.FixMiddlePoint | TagsCloudVisualization/CircularCloudLayouter.cs:251-256 | the result is one of the corners (a.x, c.y) or (c.x, a.y), the nearer one to b, with a tie going to (c.x, a.y) |
| Layouter.FixMiddlePointAxisAligned | TagsCloudVisualization/CircularCloudLayouter.cs:251-256 | both steps a → fixed point → c are axis-parallel |
| Layouter.FixMiddlePointExamples | TagsCloudVisualization/CircularCloudLayouter.cs:545-556 | the three test corners |
| Layouter.IsConcaveAngle | TagsCloudVisualization/CircularCloudLayouter.cs:258-264 | holds exactly for (Down,Right), (Left,Down), (Up,Left) and (Right,Up), i.e. when the incoming direction is a clockwise quarter turn from the outgoing one |
| Layouter.ConcaveAngleExamples | TagsCloudVisualization/CircularCloudLayouter.cs:558-563 | Down→Right is concave, Right→Down is not |
| Layouter.IsConcaveCorner | TagsCloudVisualization/CircularCloudLayouter.cs:266-271 | defined exactly when both steps have a direction, and then it is `IsConcaveAngle` of the two directions. Otherwise it is GetDirection's InvalidDataException |
| Layouter.ConcaveIsLeftTurn | TagsCloudVisualization/CircularCloudLayouter.cs:258-271 | for steps of non-zero length, a concave corner is exactly a left turn (positive cross product) |
| Layouter.GetShift | TagsCloudVisualization/CircularCloudLayouter.cs:273-278 | the table's entry when the key is present, and KeyNotFoundException exactly when it is missing |
| Layouter.ShiftCountsQuarterTurns | TagsCloudVisualization/CircularCloudLayouter.cs:213-222 | with the table `InitShifts` builds, GetShift is total and below 4, injective, and a clockwise turn adds one modulo 4 |
| Layouter.ShiftExamples | TagsCloudVisualization/CircularCloudLayouter.cs:565-572 | Right, Down, Left, Up map to 0, 1, 2, 3 |
| Layouter.ShouldToRemove | TagsCloudVisualization/CircularCloudLayouter.cs:323-331 | holds iff (p.y − c.y)(q.x − p.x) − (p.x − c.x)(q.y − p.y) < 0 |
| Layouter.BehindIsLeftTurn | TagsCloudVisualization/CircularCloudLayouter.cs:323-331 | the point to remove is behind exactly when centre → point → point to remove turns left (positive cross product, the `Turn` of `ConcaveIsLeftTurn`): it lies on the counter-clockwise side of the ray through the point |
| Layouter.NotBehindItself | TagsCloudVisualization/CircularCloudLayouter.cs:323-331 | a point is never behind itself |
| Layouter.ShouldToRemoveExamples | TagsCloudVisualization/CircularCloudLayouter.cs:604-611 | the two test cases |
| Layouter.NextValueInRing | TagsCloudVisualization/CircularCloudLayouter.cs:58-65 | the value after the current node is the second value of the ring read from it, or the current value on a one-node hull |
| Layouter.RemoveNext | TagsCloudVisualization/CircularCloudLayouter.cs:339 | removing the node after the current one leaves a valid cursor on a hull one node shorter |
| Layouter.RemoveNextRing | TagsCloudVisualization/CircularCloudLayouter.cs:339 | read as a ring from the current node, the removal drops exactly the second value and keeps the others in order |
| Layouter.DropSuccessorsRing | TagsCloudVisualization/CircularCloudLayouter.cs:337-343 | after k removals the current node stays, the k nodes after it are gone, and the rest keep their ring order |
| Layouter.DropSuccessorsInside | TagsCloudVisualization/CircularCloudLayouter.cs:337-343 | removals that stay before the list's end cut out the k nodes after the current one, and the current position is unchanged |
| Layouter.RunLength | TagsCloudVisualization/CircularCloudLayouter.cs:337 | the longest prefix of nodes that `ShouldToRemove` accepts |
| Layouter.FirstFarther | TagsCloudVisualization/CircularCloudLayouter.cs:340 | the position of the first node strictly farther from the centre than the current one, or the length when there is none |
| Layouter.RemoveSpare | TagsCloudVisualization/CircularCloudLayouter.cs:333-344 | the pruning leaves a valid cursor on a hull no larger than before |
| Layouter.RemoveSpareRemovesRun | TagsCloudVisualization/CircularCloudLayouter.cs:333-344 | the pruning keeps the current node and removes some m nodes right after it, every one of them behind it, and the rest keep their ring order |
| Layouter.RemoveSparePasses | TagsCloudVisualization/CircularCloudLayouter.cs:337-343 | without an exception, no removed node was farther out, and the removal stopped at the end of the maximal run |
| Layouter.RemoveSpareFails | TagsCloudVisualization/CircularCloudLayouter.cs:339-341 | with an exception (ValidationException), the last removed node is the first one farther from the centre, and it is already removed |
| Layouter.PruningRound | TagsCloudVisualization/CircularCloudLayouter.cs:337-343 | a round whose next node lies behind removes that node, the next successor. It either keeps the loop state or ends in the exception `RemoveSpare` predicts |
| Layouter.PruningEnd | TagsCloudVisualization/CircularCloudLayouter.cs:337 | when the next node is not behind, the pruning ends normally with the hull as it stands |
| Layouter.RemoveSpareExample | TagsCloudVisualization/CircularCloudLayouter.cs:613-631 | of (-4,1), (-3,-1), (-2,0), (-2,1), the two middle nodes go |
| Layouter.RemoveSpareThrowsExample | TagsCloudVisualization/CircularCloudLayouter.cs:633-640 | (-4,1) then (-5,0) throws ValidationException |
| Layouter.FirstRectangleExample | TagsCloudVisualization/CircularCloudLayouter.cs:482-486 | a fresh layouter centred at the origin places a 6 × 6 first rectangle as Rectangle(0, 0, 6, 6), and its hull becomes the corners (-3,-3), (-3,3), (3,3), (3,-3) |
| Layouter.FirstHullIsClockwise | TagsCloudVisualization/CircularCloudLayouter.cs:177-187 | the first hull goes Up, Right, Down, Left with no concave corner |
| Layouter.FirstHullNothingSpare | TagsCloudVisualization/CircularCloudLayouter.cs:333-344 | pruning the first hull from its first node removes nothing |
| Layouter.CircularCloudLayouter.constructor | TagsCloudVisualization/CircularCloudLayouter.cs:167-173 | stores the centre, an empty hull with a null current node, the shift table and the bounds at the centre |
| Layouter.CircularCloudLayouter.RefreshEdges | TagsCloudVisualization/CircularCloudLayouter.cs:430-440 | the bounds become `Widen(old bounds, point)`, and the hull and current node are unchanged |
| Layouter.CircularCloudLayouter.PutNextRectangle | TagsCloudVisualization/CircularCloudLayouter.cs:175-187 | on an empty hull, returns `Rectangle(center, size)`. The hull becomes its `GetVertexes(0)` corners, the current node the first of them, and the bounds the envelope of the corners |
| Layouter.CircularCloudLayouter.RemoveNextNode | TagsCloudVisualization/CircularCloudLayouter.cs:339 | `hull.Remove(hull.GetNextNode(currentNode))` gives the cursor `RemoveNext` describes, and the bounds are unchanged |
| Layouter.CircularCloudLayouter.RemoveSpareNodes | TagsCloudVisualization/CircularCloudLayouter.cs:333-344 | outcome, hull and current node are exactly `RemoveSpare` of the old hull, the bounds are unchanged, and the loop terminates |
| Extensions.QuarterHasFourValues | TagsCloudVisualization/Extensions.cs:5-11 | every `Quarter` is one of I, II, III, IV, and these are four distinct values |
| Extensions.Shift | TagsCloudVisualization/Extensions.cs:15-18 | the point moved by (dx, dy). Its partner `ShiftAlgebra` shows that the zero shift is the identity, that shifts compose, and that the opposite shift undoes a shift |
| Extensions.ShiftAlgebra | TagsCloudVisualization/Extensions.cs:15-18 | Shift(p, 0, 0) = p, two shifts add up, and the opposite shift undoes a shift |
| PointExtensions.Shift | TagsCloudVisualization/PointExtensions.cs:7-10 | the point moved by (dx, dy). `ShiftsAgree` shows it equals `Extensions.Shift`, and `GetQuarterShiftInvariant` that shifting a point and the centre together keeps the quarter |
| PointExtensions.ShiftsAgree | TagsCloudVisualization/PointExtensions.cs:7-10 | this `Shift` and the one in Extensions.cs give the same point |
| PointExtensions.GetQuarter | TagsCloudVisualization/PointExtensions.cs:12-17 | XandYPositive iff x > cx and y > cy. OnlyXPositive iff x > cx and y ≤ cy. OnlyYPositive iff x ≤ cx and y > cy. XandYNonPositive iff x ≤ cx and y ≤ cy |
| PointExtensions.GetQuarterShiftInvariant | TagsCloudVisualization/PointExtensions.cs:7-17 | shifting point and centre by the same amount, or moving the centre to the origin, keeps the quarter |
| PointExtensions.CenterQuarter | TagsCloudVisualization/PointExtensions.cs:16 | the centre itself is XandYNonPositive |
| Clouds.Cloud.constructor | TagsCloudVisualization/Cloud.cs:10-13 | `Center` is the argument and the list starts empty; `Center` is a constant, so no later call changes it |
| Clouds.Cloud.Add | TagsCloudVisualization/Cloud.cs:6 | the item goes at the end and every earlier item keeps its place |

## Left out

- **The rest of the hull-walking placement** (CircularCloudLayouter.cs:200-210, 280-321, 346-428, 450-455): the non-empty branch of `PutNextRectangle`, `GetOptimisticCenter`, `GetRectangleLastVertex`, `AdjustmentRectangleCentre`, `AddPoints`, `AddAllVertexes`, `SmoothAngle` and `RemoveTheSame`. It rests on float `Math.Ceiling`/`Floor` and tolerance checks and promises no property beyond point examples. Its tests (CircularCloudLayouter.cs:488-526, 574-602, 642-689, 705-713) are left out with it, and so is the commented-out code.
- Layouter.CircularCloudLayouter.PutNextRectangle: requires an empty hull. Only that branch of the method is modelled.
- Layouter.CircularCloudLayouter.RemoveSpareNodes: requires a current node. With a `null` current node, the C# code throws `NullReferenceException`, which is not modelled.
- **Node identity.** A `LinkedListNode` is modelled by its position in the list. The model never compares nodes that could have equal values, so no behaviour is lost, but aliasing of node objects is not represented.
- **The keys of `edges`.** The dictionary's string keys `"maxX"`, `"minX"`, `"maxY"` and `"minY"` become the four constructors of `Edges.Bound`.
- **`CheckEdgeValue`** takes the bounds as a parameter instead of reading the field.
- **`GetShift`** takes the table as a parameter, and `Layouter.Shifts` is the table `InitShifts` builds.
- **Floating point.** `float`/`double` rounding, and `Tolerance`, are not modelled: coordinates are exact reals and the tolerance tests are exact equalities. `Math.Sqrt` in `GetDistance` becomes the squared distance.
- RectangleExtensions.GetVertexes: takes `shift: nat`. A negative shift makes C#'s `%` negative and the list index throws; the model does not include that case.
- **C# `int` overflow.** Integers are unbounded, so scores, shifts and coordinates never wrap around.
- **The unused field `shouldDouble`** (Game.cs:10) is left out.
- **The test case at Game.cs:88** has no expected result, so it states nothing to prove.
- **`Cloud<T>`'s other list operations.** `Cloud<T>` derives from `List<T>` (Cloud.cs:6), so C# callers can also `Remove`, `Insert`, `Clear` or overwrite items. Only `List<T>.Add` is modelled, as `Clouds.Cloud.Add`.
- **`CircularCloudLayouter_Should.cs`** (the newer layouter's tests) is left out. The implementation it exercises is not part of this model.
- **`Program.cs` and `CloudDrawer.cs`** are left out: random sizes, the entry point and bitmap drawing are I/O.
- **The two tag-cloud files as C#.** As written they cannot compile together: both declare `PointExtensions.Shift`, and `GetQuarter` returns names the `Quarter` enum does not declare. The model keeps them apart: `PointExtensions.Quarter` carries the names `GetQuarter` uses, `Extensions.Quarter` carries I to IV, and `ShiftsAgree` relates the two `Shift`s.
