/** The hull-walking `CircularCloudLayouter` of
    TagsCloudVisualization/CircularCloudLayouter.cs: its direction and turn
    tables, the pruning of hull nodes behind the current node, the bounding box
    of everything placed, and the placement of the first rectangle.

    The hull is a `LinkedList<PointF>` walked as a ring; here it is the sequence
    of its values and the current node is a position in it (see
    LinkedListExtensions).  Distances are compared through their squares, which
    order points exactly as `Math.Sqrt` of them does. */
module Layouter {
  import opened Drawing
  import opened RectangleExtensions
  import opened LinkedListExtensions
  import opened Edges

  datatype Direction = Right | Down | Left | Up

  /** The exceptions of this part of the layouter. */
  datatype LayoutError =
    | InvalidData   // InvalidDataException: two points share no coordinate
    | Validation    // ValidationException: a pruned node lay farther out than the current one
    | KeyNotFound   // KeyNotFoundException: a direction missing from the shift table

  datatype Result<T> = Ok(value: T) | Err(error: LayoutError)

  datatype Outcome = Pass | Fail(error: LayoutError)

  /** `GetDirection`: the direction of the axis-parallel step from `p1` to `p2`.
      A step along neither axis is an error; a step of length zero counts as Down. */
  function GetDirection(p1: PointF, p2: PointF): (r: Result<Direction>)
    ensures r.Err? <==> p1.x != p2.x && p1.y != p2.y
    ensures r.Err? ==> r.error == InvalidData
    ensures r == Ok(Up) <==> p1.x == p2.x && p2.y > p1.y
    ensures r == Ok(Down) <==> p1.x == p2.x && p2.y <= p1.y
    ensures r == Ok(Right) <==> p1.x != p2.x && p1.y == p2.y && p2.x > p1.x
    ensures r == Ok(Left) <==> p1.x != p2.x && p1.y == p2.y && p2.x < p1.x
  {
    var dx := p2.x - p1.x;
    var dy := p2.y - p1.y;
    if dx == 0.0 then
      (if dy > 0.0 then Ok(Up) else Ok(Down))
    else if dy == 0.0 then
      (if dx > 0.0 then Ok(Right) else Ok(Left))
    else
      Err(InvalidData)
  }

  /** The direction pointing the other way. */
  function Opposite(d: Direction): Direction
  {
    match d
    case Right => Left
    case Left => Right
    case Up => Down
    case Down => Up
  }

  /** Walking a step back reverses its direction, for any step of non-zero length. */
  lemma DirectionReversed(p1: PointF, p2: PointF)
    requires p1 != p2
    requires GetDirection(p1, p2).Ok?
    ensures GetDirection(p2, p1) == Ok(Opposite(GetDirection(p1, p2).value))
  {
  }

  /** The unit tests: unit steps up, right, down and left from the origin, and a
      diagonal step that is rejected. */
  lemma DirectionExamples()
    ensures GetDirection(PointF(0.0, 0.0), PointF(0.0, 1.0)) == Ok(Up)
    ensures GetDirection(PointF(0.0, 0.0), PointF(1.0, 0.0)) == Ok(Right)
    ensures GetDirection(PointF(0.0, 0.0), PointF(0.0, -1.0)) == Ok(Down)
    ensures GetDirection(PointF(0.0, 0.0), PointF(-1.0, 0.0)) == Ok(Left)
    ensures GetDirection(PointF(0.0, 0.0), PointF(1.0, 1.0)) == Err(InvalidData)
  {
  }

  /** `GetDistance` squared: never negative and zero from a point to itself, and
      since squaring is monotone on non-negative reals, comparing squares orders
      points as comparing distances does. */
  function SquaredDistance(a: PointF, b: PointF): (r: real)
    ensures r >= 0.0
    ensures a == b ==> r == 0.0
  {
    var dx, dy := a.x - b.x, a.y - b.y;
    SquareNonNegative(dx);
    SquareNonNegative(dy);
    dx * dx + dy * dy
  }

  /** A real's square is never negative, and zero for zero. */
  lemma SquareNonNegative(x: real)
    ensures x * x >= 0.0
    ensures x == 0.0 ==> x * x == 0.0
  {
    if x < 0.0 {
      assert x * x == (-x) * (-x);
    }
  }

  /** `FixMiddlePoint`: of the two corners of the box spanned by `a` and `c`
      that lie off the segment's ends, the one nearer to `b`; a tie goes to the
      second, (c.x, a.y). */
  function FixMiddlePoint(a: PointF, b: PointF, c: PointF): (r: PointF)
    ensures r == PointF(a.x, c.y) || r == PointF(c.x, a.y)
    ensures SquaredDistance(b, r) <= SquaredDistance(b, PointF(a.x, c.y))
    ensures SquaredDistance(b, r) <= SquaredDistance(b, PointF(c.x, a.y))
    ensures SquaredDistance(b, PointF(a.x, c.y)) == SquaredDistance(b, PointF(c.x, a.y)) ==>
              r == PointF(c.x, a.y)
  {
    var first := PointF(a.x, c.y);
    var second := PointF(c.x, a.y);
    if SquaredDistance(b, first) < SquaredDistance(b, second) then first else second
  }

  /** The fixed point turns the path a -> b -> c into two axis-parallel steps. */
  lemma FixMiddlePointAxisAligned(a: PointF, b: PointF, c: PointF)
    ensures GetDirection(a, FixMiddlePoint(a, b, c)).Ok?
    ensures GetDirection(FixMiddlePoint(a, b, c), c).Ok?
  {
  }

  /** The unit tests: a sharp corner, an obtuse corner, and a tie on one axis. */
  lemma FixMiddlePointExamples()
    ensures FixMiddlePoint(PointF(-3.0, 0.0), PointF(1.0, -1.0), PointF(0.0, 2.0)) == PointF(0.0, 0.0)
    ensures FixMiddlePoint(PointF(0.0, 2.0), PointF(1.0, 1.0), PointF(4.0, 0.0)) == PointF(0.0, 0.0)
    ensures FixMiddlePoint(PointF(0.0, 2.0), PointF(2.0, 1.0), PointF(0.0, 0.0)) == PointF(0.0, 2.0)
  {
  }

  /** The direction a quarter turn clockwise (y grows upwards). */
  function Clockwise(d: Direction): Direction
  {
    match d
    case Right => Down
    case Down => Left
    case Left => Up
    case Up => Right
  }

  /** `IsConcaveAngle` on directions: the walk turns a quarter counter-clockwise,
      that is, the incoming direction is a clockwise quarter turn from the outgoing one. */
  predicate IsConcaveAngle(prevToCurr: Direction, currToNext: Direction)
    ensures IsConcaveAngle(prevToCurr, currToNext) <==> prevToCurr == Clockwise(currToNext)
  {
    || (prevToCurr == Down && currToNext == Right)
    || (prevToCurr == Left && currToNext == Down)
    || (prevToCurr == Up && currToNext == Left)
    || (prevToCurr == Right && currToNext == Up)
  }

  /** The unit tests: Down then Right is concave, Right then Down is not. */
  lemma ConcaveAngleExamples()
    ensures IsConcaveAngle(Down, Right)
    ensures !IsConcaveAngle(Right, Down)
  {
  }

  /** `IsConcaveAngle` on points: the turn at `b` on the way a -> b -> c, or the
      error `GetDirection` throws for either step. */
  function IsConcaveCorner(a: PointF, b: PointF, c: PointF): (r: Result<bool>)
    ensures r.Ok? <==> GetDirection(a, b).Ok? && GetDirection(b, c).Ok?
    ensures r.Ok? ==> r.value == IsConcaveAngle(GetDirection(a, b).value, GetDirection(b, c).value)
    ensures r.Err? ==> r.error == InvalidData
  {
    match GetDirection(a, b)
    case Err(e) => Err(e)
    case Ok(prevToCurr) =>
      match GetDirection(b, c)
      case Err(e) => Err(e)
      case Ok(currToNext) => Ok(IsConcaveAngle(prevToCurr, currToNext))
  }

  /** The cross product of the steps a -> b and b -> c: positive on a left turn. */
  function Turn(a: PointF, b: PointF, c: PointF): real
  {
    (b.x - a.x) * (c.y - b.y) - (b.y - a.y) * (c.x - b.x)
  }

  /** For two steps of non-zero length, a concave corner is exactly a left turn. */
  lemma ConcaveIsLeftTurn(a: PointF, b: PointF, c: PointF)
    requires a != b && b != c
    requires IsConcaveCorner(a, b, c).Ok?
    ensures IsConcaveCorner(a, b, c).value <==> Turn(a, b, c) > 0.0
  {
    var d1 := GetDirection(a, b).value;
    var d2 := GetDirection(b, c).value;
    if d1 == Up || d1 == Down {
      assert Turn(a, b, c) == - (b.y - a.y) * (c.x - b.x);
    } else {
      assert Turn(a, b, c) == (b.x - a.x) * (c.y - b.y);
    }
  }

  /** `InitShifts`: the shift table the constructor stores in the layouter. */
  const Shifts: map<Direction, nat> := map[Right := 0, Down := 1, Left := 2, Up := 3]

  /** `GetShift`: the entry of the layouter's table for a direction, or the error
      for a direction the table lacks. */
  function GetShift(shifts: map<Direction, nat>, currToNext: Direction): (r: Result<nat>)
    ensures r.Ok? <==> currToNext in shifts
    ensures r.Ok? ==> r.value == shifts[currToNext]
    ensures r.Err? ==> r.error == KeyNotFound
  {
    if currToNext !in shifts then Err(KeyNotFound) else Ok(shifts[currToNext])
  }

  /** With the table `InitShifts` builds no key is missing, the shift counts
      clockwise quarter turns from Right (so a clockwise turn adds one modulo 4),
      and different directions get different shifts. */
  lemma ShiftCountsQuarterTurns(d: Direction, e: Direction)
    ensures GetShift(Shifts, d).Ok? && GetShift(Shifts, d).value < 4
    ensures GetShift(Shifts, Clockwise(d)).value == (GetShift(Shifts, d).value + 1) % 4
    ensures GetShift(Shifts, d) == GetShift(Shifts, e) ==> d == e
  {
  }

  /** The unit tests: Right, Down, Left, Up map to 0, 1, 2, 3. */
  lemma ShiftExamples()
    ensures GetShift(Shifts, Right) == Ok(0) && GetShift(Shifts, Down) == Ok(1)
    ensures GetShift(Shifts, Left) == Ok(2) && GetShift(Shifts, Up) == Ok(3)
  {
  }

  /** `ShouldToRemove`: `pointToRemove` lies on the counter-clockwise side of the
      ray from the centre through `point`, behind `point` on a hull walked
      clockwise: the 2-D cross product of the ray and the step from `point` to
      `pointToRemove` is positive. */
  function ShouldToRemove(center: Point, point: PointF, pointToRemove: PointF): (r: bool)
    ensures r <==> (point.y - center.y as real) * (pointToRemove.x - point.x)
                   - (point.x - center.x as real) * (pointToRemove.y - point.y) < 0.0
  {
    var dx := point.x - center.x as real;
    var dy := point.y - center.y as real;
    var t := dx;
    var dx' := dy;
    var dy' := -t;
    dx' * (pointToRemove.x - point.x) + dy' * (pointToRemove.y - point.y) < 0.0
  }

  /** Being behind is a left turn at `point` on the way from the centre, the same
      `Turn` that tells a concave corner. */
  lemma BehindIsLeftTurn(center: Point, point: PointF, pointToRemove: PointF)
    ensures ShouldToRemove(center, point, pointToRemove) <==> Turn(ToPointF(center), point, pointToRemove) > 0.0
  {
  }

  /** A point is never behind itself. */
  lemma NotBehindItself(center: Point, point: PointF)
    ensures !ShouldToRemove(center, point, point)
  {
  }

  /** The unit tests, with the centre at the origin. */
  lemma ShouldToRemoveExamples()
    ensures ShouldToRemove(Point(0, 0), PointF(-3.0, -3.0), PointF(-2.0, -3.0))
    ensures !ShouldToRemove(Point(0, 0), PointF(-3.0, -3.0), PointF(-3.0, -2.0))
  {
  }

  /** A hull with a current node: the list's values in list order and the
      position of `currentNode`. */
  datatype Cursor = Cursor(hull: seq<PointF>, current: nat)

  predicate ValidCursor(h: Cursor)
  {
    h.current < |h.hull|
  }

  /** The hull read as a ring from the current node on, in `GetNextNode` order. */
  function Ring(h: Cursor): (r: seq<PointF>)
    requires ValidCursor(h)
    ensures |r| == |h.hull| && r[0] == h.hull[h.current]
  {
    h.hull[h.current..] + h.hull[..h.current]
  }

  /** The value of the node after the current one is the second value of the
      ring, or the current value itself on a one-node hull. */
  lemma NextValueInRing(h: Cursor)
    requires ValidCursor(h)
    ensures var next := GetNextNode(h.hull, Some(h.current)).value;
            h.hull[next] == if |h.hull| >= 2 then Ring(h)[1] else h.hull[h.current]
  {
    if h.current + 1 < |h.hull| {
      assert Ring(h)[1] == h.hull[h.current..][1];
    }
  }

  /** `hull.Remove(hull.GetNextNode(currentNode))`: removing the node after the
      current one (the first node when the current one is the last), which moves
      the current node one place down when the removed node was the first. */
  function RemoveNext(h: Cursor): (r: Cursor)
    requires ValidCursor(h) && |h.hull| >= 2
    ensures ValidCursor(r) && |r.hull| == |h.hull| - 1
  {
    var next := if h.current + 1 == |h.hull| then 0 else h.current + 1;
    Cursor(h.hull[..next] + h.hull[next + 1..], if next < h.current then h.current - 1 else h.current)
  }

  /** Read as a ring from the current node, the removal drops exactly the
      second value and keeps the order of the others. */
  lemma RemoveNextRing(h: Cursor)
    requires ValidCursor(h) && |h.hull| >= 2
    ensures Ring(RemoveNext(h)) == [Ring(h)[0]] + Ring(h)[2..]
  {
    var c := h.current;
    if c + 1 == |h.hull| {
      RemoveNextWrap(h.hull, c);
      RingSkipWrap(h.hull, c);
    } else {
      RemoveNextInside(h.hull, c);
      RingSkipInside(h.hull, c);
    }
  }

  /** The ring read from `c` after cutting out position `c + 1`. */
  lemma RingSkipInside<T>(s: seq<T>, c: nat)
    requires c + 1 < |s|
    ensures var t := s[..c + 1] + s[c + 2..];
            t[c..] + t[..c] == [s[c]] + (s[c..] + s[..c])[2..]
  {
    var t := s[..c + 1] + s[c + 2..];
    assert t[c..] == [s[c]] + s[c + 2..];
    assert t[..c] == s[..c];
    assert (s[c..] + s[..c])[2..] == s[c + 2..] + s[..c];
  }

  /** The ring read from the last position after cutting out the first. */
  lemma RingSkipWrap<T>(s: seq<T>, c: nat)
    requires 2 <= |s| && c + 1 == |s|
    ensures var t := s[1..];
            t[c - 1..] + t[..c - 1] == [s[c]] + (s[c..] + s[..c])[2..]
  {
    var t := s[1..];
    assert t[c - 1..] == [s[c]];
    assert t[..c - 1] == s[1..c];
    assert (s[c..] + s[..c])[2..] == s[1..c];
  }

  /** `k` removals of the node after the current one. */
  function DropSuccessors(h: Cursor, k: nat): (r: Cursor)
    requires ValidCursor(h) && k < |h.hull|
    ensures ValidCursor(r) && |r.hull| == |h.hull| - k
    decreases k
  {
    if k == 0 then h else RemoveNext(DropSuccessors(h, k - 1))
  }

  /** After `k` removals the current node stays and the first `k` nodes after it
      are gone, the rest keeping their ring order. */
  lemma {:induction false} DropSuccessorsRing(h: Cursor, k: nat)
    requires ValidCursor(h) && k < |h.hull|
    ensures Ring(DropSuccessors(h, k)) == [Ring(h)[0]] + Ring(h)[k + 1..]
    decreases k
  {
    if k > 0 {
      var before := DropSuccessors(h, k - 1);
      DropSuccessorsRing(h, k - 1);
      RemoveNextRing(before);
      SkipSecond(Ring(h)[0], Ring(h), k);
    }
  }

  /** Dropping the second value after a value put in front of a suffix. */
  lemma SkipSecond<T>(x: T, s: seq<T>, k: nat)
    requires k < |s|
    ensures ([x] + s[k..])[2..] == s[k + 1..]
  {
  }

  /** Removing the node after a current node that is not the last. */
  lemma RemoveNextInside(hull: seq<PointF>, c: nat)
    requires c + 1 < |hull|
    ensures RemoveNext(Cursor(hull, c)) == Cursor(hull[..c + 1] + hull[c + 2..], c)
  {
  }

  /** Removing the node after the last node, which is the first. */
  lemma RemoveNextWrap(hull: seq<PointF>, c: nat)
    requires 2 <= |hull| && c + 1 == |hull|
    ensures RemoveNext(Cursor(hull, c)) == Cursor(hull[1..], c - 1)
  {
    assert hull[..0] + hull[1..] == hull[1..];
  }

  /** The list without the `k` nodes after position `c`. */
  function CutAfter(hull: seq<PointF>, c: nat, k: nat): (r: seq<PointF>)
    requires c + k < |hull|
    ensures |r| == |hull| - k
  {
    hull[..c + 1] + hull[c + k + 1..]
  }

  /** The list itself after `k` removals that stay before the list's end: the
      `k` nodes after the current one are cut out and the others keep their places. */
  lemma {:induction false} DropSuccessorsInside(h: Cursor, k: nat)
    requires ValidCursor(h) && h.current + k < |h.hull|
    ensures DropSuccessors(h, k) == Cursor(CutAfter(h.hull, h.current, k), h.current)
    decreases k
  {
    var c := h.current;
    if k > 0 {
      DropSuccessorsInside(h, k - 1);
      var rest := CutAfter(h.hull, c, k - 1);
      RemoveNextInside(rest, c);
      CutOneMore(h.hull, c, k);
    } else {
      assert h.hull[..c + 1] + h.hull[c + 1..] == h.hull;
    }
  }

  /** Cutting the node after position `c` out of a list that already lacks the
      `k - 1` nodes after it. */
  lemma CutOneMore(s: seq<PointF>, c: nat, k: nat)
    requires 0 < k && c + k < |s|
    ensures var rest := CutAfter(s, c, k - 1);
            rest[..c + 1] + rest[c + 2..] == CutAfter(s, c, k)
  {
    var rest := CutAfter(s, c, k - 1);
    assert rest[..c + 1] == s[..c + 1];
    assert rest[c + 2..] == s[c + k + 1..];
  }

  /** The node at `pointToRemove` lies farther from the centre than `point`. */
  predicate Farther(center: Point, point: PointF, pointToRemove: PointF)
  {
    SquaredDistance(point, ToPointF(center)) < SquaredDistance(pointToRemove, ToPointF(center))
  }

  /** How many of `qs`, from the front, `ShouldToRemove` accepts: the longest
      such prefix. */
  function RunLength(center: Point, point: PointF, qs: seq<PointF>): (k: nat)
    ensures k <= |qs|
    ensures forall i :: 0 <= i < k ==> ShouldToRemove(center, point, qs[i])
    ensures k < |qs| ==> !ShouldToRemove(center, point, qs[k])
    decreases |qs|
  {
    if |qs| == 0 || !ShouldToRemove(center, point, qs[0]) then 0
    else 1 + RunLength(center, point, qs[1..])
  }

  /** A node behind the current one that the run has reached extends the run. */
  lemma RunContinues(center: Point, point: PointF, qs: seq<PointF>, i: nat)
    requires i <= RunLength(center, point, qs)
    requires i < |qs| && ShouldToRemove(center, point, qs[i])
    ensures i < RunLength(center, point, qs)
  {
  }

  /** The position of the first of `qs` farther from the centre than `point`,
      or `|qs|` when there is none. */
  function FirstFarther(center: Point, point: PointF, qs: seq<PointF>): (j: nat)
    ensures j <= |qs|
    ensures forall i :: 0 <= i < j ==> !Farther(center, point, qs[i])
    ensures j < |qs| ==> Farther(center, point, qs[j])
    decreases |qs|
  {
    if |qs| == 0 || Farther(center, point, qs[0]) then 0
    else 1 + FirstFarther(center, point, qs[1..])
  }

  /** The nodes after the current one, in `GetNextNode` order. */
  function Successors(h: Cursor): (r: seq<PointF>)
    requires ValidCursor(h)
    ensures |r| == |h.hull| - 1
  {
    Ring(h)[1..]
  }

  /** What `RemoveSpareNodes` does to a hull: it removes the run of nodes after
      the current one that lie behind it, and stops with a `ValidationException`
      right after removing the first of them that lies farther from the centre. */
  function RemoveSpare(center: Point, h: Cursor): (r: (Outcome, Cursor))
    requires ValidCursor(h)
    ensures ValidCursor(r.1) && |r.1.hull| <= |h.hull|
  {
    var point := h.hull[h.current];
    var successors := Successors(h);
    var k := RunLength(center, point, successors);
    var j := FirstFarther(center, point, successors[..k]);
    if j < k then (Fail(Validation), DropSuccessors(h, j + 1))
    else (Pass, DropSuccessors(h, k))
  }

  /** The pruning keeps the current node and removes some `m` nodes right after
      it, every one of which lies behind it; the others keep their ring order. */
  lemma RemoveSpareRemovesRun(center: Point, h: Cursor)
    requires ValidCursor(h)
    ensures var after := RemoveSpare(center, h).1;
            var m := |h.hull| - |after.hull|;
            && Ring(after) == [h.hull[h.current]] + Successors(h)[m..]
            && (forall i :: 0 <= i < m ==> ShouldToRemove(center, h.hull[h.current], Successors(h)[i]))
  {
    var point := h.hull[h.current];
    var successors := Successors(h);
    var k := RunLength(center, point, successors);
    var j := FirstFarther(center, point, successors[..k]);
    var m := if j < k then j + 1 else k;
    var after := DropSuccessors(h, m);
    assert RemoveSpare(center, h).1 == after;
    assert |h.hull| - |after.hull| == m;
    DropSuccessorsRing(h, m);
    assert Ring(h)[m + 1..] == successors[m..];
    assert Ring(after) == [point] + successors[m..];
    assert forall i :: 0 <= i < m ==> ShouldToRemove(center, point, successors[i]);
  }

  /** Without an exception, no removed node lies farther from the centre than the
      current one, and the node now after it (if any other is left) is not behind it. */
  lemma RemoveSparePasses(center: Point, h: Cursor)
    requires ValidCursor(h)
    requires RemoveSpare(center, h).0 == Pass
    ensures var m := |h.hull| - |RemoveSpare(center, h).1.hull|;
            && (forall i :: 0 <= i < m ==> !Farther(center, h.hull[h.current], Successors(h)[i]))
            && (m == |Successors(h)| || !ShouldToRemove(center, h.hull[h.current], Successors(h)[m]))
  {
    var point := h.hull[h.current];
    var successors := Successors(h);
    var k := RunLength(center, point, successors);
    assert forall i :: 0 <= i < k ==> successors[..k][i] == successors[i];
  }

  /** With an exception, the last removed node is the first one met that lies
      farther from the centre than the current one. */
  lemma RemoveSpareFails(center: Point, h: Cursor)
    requires ValidCursor(h)
    requires RemoveSpare(center, h).0 != Pass
    ensures var m := |h.hull| - |RemoveSpare(center, h).1.hull|;
            && RemoveSpare(center, h).0 == Fail(Validation) && m >= 1
            && Farther(center, h.hull[h.current], Successors(h)[m - 1])
            && (forall i :: 0 <= i < m - 1 ==> !Farther(center, h.hull[h.current], Successors(h)[i]))
  {
    var point := h.hull[h.current];
    var successors := Successors(h);
    var k := RunLength(center, point, successors);
    var j := FirstFarther(center, point, successors[..k]);
    assert successors[..k][j] == successors[j];
    assert forall i :: 0 <= i < j ==> successors[..k][i] == successors[i];
  }

  /** Where the pruning loop stands after `removed` rounds: the value of the node
      after the current one is the next successor, or the current value once no
      other node is left. */
  lemma NextAfterDrop(start: Cursor, removed: nat)
    requires ValidCursor(start) && removed < |start.hull|
    ensures var h := DropSuccessors(start, removed);
            h.hull[GetNextNode(h.hull, Some(h.current)).value] ==
              if removed < |Successors(start)| then Successors(start)[removed] else start.hull[start.current]
  {
    var h := DropSuccessors(start, removed);
    NextValueInRing(h);
    DropSuccessorsRing(start, removed);
    if removed < |Successors(start)| {
      assert Ring(h)[1] == Ring(start)[removed + 1];
    }
  }

  /** The loop's record that no removed node lay farther out grows by one round. */
  lemma NoneFartherExtends(center: Point, point: PointF, qs: seq<PointF>, n: nat)
    requires n < |qs| && !Farther(center, point, qs[n])
    requires forall i :: 0 <= i < n ==> !Farther(center, point, qs[i])
    ensures forall i :: 0 <= i < n + 1 ==> !Farther(center, point, qs[i])
  {
  }

  /** The loop stops with an exception after `removed + 1` rounds exactly when the
      node it removed last is the first farther one within the run. */
  lemma PruneFails(center: Point, start: Cursor, removed: nat)
    requires ValidCursor(start)
    requires removed < RunLength(center, start.hull[start.current], Successors(start))
    requires forall i :: 0 <= i < removed ==> !Farther(center, start.hull[start.current], Successors(start)[i])
    requires Farther(center, start.hull[start.current], Successors(start)[removed])
    ensures RemoveSpare(center, start) == (Fail(Validation), DropSuccessors(start, removed + 1))
  {
    var successors := Successors(start);
    var run := RunLength(center, start.hull[start.current], successors);
    assert successors[..run][removed] == successors[removed];
    assert forall i :: 0 <= i < removed ==> successors[..run][i] == successors[i];
  }

  /** The loop ends normally after `removed` rounds when no removed node was
      farther out and the next one is not behind. */
  lemma PrunePasses(center: Point, start: Cursor, removed: nat)
    requires ValidCursor(start)
    requires removed <= RunLength(center, start.hull[start.current], Successors(start))
    requires forall i :: 0 <= i < removed ==> !Farther(center, start.hull[start.current], Successors(start)[i])
    requires removed == |Successors(start)| ||
             !ShouldToRemove(center, start.hull[start.current], Successors(start)[removed])
    ensures RemoveSpare(center, start) == (Pass, DropSuccessors(start, removed))
  {
    var successors := Successors(start);
    var run := RunLength(center, start.hull[start.current], successors);
    assert forall i :: 0 <= i < run ==> successors[..run][i] == successors[i];
  }

  /** The value of the node after the current one. */
  function NextValue(h: Cursor): PointF
    requires ValidCursor(h)
  {
    h.hull[GetNextNode(h.hull, Some(h.current)).value]
  }

  /** Where the pruning loop stands after `removed` rounds from `start`: the
      hull is `start` with the first `removed` successors gone, all of them
      within the run and none of them farther out than the current node. */
  ghost predicate Pruning(center: Point, start: Cursor, removed: nat, h: Cursor)
  {
    && ValidCursor(start) && removed < |start.hull|
    && removed <= RunLength(center, start.hull[start.current], Successors(start))
    && h == DropSuccessors(start, removed)
    && forall i :: 0 <= i < removed ==> !Farther(center, start.hull[start.current], Successors(start)[i])
  }

  /** Before the first round nothing is removed. */
  lemma PruningStart(center: Point, start: Cursor)
    requires ValidCursor(start)
    ensures Pruning(center, start, 0, start)
    ensures NextValue(start) == if 0 < |Successors(start)| then Successors(start)[0] else start.hull[start.current]
  {
    NextAfterDrop(start, 0);
  }

  /** A round whose next node lies behind the current one: that node is the
      next successor, so at least two nodes are left; removing it either
      continues the loop or ends the pruning with an exception. */
  lemma PruningRound(center: Point, start: Cursor, removed: nat, h: Cursor)
    requires Pruning(center, start, removed, h)
    requires ShouldToRemove(center, start.hull[start.current], NextValue(h))
    ensures |h.hull| >= 2 && removed < |Successors(start)|
    ensures NextValue(h) == Successors(start)[removed]
    ensures Farther(center, start.hull[start.current], NextValue(h)) ==>
              RemoveSpare(center, start) == (Fail(Validation), RemoveNext(h))
    ensures !Farther(center, start.hull[start.current], NextValue(h)) ==>
              Pruning(center, start, removed + 1, RemoveNext(h))
  {
    var point := start.hull[start.current];
    var successors := Successors(start);
    NextAfterDrop(start, removed);
    NotBehindItself(center, point);
    RunContinues(center, point, successors, removed);
    if Farther(center, point, NextValue(h)) {
      PruneFails(center, start, removed);
    } else {
      NoneFartherExtends(center, point, successors, removed);
    }
  }

  /** A round whose next node is not behind the current one ends the pruning
      normally with the hull as it stands. */
  lemma PruningEnd(center: Point, start: Cursor, removed: nat, h: Cursor)
    requires Pruning(center, start, removed, h)
    requires !ShouldToRemove(center, start.hull[start.current], NextValue(h))
    ensures RemoveSpare(center, start) == (Pass, h)
  {
    NextAfterDrop(start, removed);
    PrunePasses(center, start, removed);
  }

  /** The unit test, with the centre at the origin: of (-4, 1), (-3, -1), (-2, 0),
      (-2, 1) from the first node, the two middle nodes lie behind (-4, 1) and go.
      The points come in as parameters fixed by the requires, so that the solver
      does not unfold the recursive pruning on literal values. */
  lemma RemoveSpareExample(a: PointF, b: PointF, c: PointF, d: PointF)
    requires a == PointF(-4.0, 1.0) && b == PointF(-3.0, -1.0)
    requires c == PointF(-2.0, 0.0) && d == PointF(-2.0, 1.0)
    ensures RemoveSpare(Point(0, 0), Cursor([a, b, c, d], 0)) == (Pass, Cursor([a, d], 0))
  {
    var h := Cursor([a, b, c, d], 0);
    assert Successors(h) == [b, c, d];
    assert [b, c, d][1..] == [c, d] && [c, d][1..] == [d];
    assert !ShouldToRemove(Point(0, 0), a, d) && RunLength(Point(0, 0), a, [d]) == 0;
    assert ShouldToRemove(Point(0, 0), a, c) && RunLength(Point(0, 0), a, [c, d]) == 1;
    assert ShouldToRemove(Point(0, 0), a, b) && RunLength(Point(0, 0), a, [b, c, d]) == 2;
    assert [b, c, d][..2] == [b, c] && [b, c][1..] == [c];
    assert !Farther(Point(0, 0), a, c) && FirstFarther(Point(0, 0), a, [c]) == 1;
    assert !Farther(Point(0, 0), a, b) && FirstFarther(Point(0, 0), a, [b, c]) == 2;
    DropSuccessorsInside(h, 2);
    assert [a, b, c, d][..1] + [a, b, c, d][3..] == [a, d];
  }

  /** The unit test, with the centre at the origin: after (-4, 1) the node
      (-5, 0) lies behind it but farther out, so the pruning throws.  As above,
      the points are parameters fixed by the requires. */
  lemma RemoveSpareThrowsExample(a: PointF, b: PointF)
    requires a == PointF(-4.0, 1.0) && b == PointF(-5.0, 0.0)
    ensures RemoveSpare(Point(0, 0), Cursor([a, b], 0)).0 == Fail(Validation)
  {
    assert Successors(Cursor([a, b], 0)) == [b];
    assert [b][..1] == [b];
  }

  /** The hull the first rectangle leaves is walked clockwise: up its left side,
      right along its top, down its right side and left along its bottom, with
      no concave corner. */
  lemma FirstHullIsClockwise(center: Point, size: Size)
    requires size.width > 0 && size.height > 0
    ensures var c := Corners(RectangleAt(center, size));
            && GetDirection(c[0], c[1]) == Ok(Up) && GetDirection(c[1], c[2]) == Ok(Right)
            && GetDirection(c[2], c[3]) == Ok(Down) && GetDirection(c[3], c[0]) == Ok(Left)
    ensures var c := Corners(RectangleAt(center, size));
            && IsConcaveCorner(c[3], c[0], c[1]) == Ok(false) && IsConcaveCorner(c[0], c[1], c[2]) == Ok(false)
            && IsConcaveCorner(c[1], c[2], c[3]) == Ok(false) && IsConcaveCorner(c[2], c[3], c[0]) == Ok(false)
  {
  }

  /** Pruning the first hull from its first corner removes nothing. */
  lemma FirstHullNothingSpare(center: Point, size: Size)
    requires size.width > 0 && size.height > 0
    ensures var h := Cursor(Corners(RectangleAt(center, size)), 0);
            RemoveSpare(center, h) == (Pass, h)
  {
    var c := Corners(RectangleAt(center, size));
    var h := Cursor(c, 0);
    var halfWidth := size.width as real / 2.0;
    var halfHeight := size.height as real / 2.0;
    assert halfWidth * halfHeight > 0.0;
    assert Successors(h) == c[1..];
    assert !ShouldToRemove(center, c[0], c[1]);
    assert RunLength(center, c[0], c[1..]) == 0;
  }

  /** The layouter: its centre, the hull with the current node, the shift table
      and the bounding box of the hull. */
  class CircularCloudLayouter {
    const center: Point
    var hull: seq<PointF>
    var currentNode: Option<nat>
    const shifts: map<Direction, nat>
    var edges: map<Bound, real>

    ghost predicate Valid()
      reads this
    {
      IsNodeOf(hull, currentNode) && HasEdges(edges)
    }

    /** An empty hull, the shift table and the bounds at the centre. */
    constructor(center: Point)
      ensures this.center == center && hull == [] && currentNode == None
      ensures shifts == Shifts && edges == InitEdges(center)
      ensures Valid()
    {
      this.center := center;
      hull := [];
      currentNode := None;
      shifts := Shifts;
      edges := InitEdges(center);
    }

    /** `RefreshEdges`: widens the bounds to take in `point`. */
    method RefreshEdges(point: PointF)
      requires HasEdges(edges)
      modifies this
      ensures edges == Widen(old(edges), point)
      ensures hull == old(hull) && currentNode == old(currentNode)
    {
      if point.x > edges[MaxX] {
        edges := edges[MaxX := point.x];
      }
      assert edges == old(edges)[MaxX := Max(old(edges)[MaxX], point.x)];
      if point.x < edges[MinX] {
        edges := edges[MinX := point.x];
      }
      assert edges == old(edges)[MaxX := Max(old(edges)[MaxX], point.x)][MinX := Min(old(edges)[MinX], point.x)];
      if point.y > edges[MaxY] {
        edges := edges[MaxY := point.y];
      }
      assert edges == old(edges)[MaxX := Max(old(edges)[MaxX], point.x)][MinX := Min(old(edges)[MinX], point.x)]
                                [MaxY := Max(old(edges)[MaxY], point.y)];
      if point.y < edges[MinY] {
        edges := edges[MinY := point.y];
      }
    }

    /** `PutNextRectangle` on an empty hull: the rectangle goes at the centre, its
        corners become the hull from the lower-left one clockwise, the first of them
        becomes the current node, and the bounds take in every corner. */
    method PutNextRectangle(rectangleSize: Size) returns (rectangle: Rectangle)
      requires Valid() && hull == []
      modifies this
      ensures rectangle == RectangleAt(center, rectangleSize)
      ensures hull == Corners(rectangle) && currentNode == First(hull)
      ensures edges == Envelope(old(edges), hull)
      ensures Valid()
    {
      rectangle := RectangleAt(center, rectangleSize);
      var vertexes := GetVertexes(rectangle, 0);
      RotateZero(Corners(rectangle));
      for i := 0 to 4
        invariant vertexes[..] == Corners(rectangle)
        invariant hull == vertexes[..i]
        invariant HasEdges(edges) && edges == Envelope(old(edges), vertexes[..i])
        invariant currentNode == old(currentNode)
      {
        assert vertexes[..i + 1][..i] == vertexes[..i];
        hull := hull + [vertexes[i]];
        RefreshEdges(vertexes[i]);
      }
      assert vertexes[..4] == vertexes[..];
      currentNode := First(hull);
    }

    /** `hull.Remove(hull.GetNextNode(currentNode))`: the list's `Remove`, which
        keeps every other node, so the current node moves down one place when
        the removed node came before it. */
    method RemoveNextNode()
      requires Valid() && currentNode.Some? && |hull| >= 2
      modifies this
      ensures Valid() && currentNode.Some?
      ensures Cursor(hull, currentNode.value) == RemoveNext(Cursor(old(hull), old(currentNode).value))
      ensures edges == old(edges)
    {
      var next := GetNextNode(hull, currentNode).value;
      hull := hull[..next] + hull[next + 1..];
      if next < currentNode.value {
        currentNode := Some(currentNode.value - 1);
      }
    }

    /** `RemoveSpareNodes`: removes the nodes after the current one while they lie
        behind it, failing once a removed node lies farther from the centre. */
    method RemoveSpareNodes() returns (outcome: Outcome)
      requires Valid() && currentNode.Some?
      modifies this
      ensures Valid() && currentNode.Some?
      ensures (outcome, Cursor(hull, currentNode.value)) ==
              RemoveSpare(center, Cursor(old(hull), old(currentNode).value))
      ensures edges == old(edges)
    {
      ghost var start := Cursor(hull, currentNode.value);
      var point := hull[currentNode.value];
      PruningStart(center, start);
      var pointToRemove := hull[GetNextNode(hull, currentNode).value];
      ghost var removed := 0;
      while ShouldToRemove(center, point, pointToRemove)
        invariant currentNode.Some? && Pruning(center, start, removed, Cursor(hull, currentNode.value))
        invariant pointToRemove == NextValue(Cursor(hull, currentNode.value))
        invariant edges == old(edges)
        decreases |hull|
      {
        PruningRound(center, start, removed, Cursor(hull, currentNode.value));
        RemoveNextNode();
        if Farther(center, point, pointToRemove) {
          outcome := Fail(Validation);
          return;
        }
        removed := removed + 1;
        pointToRemove := hull[GetNextNode(hull, currentNode).value];
      }
      PruningEnd(center, start, removed, Cursor(hull, currentNode.value));
      outcome := Pass;
    }
  }

  /** The unit test of the first placement: a fresh layouter centred at the origin
      puts a 6 by 6 rectangle on the centre, and its corners become the hull. */
  method FirstRectangleExample() returns (rectangle: Rectangle, hull: seq<PointF>)
    ensures rectangle == Rectangle(0, 0, 6, 6)
    ensures hull == [PointF(-3.0, -3.0), PointF(-3.0, 3.0), PointF(3.0, 3.0), PointF(3.0, -3.0)]
  {
    var layouter := new CircularCloudLayouter(Point(0, 0));
    rectangle := layouter.PutNextRectangle(Size(6, 6));
    hull := layouter.hull;
  }
}
