/** The bowling scorer of BowlingGame/Game.cs.
    A game is a small state machine: every accepted roll adds its pins, times
    one plus the bonus owed to that roll, to the score and shifts a two-slot
    bonus queue.  The functions below are the specification of one roll;
    class Game is the object that the source mutates in place. */
module Bowling {

  /** The two exceptions `validate` throws. */
  datatype RollError =
    | PinsOutOfRange(pins: int)   // ArgumentException: pins outside [0, 10]
    | FrameOverflow(sum: int)     // ValidationException: two rolls of one frame above 10

  datatype Outcome = Pass | Fail(error: RollError)

  datatype Result<T> = Ok(value: T) | Err(error: RollError)

  /** The fields of Game; `nextBonus` and `secondBonus` are nextCountBonus[0] and [1]. */
  datatype GameState = GameState(
    score: int,
    nextBonus: int,
    secondBonus: int,
    previousPins: int,
    isFirstInFrame: bool,
    frameCount: int)

  /** The state the constructor leaves: everything zero, a frame about to start. */
  const NewGame := GameState(0, 0, 0, 0, true, 0)

  /** What every reachable state satisfies: the bonus queue owes at most two extra
      counts to the next roll and at most one to the roll after. */
  ghost predicate Reachable(s: GameState)
  {
    && 0 <= s.nextBonus <= 2
    && 0 <= s.secondBonus <= 1
    && 0 <= s.previousPins <= 10
    && 0 <= s.score
    && 0 <= s.frameCount
  }

  /** `validate`: the checks made before any field is touched. */
  function Validate(s: GameState, pins: int): (r: Outcome)
    ensures r == Fail(PinsOutOfRange(pins)) <==> pins < 0 || pins > 10
    ensures r == Fail(FrameOverflow(pins + s.previousPins)) <==>
              0 <= pins <= 10 && !s.isFirstInFrame && s.frameCount != 10 && pins + s.previousPins > 10
    ensures r.Pass? || r == Fail(PinsOutOfRange(pins)) || r == Fail(FrameOverflow(pins + s.previousPins))
  {
    if pins > 10 || pins < 0 then Fail(PinsOutOfRange(pins))
    else if !s.isFirstInFrame && s.frameCount != 10 && pins + s.previousPins > 10 then
      Fail(FrameOverflow(pins + s.previousPins))
    else Pass
  }

  /** A spare: the second roll of a frame before the tenth completes ten pins.
      `frame` is the frame count after this roll's increment. */
  predicate IsSpare(s: GameState, pins: int, frame: int)
  {
    frame < 10 && !s.isFirstInFrame && pins + s.previousPins == 10
  }

  /** A strike: the first roll of a frame before the tenth takes all ten pins. */
  predicate IsStrike(s: GameState, pins: int, frame: int)
  {
    frame < 10 && s.isFirstInFrame && pins == 10
  }

  /** The frame count after a roll: a roll that starts a frame opens a new one. */
  function FrameAfter(s: GameState): int
  {
    if s.isFirstInFrame then s.frameCount + 1 else s.frameCount
  }

  /** The field updates of `Roll` once `validate` has passed. */
  function Advance(s: GameState, pins: int): GameState
  {
    var frame := FrameAfter(s);
    var score := s.score + pins + s.nextBonus * pins;
    if IsSpare(s, pins, frame) then
      GameState(score, s.secondBonus + 1, 0, pins, true, frame)
    else if IsStrike(s, pins, frame) then
      GameState(score, s.secondBonus + 1, 1, pins, true, frame)
    else
      GameState(score, s.secondBonus, 0, pins, !s.isFirstInFrame, frame)
  }

  /** One call of `Roll`: either the exception `validate` throws, or the new state. */
  function Step(s: GameState, pins: int): Result<GameState>
  {
    match Validate(s, pins)
    case Fail(e) => Err(e)
    case Pass => Ok(Advance(s, pins))
  }

  /** A sequence of rolls from state `s`, stopping at the first rejected roll. */
  function PlayFrom(s: GameState, rolls: seq<int>): Result<GameState>
    decreases |rolls|
  {
    if |rolls| == 0 then Ok(s)
    else match Step(s, rolls[0])
      case Err(e) => Err(e)
      case Ok(t) => PlayFrom(t, rolls[1..])
  }

  /** The score `GetScore` reports after the rolls, or the exception they raise. */
  function ScoreOf(rolls: seq<int>): Result<int>
  {
    match PlayFrom(NewGame, rolls)
    case Err(e) => Err(e)
    case Ok(t) => Ok(t.score)
  }

  /** An accepted roll raises the score by the pins counted once plus once per
      owed bonus, so the score never decreases. */
  lemma RollScore(s: GameState, pins: int)
    requires Reachable(s)
    requires Step(s, pins).Ok?
    ensures Step(s, pins).value.score == s.score + pins * (1 + s.nextBonus)
    ensures Step(s, pins).value.score >= s.score
  {
    assert pins * (1 + s.nextBonus) >= 0;
  }

  /** The bonus queue shifts one slot per roll; a spare before the tenth frame
      owes one extra count to the next roll, a strike one to each of the next two. */
  lemma RollBonusQueue(s: GameState, pins: int)
    requires Step(s, pins).Ok?
    ensures var t := Step(s, pins).value;
            var frame := FrameAfter(s);
            && t.nextBonus == s.secondBonus + (if IsSpare(s, pins, frame) || IsStrike(s, pins, frame) then 1 else 0)
            && t.secondBonus == (if !IsSpare(s, pins, frame) && IsStrike(s, pins, frame) then 1 else 0)
  {
  }

  /** `frameCount` grows exactly on rolls made with `isFirstInFrame` set; a strike
      before the tenth frame keeps the next roll first in its frame, a spare resets
      it, and otherwise it toggles. */
  lemma RollFrames(s: GameState, pins: int)
    requires Step(s, pins).Ok?
    ensures var t := Step(s, pins).value;
            && t.frameCount == s.frameCount + (if s.isFirstInFrame then 1 else 0)
            && t.previousPins == pins
            && (IsStrike(s, pins, t.frameCount) ==> t.isFirstInFrame)
            && (IsSpare(s, pins, t.frameCount) ==> t.isFirstInFrame)
            && (!IsStrike(s, pins, t.frameCount) && !IsSpare(s, pins, t.frameCount) ==>
                  t.isFirstInFrame == !s.isFirstInFrame)
  {
  }

  /** Every accepted roll keeps the bounds of a reachable state. */
  lemma RollKeepsReachable(s: GameState, pins: int)
    requires Reachable(s)
    requires Step(s, pins).Ok?
    ensures Reachable(Step(s, pins).value)
  {
    RollScore(s, pins);
  }

  /** Every state a game reaches from a reachable state is reachable, and its
      score is at least the one it started from. */
  lemma {:induction false} PlayKeepsReachable(s: GameState, rolls: seq<int>)
    requires Reachable(s)
    requires PlayFrom(s, rolls).Ok?
    ensures Reachable(PlayFrom(s, rolls).value)
    ensures PlayFrom(s, rolls).value.score >= s.score
    decreases |rolls|
  {
    if rolls != [] {
      RollScore(s, rolls[0]);
      RollKeepsReachable(s, rolls[0]);
      PlayKeepsReachable(Step(s, rolls[0]).value, rolls[1..]);
    }
  }

  /** Whatever rolls a game accepts, the score it reports is never negative. */
  lemma ScoreNeverNegative(rolls: seq<int>)
    ensures ScoreOf(rolls).Ok? ==> ScoreOf(rolls).value >= 0
  {
    if PlayFrom(NewGame, rolls).Ok? {
      PlayKeepsReachable(NewGame, rolls);
    }
  }

  /** Continues a game that has not been rejected yet. */
  function Continue(r: Result<GameState>, rolls: seq<int>): Result<GameState>
  {
    match r
    case Err(e) => Err(e)
    case Ok(t) => PlayFrom(t, rolls)
  }

  /** Playing `xs` then `ys` is playing `xs + ys`: a game can be fed in pieces. */
  lemma {:induction false} PlayConcat(s: GameState, xs: seq<int>, ys: seq<int>)
    ensures PlayFrom(s, xs + ys) == Continue(PlayFrom(s, xs), ys)
    decreases |xs|
  {
    if xs != [] {
      assert (xs + ys)[0] == xs[0];
      assert (xs + ys)[1..] == xs[1..] + ys;
      if Step(s, xs[0]).Ok? {
        PlayConcat(Step(s, xs[0]).value, xs[1..], ys);
      }
    } else {
      assert xs + ys == ys;
    }
  }

  /** A rejected roll rejects the whole sequence after it: nothing later is scored. */
  lemma RejectedRollStops(s: GameState, rolls: seq<int>, pins: int, rest: seq<int>)
    requires PlayFrom(s, rolls).Ok?
    requires Step(PlayFrom(s, rolls).value, pins).Err?
    ensures PlayFrom(s, rolls + [pins] + rest) == Err(Step(PlayFrom(s, rolls).value, pins).error)
  {
    PlayConcat(s, rolls, [pins] + rest);
    assert rolls + [pins] + rest == rolls + ([pins] + rest);
    assert ([pins] + rest)[0] == pins;
  }

  /** A new game scores 0. */
  lemma NewGameScoresZero()
    ensures ScoreOf([]) == Ok(0)
  {
  }

  /** A single roll of 5 scores 5. */
  lemma FirstRollScenario()
    ensures ScoreOf([5]) == Ok(5)
  {
  }

  /** An open frame 5, 1 scores 6. */
  lemma OpenFrameScenario()
    ensures ScoreOf([5, 1]) == Ok(6)
  {
  }

  /** Rolls played one block after another. */
  lemma PlayAppend(s: GameState, xs: seq<int>, t: GameState, ys: seq<int>, u: GameState)
    requires PlayFrom(s, xs) == Ok(t)
    requires PlayFrom(t, ys) == Ok(u)
    ensures PlayFrom(s, xs + ys) == Ok(u)
  {
    PlayConcat(s, xs, ys);
  }

  /** The score reported once the rolls have brought a new game to state `t`. */
  lemma ScoreOfPlayed(rolls: seq<int>, t: GameState)
    requires PlayFrom(NewGame, rolls) == Ok(t)
    ensures ScoreOf(rolls) == Ok(t.score)
  {
  }

  /** One accepted roll, as a sequence of one roll. */
  lemma OneRoll(s: GameState, pins: int, t: GameState)
    requires Step(s, pins) == Ok(t)
    ensures PlayFrom(s, [pins]) == Ok(t)
  {
    assert [pins][1..] == [];
  }

  /** An open frame before the tenth: each roll counts once plus once per bonus
      owed to it, and no bonus is owed afterwards. */
  lemma OpenFrame(s: GameState, a: int, b: int)
    requires s.isFirstInFrame && 0 <= s.frameCount <= 8
    requires 0 <= a && 0 <= b && a + b < 10
    ensures PlayFrom(s, [a, b]) ==
              Ok(GameState(s.score + a + s.nextBonus * a + b + s.secondBonus * b, 0, 0, b, true, s.frameCount + 1))
  {
    var t := GameState(s.score + a + s.nextBonus * a, s.secondBonus, 0, a, false, s.frameCount + 1);
    var u := GameState(t.score + b + s.secondBonus * b, 0, 0, b, true, s.frameCount + 1);
    assert Step(s, a) == Ok(t);
    assert Step(t, b) == Ok(u);
    OneRoll(t, b, u);
    assert [a, b][1..] == [b];
  }

  /** A spare before the tenth frame: the next roll is owed one bonus count. */
  lemma SpareFrame(s: GameState, a: int, b: int)
    requires s.isFirstInFrame && 0 <= s.frameCount <= 8
    requires 0 <= a < 10 && b == 10 - a
    ensures PlayFrom(s, [a, b]) ==
              Ok(GameState(s.score + a + s.nextBonus * a + b + s.secondBonus * b, 1, 0, b, true, s.frameCount + 1))
  {
    var t := GameState(s.score + a + s.nextBonus * a, s.secondBonus, 0, a, false, s.frameCount + 1);
    var u := GameState(t.score + b + s.secondBonus * b, 1, 0, b, true, s.frameCount + 1);
    assert Step(s, a) == Ok(t);
    assert Step(t, b) == Ok(u);
    OneRoll(t, b, u);
    assert [a, b][1..] == [b];
  }

  /** A strike before the tenth frame: each of the next two rolls is owed one
      more bonus count. */
  lemma StrikeFrame(s: GameState)
    requires s.isFirstInFrame && 0 <= s.frameCount <= 8
    ensures PlayFrom(s, [10]) ==
              Ok(GameState(s.score + 10 + s.nextBonus * 10, s.secondBonus + 1, 1, 10, true, s.frameCount + 1))
  {
    var t := GameState(s.score + 10 + s.nextBonus * 10, s.secondBonus + 1, 1, 10, true, s.frameCount + 1);
    assert Step(s, 10) == Ok(t);
    OneRoll(s, 10, t);
  }

  /** The tenth frame with a fill roll: its rolls are not checked against each
      other, earn no new bonus, and the fill roll counts once. */
  lemma TenthFrame(s: GameState, a: int, b: int, c: int)
    requires s.isFirstInFrame && s.frameCount == 9
    requires 0 <= a <= 10 && 0 <= b <= 10 && 0 <= c <= 10
    ensures PlayFrom(s, [a, b, c]) ==
              Ok(GameState(s.score + a + s.nextBonus * a + b + s.secondBonus * b + c, 0, 0, c, false, 11))
  {
    var t := GameState(s.score + a + s.nextBonus * a, s.secondBonus, 0, a, false, 10);
    var u := GameState(t.score + b + s.secondBonus * b, 0, 0, b, true, 10);
    var v := GameState(u.score + c, 0, 0, c, false, 11);
    assert Step(s, a) == Ok(t);
    assert Step(t, b) == Ok(u);
    assert Step(u, c) == Ok(v);
    OneRoll(u, c, v);
    assert [b, c][1..] == [c];
    assert PlayFrom(t, [b, c]) == Ok(v);
    assert [a, b, c][1..] == [b, c];
  }

  /** 6, 4 is a spare: the next 4 counts twice, 6 + 4 + 8 + 4 = 22.  The rolls
      are a parameter fixed by the requires, so that the solver does not unfold
      `PlayFrom` on the literal sequence. */
  lemma SpareScenario(rolls: seq<int>)
    requires rolls == [6, 4] + [4, 4]
    ensures ScoreOf(rolls) == Ok(22)
  {
    SpareFrame(NewGame, 6, 4);
    var s1 := PlayFrom(NewGame, [6, 4]).value;
    assert s1.score == 10 && s1.nextBonus == 1 && s1.secondBonus == 0;
    OpenFrame(s1, 4, 4);
    var s2 := PlayFrom(s1, [4, 4]).value;
    PlayAppend(NewGame, [6, 4], s1, [4, 4], s2);
    ScoreOfPlayed(rolls, s2);
  }

  /** A strike counts the next two rolls again: 20 + 6 + 4 = 30. */
  lemma StrikeScenario()
    ensures ScoreOf([10] + [6, 4]) == Ok(30)
  {
    StrikeFrame(NewGame);
    var s1 := PlayFrom(NewGame, [10]).value;
    SpareFrame(s1, 6, 4);
    var s2 := PlayFrom(s1, [6, 4]).value;
    PlayAppend(NewGame, [10], s1, [6, 4], s2);
  }

  /** Two open frames and a strike whose bonus is the 4, 4 after it: 42. */
  lemma SeveralFramesScenario()
    ensures ScoreOf([4, 4] + [4, 4] + [10] + [4, 4]) == Ok(42)
  {
    OpenFrame(NewGame, 4, 4);
    var s1 := PlayFrom(NewGame, [4, 4]).value;
    OpenFrame(s1, 4, 4);
    var s2 := PlayFrom(s1, [4, 4]).value;
    PlayAppend(NewGame, [4, 4], s1, [4, 4], s2);
    StrikeFrame(s2);
    var s3 := PlayFrom(s2, [10]).value;
    PlayAppend(NewGame, [4, 4] + [4, 4], s2, [10], s3);
    OpenFrame(s3, 4, 4);
    var s4 := PlayFrom(s3, [4, 4]).value;
    PlayAppend(NewGame, [4, 4] + [4, 4] + [10], s3, [4, 4], s4);
  }

  /** Three strikes in a row: 10 + 20 + 30 = 60. */
  lemma ThreeStrikesScenario()
    ensures ScoreOf([10] + [10] + [10]) == Ok(60)
  {
    StrikeFrame(NewGame);
    var s1 := PlayFrom(NewGame, [10]).value;
    StrikeFrame(s1);
    var s2 := PlayFrom(s1, [10]).value;
    PlayAppend(NewGame, [10], s1, [10], s2);
    StrikeFrame(s2);
    var s3 := PlayFrom(s2, [10]).value;
    PlayAppend(NewGame, [10] + [10], s2, [10], s3);
  }

  /** The worked example game, ending with a spare and its fill roll in the
      tenth frame: 133. */
  lemma SampleGameScenario()
    ensures ScoreOf([1, 4] + [4, 5] + [6, 4] + [5, 5] + [10] + [0, 1] + [7, 3] + [6, 4] + [10] + [2, 8, 6]) == Ok(133)
  {
    OpenFrame(NewGame, 1, 4);
    var s1 := PlayFrom(NewGame, [1, 4]).value;
    OpenFrame(s1, 4, 5);
    var s2 := PlayFrom(s1, [4, 5]).value;
    PlayAppend(NewGame, [1, 4], s1, [4, 5], s2);
    SpareFrame(s2, 6, 4);
    var s3 := PlayFrom(s2, [6, 4]).value;
    PlayAppend(NewGame, [1, 4] + [4, 5], s2, [6, 4], s3);
    SpareFrame(s3, 5, 5);
    var s4 := PlayFrom(s3, [5, 5]).value;
    PlayAppend(NewGame, [1, 4] + [4, 5] + [6, 4], s3, [5, 5], s4);
    StrikeFrame(s4);
    var s5 := PlayFrom(s4, [10]).value;
    PlayAppend(NewGame, [1, 4] + [4, 5] + [6, 4] + [5, 5], s4, [10], s5);
    OpenFrame(s5, 0, 1);
    var s6 := PlayFrom(s5, [0, 1]).value;
    PlayAppend(NewGame, [1, 4] + [4, 5] + [6, 4] + [5, 5] + [10], s5, [0, 1], s6);
    SpareFrame(s6, 7, 3);
    var s7 := PlayFrom(s6, [7, 3]).value;
    PlayAppend(NewGame, [1, 4] + [4, 5] + [6, 4] + [5, 5] + [10] + [0, 1], s6, [7, 3], s7);
    SpareFrame(s7, 6, 4);
    var s8 := PlayFrom(s7, [6, 4]).value;
    PlayAppend(NewGame, [1, 4] + [4, 5] + [6, 4] + [5, 5] + [10] + [0, 1] + [7, 3], s7, [6, 4], s8);
    StrikeFrame(s8);
    var s9 := PlayFrom(s8, [10]).value;
    PlayAppend(NewGame, [1, 4] + [4, 5] + [6, 4] + [5, 5] + [10] + [0, 1] + [7, 3] + [6, 4], s8, [10], s9);
    TenthFrame(s9, 2, 8, 6);
    var s10 := PlayFrom(s9, [2, 8, 6]).value;
    PlayAppend(NewGame, [1, 4] + [4, 5] + [6, 4] + [5, 5] + [10] + [0, 1] + [7, 3] + [6, 4] + [10], s9, [2, 8, 6], s10);
  }

  /** Twelve strikes score 300: the tenth frame's two fill rolls count only once. */
  lemma PerfectGameScenario()
    ensures ScoreOf([10] + [10] + [10] + [10] + [10] + [10] + [10] + [10] + [10] + [10, 10, 10]) == Ok(300)
  {
    StrikeFrame(NewGame);
    var s1 := PlayFrom(NewGame, [10]).value;
    StrikeFrame(s1);
    var s2 := PlayFrom(s1, [10]).value;
    PlayAppend(NewGame, [10], s1, [10], s2);
    StrikeFrame(s2);
    var s3 := PlayFrom(s2, [10]).value;
    PlayAppend(NewGame, [10] + [10], s2, [10], s3);
    StrikeFrame(s3);
    var s4 := PlayFrom(s3, [10]).value;
    PlayAppend(NewGame, [10] + [10] + [10], s3, [10], s4);
    StrikeFrame(s4);
    var s5 := PlayFrom(s4, [10]).value;
    PlayAppend(NewGame, [10] + [10] + [10] + [10], s4, [10], s5);
    StrikeFrame(s5);
    var s6 := PlayFrom(s5, [10]).value;
    PlayAppend(NewGame, [10] + [10] + [10] + [10] + [10], s5, [10], s6);
    StrikeFrame(s6);
    var s7 := PlayFrom(s6, [10]).value;
    PlayAppend(NewGame, [10] + [10] + [10] + [10] + [10] + [10], s6, [10], s7);
    StrikeFrame(s7);
    var s8 := PlayFrom(s7, [10]).value;
    PlayAppend(NewGame, [10] + [10] + [10] + [10] + [10] + [10] + [10], s7, [10], s8);
    StrikeFrame(s8);
    var s9 := PlayFrom(s8, [10]).value;
    PlayAppend(NewGame, [10] + [10] + [10] + [10] + [10] + [10] + [10] + [10], s8, [10], s9);
    TenthFrame(s9, 10, 10, 10);
    var s10 := PlayFrom(s9, [10, 10, 10]).value;
    PlayAppend(NewGame, [10] + [10] + [10] + [10] + [10] + [10] + [10] + [10] + [10], s9, [10, 10, 10], s10);
  }

  /** 9 then 2 in one frame is rejected with the frame sum. */
  lemma OverflowScenario()
    ensures ScoreOf([9, 2]) == Err(FrameOverflow(11))
  {
  }

  /** 11 pins is rejected before anything is scored. */
  lemma OutOfRangeScenario()
    ensures ScoreOf([11]) == Err(PinsOutOfRange(11))
  {
  }

  /** -1 pins is rejected before anything is scored. */
  lemma NegativePinsScenario()
    ensures ScoreOf([-1]) == Err(PinsOutOfRange(-1))
  {
  }

  /** In the tenth frame the two rolls are not checked against each other:
      after a first roll of the tenth frame any second roll in [0, 10] is
      accepted, whatever the sum. */
  lemma TenthFrameSumUnchecked(s: GameState, pins: int)
    requires !s.isFirstInFrame && s.frameCount == 10
    requires 0 <= pins <= 10
    ensures Step(s, pins).Ok?
    ensures Step(s, pins).value.frameCount == 10 && Step(s, pins).value.isFirstInFrame
  {
  }

  /** Nothing limits the number of frames: once a frame is complete, a roll
      in [0, 10] is always accepted and opens the next frame, so a roll after
      an open tenth frame opens an eleventh. */
  lemma RollAfterLastFrameAccepted(s: GameState, pins: int)
    requires s.isFirstInFrame && s.frameCount >= 10
    requires 0 <= pins <= 10
    ensures Step(s, pins).Ok?
    ensures Step(s, pins).value.frameCount == s.frameCount + 1
    ensures Step(s, pins).value.score == s.score + pins * (1 + s.nextBonus)
  {
  }

  class Game {
    var score: int
    var nextCountBonus: array<int>
    var previousPins: int
    var isFirstInFrame: bool
    var frameCount: int

    ghost predicate Valid()
      reads this, nextCountBonus
    {
      nextCountBonus.Length == 2 && Reachable(State())
    }

    /** The abstract value of the object's fields. */
    function State(): GameState
      reads this, nextCountBonus
      requires nextCountBonus.Length == 2
    {
      GameState(score, nextCountBonus[0], nextCountBonus[1], previousPins, isFirstInFrame, frameCount)
    }

    constructor ()
      ensures Valid() && fresh(nextCountBonus)
      ensures State() == NewGame
    {
      nextCountBonus := new int[2](_ => 0);
      isFirstInFrame := true;
      score, previousPins, frameCount := 0, 0, 0;
    }

    /** `validate`: only reads the fields. */
    method CheckRoll(pins: int) returns (outcome: Outcome)
      requires nextCountBonus.Length == 2
      ensures outcome == Validate(State(), pins)
    {
      if pins > 10 || pins < 0 {
        return Fail(PinsOutOfRange(pins));
      }
      if !isFirstInFrame && frameCount != 10 && pins + previousPins > 10 {
        return Fail(FrameOverflow(pins + previousPins));
      }
      return Pass;
    }

    /** `Roll`: a rejected roll changes nothing; an accepted one moves to `Advance`. */
    method Roll(pins: int) returns (outcome: Outcome)
      requires Valid()
      modifies this, nextCountBonus
      ensures Valid() && nextCountBonus == old(nextCountBonus)
      ensures outcome == Validate(old(State()), pins)
      ensures outcome.Fail? ==> State() == old(State())
      ensures outcome.Pass? ==> State() == Advance(old(State()), pins)
      ensures Step(old(State()), pins) == if outcome.Pass? then Ok(State()) else Err(outcome.error)
    {
      outcome := CheckRoll(pins);
      if outcome.Fail? {
        return;
      }
      ghost var s := State();
      if isFirstInFrame {
        frameCount := frameCount + 1;
      }
      score := score + pins;
      score := score + nextCountBonus[0] * pins;
      nextCountBonus[0] := nextCountBonus[1];
      nextCountBonus[1] := 0;
      if frameCount < 10 && !isFirstInFrame && pins + previousPins == 10 {
        nextCountBonus[0] := nextCountBonus[0] + 1;
        isFirstInFrame := true;
      } else if frameCount < 10 && isFirstInFrame && pins == 10 {
        nextCountBonus[0] := nextCountBonus[0] + 1;
        nextCountBonus[1] := nextCountBonus[1] + 1;
      } else {
        isFirstInFrame := !isFirstInFrame;
      }
      previousPins := pins;
      assert State() == Advance(s, pins);
      RollKeepsReachable(s, pins);
    }

    method GetScore() returns (r: int)
      requires Valid()
      ensures r == State().score && r >= 0
    {
      r := score;
    }
  }

  /** The test driver `GetScoreTest`: a new game, every roll in order, then
      `GetScore`; the first rejected roll ends it with that roll's exception. */
  method ScoreOfRolls(rolls: seq<int>) returns (r: Result<int>)
    ensures r == ScoreOf(rolls)
    ensures r.Ok? ==> r.value >= 0
  {
    var game := new Game();
    var i := 0;
    while i < |rolls|
      invariant 0 <= i <= |rolls|
      invariant game.Valid() && fresh(game) && fresh(game.nextCountBonus)
      invariant PlayFrom(NewGame, rolls) == PlayFrom(game.State(), rolls[i..])
    {
      var outcome := game.Roll(rolls[i]);
      if outcome.Fail? {
        return Err(outcome.error);
      }
      assert rolls[i..][1..] == rolls[i + 1..];
      i := i + 1;
    }
    var score := game.GetScore();
    return Ok(score);
  }
}
