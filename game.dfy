/** The game window of `main.py`: the stopped/running/paused state machine
    driven by the Start button, the guard of the timer tick, and the win
    rules checked on every tick. */
module Game {
  import opened Common
  import opened TargetZone

  /** The values of `game_state`. */
  datatype GameState = Stopped | Running | Paused

  /** What `check_game_state` decides. */
  datatype Verdict = RedWins | BlueWins | NoWinner

  /** `block_distance` of `check_game_state`. */
  const BlockDistance: real := 0.5

  /** The state the Start button leads to. */
  function Pressed(s: GameState): GameState {
    match s
    case Stopped => Running
    case Running => Paused
    case Paused => Running
  }

  /** The button never stops the game, and pressing it twice from running
      or paused comes back to the same state. */
  lemma PressedSpec(s: GameState)
    ensures Pressed(s) != Stopped
    ensures Pressed(s) == Running <==> s != Running
    ensures s != Stopped ==> Pressed(Pressed(s)) == s
  {
  }

  /** A blue robot at `blue` blocks a red robot at `red`: `hypot <= 0.5`. */
  predicate Blocks(red: Point, blue: Point) {
    HypotAtMost(red.x - blue.x, red.y - blue.y, BlockDistance)
  }

  predicate BlockedBySome(red: Point, blues: seq<Point>) {
    exists k :: 0 <= k < |blues| && Blocks(red, blues[k])
  }

  predicate SomeRedInZone(zone: Zone, reds: seq<Point>)
    requires Defined(zone)
  {
    exists k :: 0 <= k < |reds| && Contains(zone, reds[k].x, reds[k].y)
  }

  /** How many red robots, in order, are blocked by at least one blue
      robot: the final value of the `blocked` counter. */
  function CountBlocked(reds: seq<Point>, blues: seq<Point>): nat {
    if reds == [] then 0
    else CountBlocked(reds[..|reds| - 1], blues) + (if BlockedBySome(reds[|reds| - 1], blues) then 1 else 0)
  }

  /** Each red robot adds at most one, and the counter reaches the number
      of red robots exactly when every red robot is blocked. */
  lemma {:induction false} CountBlockedAll(reds: seq<Point>, blues: seq<Point>)
    ensures CountBlocked(reds, blues) <= |reds|
    ensures CountBlocked(reds, blues) == |reds| <==> forall k :: 0 <= k < |reds| ==> BlockedBySome(reds[k], blues)
  {
    if reds != [] {
      var init := reds[..|reds| - 1];
      CountBlockedAll(init, blues);
      assert forall k :: 0 <= k < |init| ==> init[k] == reds[k];
    }
  }

  /** The outcome of `check_game_state` on the robots' positions. */
  function Judge(zone: Zone, reds: seq<Point>, blues: seq<Point>): Verdict
    requires Defined(zone)
  {
    if SomeRedInZone(zone, reds) then RedWins
    else if CountBlocked(reds, blues) == |reds| then BlueWins
    else NoWinner
  }

  /** Red wins exactly when one of its robots is in the target zone; blue
      wins exactly when no red robot is in the zone and every red robot is
      within `BlockDistance` of a blue one, so blue wins at once when there
      are no red robots. */
  lemma JudgeSpec(zone: Zone, reds: seq<Point>, blues: seq<Point>)
    requires Defined(zone)
    ensures Judge(zone, reds, blues) == RedWins <==> SomeRedInZone(zone, reds)
    ensures Judge(zone, reds, blues) == BlueWins <==>
      !SomeRedInZone(zone, reds) && forall k :: 0 <= k < |reds| ==> BlockedBySome(reds[k], blues)
    ensures reds == [] ==> Judge(zone, reds, blues) == BlueWins
  {
    CountBlockedAll(reds, blues);
  }

  /** The inner loop of the blocked count: scan the blue robots and stop at
      the first one within `BlockDistance`. */
  method IsBlocked(red: Point, blues: seq<Point>) returns (blocked: bool)
    ensures blocked <==> BlockedBySome(red, blues)
  {
    var j := 0;
    while j < |blues|
      invariant 0 <= j <= |blues|
      invariant forall b :: 0 <= b < j ==> !Blocks(red, blues[b])
    {
      if Blocks(red, blues[j]) {
        return true;
      }
      j := j + 1;
    }
    return false;
  }

  class Game {
    var gameState: GameState
    var isRunning: bool

    /** The timer only runs the game in the running state. */
    ghost predicate Valid()
      reads this
    {
      isRunning ==> gameState == Running
    }

    /** `__init__`: stopped, not running. */
    constructor ()
      ensures gameState == Stopped && !isRunning
      ensures Valid()
    {
      gameState, isRunning := Stopped, false;
    }

    /** `start_game`: the Start button moves stopped to running, running to
        paused and paused to running; the game runs exactly when the new
        state is running. */
    method StartGame()
      modifies this
      ensures gameState == Pressed(old(gameState))
      ensures isRunning <==> gameState == Running
      ensures Valid()
    {
      if gameState == Stopped {
        gameState := Running;
        isRunning := true;
      } else if gameState == Running {
        gameState := Paused;
        isRunning := false;
      } else if gameState == Paused {
        gameState := Running;
        isRunning := true;
      }
    }

    /** `check_game_state`: red wins first, then blue wins when the blocked
        counter reaches the number of red robots. A win stops the game
        without changing `game_state`. */
    method CheckGameState(zone: Zone, reds: seq<Point>, blues: seq<Point>) returns (verdict: Verdict)
      requires Defined(zone)
      modifies this
      ensures verdict == Judge(zone, reds, blues)
      ensures isRunning == (old(isRunning) && verdict == NoWinner)
      ensures gameState == old(gameState)
      ensures old(Valid()) ==> Valid()
    {
      var k := 0;
      while k < |reds|
        invariant 0 <= k <= |reds|
        invariant forall a :: 0 <= a < k ==> !Contains(zone, reds[a].x, reds[a].y)
        invariant unchanged(this)
      {
        if Contains(zone, reds[k].x, reds[k].y) {
          isRunning := false;
          return RedWins;
        }
        k := k + 1;
      }
      var blocked := 0;
      for i := 0 to |reds|
        invariant blocked == CountBlocked(reds[..i], blues)
        invariant unchanged(this)
      {
        var b := IsBlocked(reds[i], blues);
        if b {
          blocked := blocked + 1;
        }
        assert reds[..i + 1][..i] == reds[..i];
      }
      assert reds[..|reds|] == reds;
      if blocked == |reds| {
        isRunning := false;
        return BlueWins;
      }
      return NoWinner;
    }

    /** `game_loop`: a tick does nothing unless the game is running; then
        (after the robots have moved) it checks the win rules. */
    method GameLoop(zone: Zone, reds: seq<Point>, blues: seq<Point>) returns (verdict: Option<Verdict>)
      requires Defined(zone)
      modifies this
      ensures !old(isRunning) ==> verdict == None && isRunning == old(isRunning)
      ensures old(isRunning) ==> verdict == Some(Judge(zone, reds, blues)) && (isRunning <==> verdict.value == NoWinner)
      ensures gameState == old(gameState)
      ensures old(Valid()) ==> Valid()
    {
      if !isRunning {
        return None;
      }
      var v := CheckGameState(zone, reds, blues);
      return Some(v);
    }
  }

  /** After a win the state is still running but the game is stopped: the
      first press of Start pauses it and only the second resumes it. */
  method ResumeAfterWin(g: Game)
    requires g.gameState == Running && !g.isRunning
    modifies g
    ensures g.gameState == Running && g.isRunning
  {
    g.StartGame();
    assert g.gameState == Paused && !g.isRunning;
    g.StartGame();
  }
}
