/* The discrete maze environment: the per-agent state with its fixed-length
   action, observation and reward histories, the reward of each kind of
   move, and the discrete step that moves the agent one cell, turns it
   towards the move's heading, or refuses the move. The maze layout (which
   cells exist, where the walls are) is a value; headings are degrees. */
module MazeEnvironment {
  import opened Wrappers
  import FeatureVectors
  import HanoiEnvironment

  type Cell = (int, int)

  /** The moves, in action order: +r, -r, +c, -c; action 4 does nothing. */
  const MOVES: seq<Cell> := [(1, 0), (-1, 0), (0, 1), (0, -1)]

  /** The heading of each move, degrees(atan2(dc, dr)). */
  const HEADINGS: seq<real> := [0.0, 180.0, 90.0, -90.0]

  /** The rewards of MazeRewardStructure. */
  const NULL_MOVE: real := -1.0
  const VALID_MOVE: real := -1.0
  const OUT_OF_BOUNDS: real := -5.0
  const HIT_WALL: real := -5.0
  const GOAL_REACHED: real := 100.0

  /** last_reward: how far along the diagonal the agent ended, as a
      percentage of rows + cols. */
  function LastReward(rc: Cell, rows: int, cols: int): (r: real)
    requires rows + cols != 0
    ensures 0 <= rc.0 < rows && 0 <= rc.1 < cols ==> 0.0 <= r < GOAL_REACHED
  {
    100.0 * (rc.0 + rc.1) as real / (rows + cols) as real
  }

  /** The maze: its size and the moves a wall blocks, per cell. */
  datatype Maze = Maze(rows: int, cols: int, walls: set<(Cell, Cell)>)

  predicate InBounds(m: Maze, rc: Cell) {
    0 <= rc.0 < m.rows && 0 <= rc.1 < m.cols
  }

  predicate IsWall(m: Maze, rc: Cell, move: Cell) {
    (rc, move) in m.walls
  }

  /** is_uniform: true exactly when there is at least one vector and all
      are equal. */
  method IsUniform(vv: seq<seq<real>>) returns (r: bool)
    ensures r <==> |vv| > 0 && forall i :: 0 <= i < |vv| ==> vv[i] == vv[0]
  {
    if |vv| == 0 {
      return false;
    }
    var i := 1;
    while i < |vv|
      invariant 1 <= i <= |vv|
      invariant forall j :: 0 <= j < i ==> vv[j] == vv[0]
    {
      if vv[i] != vv[0] {
        return false;
      }
      i := i + 1;
    }
    return true;
  }

  /** Python's x % 180 on a float: the remainder in [0, 180). */
  function Mod180(x: real): (r: real)
    ensures 0.0 <= r < 180.0
  {
    x - 180.0 * (x / 180.0).Floor as real
  }

  /** wrap_degrees as written: an angle past 180 becomes -180 plus its
      remainder modulo 180, one below -180 becomes 180 minus the remainder
      of its magnitude. */
  function WrapDegrees(a: real, da: real): (r: real)
    ensures -180.0 <= r <= 180.0
    ensures -180.0 <= a + da <= 180.0 ==> r == a + da
  {
    var a2 := a + da;
    if a2 > 180.0 then -180.0 + Mod180(a2)
    else if a2 < -180.0 then 180.0 - Mod180(if a2 >= 0.0 then a2 else -a2)
    else a2
  }

  /** Within less than a full turn either way, wrap_degrees brings the sum
      back into [-180, 180] by at most one full turn. */
  lemma WrapDegreesSingleOvershoot(a: real, da: real)
    requires -360.0 < a + da < 360.0
    ensures var r := WrapDegrees(a, da);
      -180.0 <= r <= 180.0 &&
      (r == a + da || r == a + da - 360.0 || r == a + da + 360.0)
  {
    var a2 := a + da;
    if a2 > 180.0 {
      assert 1.0 < a2 / 180.0 < 2.0;
      assert (a2 / 180.0).Floor == 1;
    } else if a2 < -180.0 {
      assert 1.0 < -a2 / 180.0 < 2.0;
      assert (-a2 / 180.0).Floor == 1;
    }
  }

  /** A sum of exactly a full turn is wrapped to -180, half a turn away from
      where it points. */
  lemma WrapDegreesFullTurn()
    ensures WrapDegrees(180.0, 180.0) == -180.0
    ensures WrapDegrees(-180.0, -180.0) == 180.0
  {
    assert (360.0 / 180.0).Floor == 2;
  }

  /** wrap_degrees as evidently intended: one full turn added or taken
      away. */
  function CorrectedWrapDegrees(a: real, da: real): (r: real)
    ensures -540.0 <= a + da <= 540.0 ==> -180.0 <= r <= 180.0
    ensures r == a + da || r == a + da - 360.0 || r == a + da + 360.0
  {
    var a2 := a + da;
    if a2 > 180.0 then a2 - 360.0
    else if a2 < -180.0 then a2 + 360.0
    else a2
  }

  /** The corrected wrap agrees with the written one wherever that one keeps
      the direction, and sends a full turn to 0. */
  lemma CorrectedWrapAgrees(a: real, da: real)
    requires -360.0 < a + da < 360.0
    ensures CorrectedWrapDegrees(a, da) == WrapDegrees(a, da)
    ensures CorrectedWrapDegrees(180.0, 180.0) == 0.0
  {
    WrapDegreesSingleOvershoot(a, da);
  }

  /** The turn step as written: towards a heading to the left, by at most
      90 degrees; towards one to the right, always by 90 degrees. */
  function Turn(prev: real, target: real): (h: real)
    ensures prev < target ==> prev < h <= target && h <= prev + 90.0
    ensures target <= prev ==> h == prev - 90.0
  {
    if target - prev > 0.0 then
      (if target - prev > 90.0 then prev + 90.0 else target)
    else
      (if target - prev < 90.0 then prev - 90.0 else target)
  }

  /** The right turn's 90-degree cap always applies, so a heading less than
      90 degrees to the right is overshot. */
  lemma TurnOvershoots(prev: real, target: real)
    requires target < prev
    ensures Turn(prev, target) == prev - 90.0
    ensures prev - 90.0 < target ==> Turn(prev, target) < target
  {
  }

  /** The turn step as evidently intended: towards the target by at most 90
      degrees either way. */
  function CorrectedTurn(prev: real, target: real): (h: real)
    ensures prev <= target ==> prev <= h <= target && h <= prev + 90.0
    ensures target <= prev ==> target <= h <= prev && h >= prev - 90.0
    ensures h == target <==> -90.0 <= target - prev <= 90.0
  {
    if target - prev > 0.0 then
      (if target - prev > 90.0 then prev + 90.0 else target)
    else
      (if target - prev < -90.0 then prev - 90.0 else target)
  }

  /** Left turns are the same either way; right turns differ exactly when
      the target is less than 90 degrees away. */
  lemma CorrectedTurnAgrees(prev: real, target: real)
    ensures target > prev ==> CorrectedTurn(prev, target) == Turn(prev, target)
    ensures target < prev ==>
      (CorrectedTurn(prev, target) == Turn(prev, target) <==> target <= prev - 90.0)
  {
  }

  /** The part of an agent's state the discrete step reads and writes. */
  datatype Pose = Pose(rc: Cell, heading: real, initialHeading: real, goalReached: bool)

  /** A valid action is one number within [0, 3]. */
  predicate ValidAction(action: seq<real>) {
    FeatureVectors.Validates([0.0], [3.0], action)
  }

  /** The target cell of move a from rc. */
  function Target(rc: Cell, a: nat): Cell
    requires a < 4
  {
    (rc.0 + MOVES[a].0, rc.1 + MOVES[a].1)
  }

  /** The discrete step on the pose: the new pose and the reward. An invalid
      or null action costs a null move; on the agent's first step its
      rotation becomes the initial one; a move out of the maze or into a
      wall is refused; a move whose heading is not the current one only
      turns; otherwise the agent moves, and reaching the far corner or the
      last step earns its reward. */
  function StepPose(m: Maze, maxSteps: int, p: Pose, action: seq<real>, agentStep: int, agentHeading: real): (r: (Pose, real))
    ensures r.0.rc != p.rc ==> InBounds(m, r.0.rc)
    ensures r.0.goalReached != p.goalReached ==> r.0.rc == (m.rows - 1, m.cols - 1) && r.1 == GOAL_REACHED
  {
    if !ValidAction(action) then (p, NULL_MOVE)
    else
      var p1 := if agentStep == 0 then p.(initialHeading := agentHeading) else p;
      var a := HanoiEnvironment.Round(action[0]);
      if a == |MOVES| then (p1, NULL_MOVE)
      else
        assert 0 <= a < 4;
        var target := Target(p1.rc, a);
        var newHeading := p1.initialHeading + HEADINGS[a];
        if !InBounds(m, target) then (p1, OUT_OF_BOUNDS)
        else if IsWall(m, p1.rc, MOVES[a]) then (p1, HIT_WALL)
        else if newHeading != p1.heading then (p1.(heading := Turn(p1.heading, newHeading)), VALID_MOVE)
        else if target == (m.rows - 1, m.cols - 1) then (p1.(rc := target, goalReached := true), GOAL_REACHED)
        else if agentStep >= maxSteps - 1 then (p1.(rc := target), LastReward(target, m.rows, m.cols))
        else (p1.(rc := target), VALID_MOVE)
  }

  /** The agent only ever moves by one unblocked move into the maze; a move
      out of bounds or into a wall leaves it where it was, at a cost of 5. */
  lemma StepMovesLegally(m: Maze, maxSteps: int, p: Pose, action: seq<real>, agentStep: int, agentHeading: real)
    ensures var (q, _) := StepPose(m, maxSteps, p, action, agentStep, agentHeading);
      q.rc == p.rc ||
      exists a :: 0 <= a < 4 && q.rc == Target(p.rc, a) && InBounds(m, q.rc) && !IsWall(m, p.rc, MOVES[a])
    ensures var (q, r) := StepPose(m, maxSteps, p, action, agentStep, agentHeading);
      ValidAction(action) && 0 <= HanoiEnvironment.Round(action[0]) < 4 ==>
        var a := HanoiEnvironment.Round(action[0]);
        (!InBounds(m, Target(p.rc, a)) || IsWall(m, p.rc, MOVES[a])) ==> q.rc == p.rc && r == -5.0
  {
  }

  /** The goal reward is paid exactly when the agent steps onto the far
      corner, and the goal stays reached once it is. */
  lemma StepGoal(m: Maze, maxSteps: int, p: Pose, action: seq<real>, agentStep: int, agentHeading: real)
    ensures var (q, r) := StepPose(m, maxSteps, p, action, agentStep, agentHeading);
      (r == GOAL_REACHED <==> q.rc != p.rc && q.rc == (m.rows - 1, m.cols - 1)) &&
      (p.goalReached ==> q.goalReached)
  {
    var (q, r) := StepPose(m, maxSteps, p, action, agentStep, agentHeading);
    if ValidAction(action) && HanoiEnvironment.Round(action[0]) != 4 && q.rc != p.rc {
      var a := HanoiEnvironment.Round(action[0]);
      assert q.rc == Target(p.rc, a) && InBounds(m, q.rc);
    }
  }

  /** Every reward lies between -5 and 100. */
  lemma StepRewardRange(m: Maze, maxSteps: int, p: Pose, action: seq<real>, agentStep: int, agentHeading: real)
    ensures var (_, r) := StepPose(m, maxSteps, p, action, agentStep, agentHeading);
      -5.0 <= r <= 100.0
  {
  }

  /** The per-agent state. The histories hold the last historyLength
      actions, observations and rewards, oldest first; get_reward drops one
      reward without replacing it. */
  class AgentState {
    var rc: Cell
    var heading: real
    var initialHeading: real
    var goalReached: bool
    var actionHistory: seq<seq<real>>
    var observationHistory: seq<seq<real>>
    var rewardHistory: seq<real>
    const historyLength: nat

    predicate Valid()
      reads this
    {
      |actionHistory| == historyLength && |observationHistory| == historyLength &&
      |rewardHistory| <= historyLength
    }

    function PoseOf(): Pose
      reads this
    {
      Pose(rc, heading, initialHeading, goalReached)
    }

    /** The initial histories: the vectors [0], [1], ... and zero rewards. */
    static function Counting(n: nat): (h: seq<seq<real>>)
      ensures |h| == n && forall i :: 0 <= i < n ==> h[i] == [i as real]
    {
      seq(n, i => [i as real])
    }

    constructor(historyLength: nat)
      ensures Valid() && this.historyLength == historyLength
      ensures rc == (0, 0) && heading == 0.0 && initialHeading == 0.0 && !goalReached
      ensures actionHistory == Counting(historyLength) && observationHistory == Counting(historyLength)
      ensures rewardHistory == seq(historyLength, _ => 0.0)
    {
      this.historyLength := historyLength;
      rc, heading, initialHeading, goalReached := (0, 0), 0.0, 0.0, false;
      actionHistory := Counting(historyLength);
      observationHistory := Counting(historyLength);
      rewardHistory := seq(historyLength, _ => 0.0);
    }

    /** reset: back at (0, 0), goal not reached, fresh histories; the pose's
        heading is kept. */
    method Reset()
      modifies this
      ensures Valid()
      ensures rc == (0, 0) && !goalReached
      ensures heading == old(heading) && initialHeading == old(initialHeading)
      ensures actionHistory == Counting(historyLength) && observationHistory == Counting(historyLength)
      ensures rewardHistory == seq(historyLength, _ => 0.0)
    {
      rc, goalReached := (0, 0), false;
      actionHistory := Counting(historyLength);
      observationHistory := Counting(historyLength);
      rewardHistory := seq(historyLength, _ => 0.0);
    }

    /** record_action: the oldest action dropped, the new one appended; an
        IndexError when the history is empty. */
    method RecordAction(action: seq<real>) returns (r: Result<(), string>)
      requires Valid()
      modifies this`actionHistory
      ensures Valid()
      ensures old(actionHistory) == [] ==> r == Err("IndexError") && actionHistory == old(actionHistory)
      ensures old(actionHistory) != [] ==> r == Ok(()) && actionHistory == old(actionHistory)[1..] + [action]
    {
      if actionHistory == [] {
        return Err("IndexError");
      }
      actionHistory := actionHistory[1..] + [action];
      r := Ok(());
    }

    /** record_observation, likewise. */
    method RecordObservation(obs: seq<real>) returns (r: Result<(), string>)
      requires Valid()
      modifies this`observationHistory
      ensures Valid()
      ensures old(observationHistory) == [] ==> r == Err("IndexError") && observationHistory == old(observationHistory)
      ensures old(observationHistory) != [] ==> r == Ok(()) && observationHistory == old(observationHistory)[1..] + [obs]
    {
      if observationHistory == [] {
        return Err("IndexError");
      }
      observationHistory := observationHistory[1..] + [obs];
      r := Ok(());
    }

    /** record_reward: likewise, handing the reward back. */
    method RecordReward(reward: real) returns (r: Result<real, string>)
      requires Valid()
      modifies this`rewardHistory
      ensures Valid()
      ensures old(rewardHistory) == [] ==> r == Err("IndexError") && rewardHistory == old(rewardHistory)
      ensures old(rewardHistory) != [] ==> r == Ok(reward) && rewardHistory == old(rewardHistory)[1..] + [reward]
    {
      if rewardHistory == [] {
        return Err("IndexError");
      }
      rewardHistory := rewardHistory[1..] + [reward];
      r := Ok(reward);
    }

    /** is_stuck: the same action and the same observation all along the
        histories. */
    method IsStuck() returns (r: bool)
      requires Valid()
      ensures r <==> (historyLength > 0 &&
        (forall i :: 0 <= i < |actionHistory| ==> actionHistory[i] == actionHistory[0]) &&
        (forall i :: 0 <= i < |observationHistory| ==> observationHistory[i] == observationHistory[0]))
    {
      var a := IsUniform(actionHistory);
      if !a {
        return false;
      }
      r := IsUniform(observationHistory);
    }

    /** get_reward: the oldest reward, taken out of the history; an
        AssertionError (the reward already taken out) when the rest differ
        from it, an IndexError when there is none. */
    method GetReward() returns (r: Result<real, string>)
      requires Valid()
      modifies this`rewardHistory
      ensures Valid()
      ensures old(rewardHistory) == [] ==> r == Err("IndexError") && rewardHistory == []
      ensures old(rewardHistory) != [] ==> (rewardHistory == old(rewardHistory)[1..] &&
        (r.Ok? <==> forall i :: 0 <= i < |rewardHistory| ==> rewardHistory[i] == old(rewardHistory)[0]) &&
        (r.Ok? ==> r.value == old(rewardHistory)[0]) &&
        (r.Err? ==> r.error == "AssertionError"))
    {
      if rewardHistory == [] {
        return Err("IndexError");
      }
      var r0 := rewardHistory[0];
      rewardHistory := rewardHistory[1..];
      var i := 0;
      while i < |rewardHistory|
        invariant 0 <= i <= |rewardHistory|
        invariant forall j :: 0 <= j < i ==> rewardHistory[j] == r0
      {
        if rewardHistory[i] != r0 {
          return Err("AssertionError");
        }
        i := i + 1;
      }
      r := Ok(r0);
    }
  }

  /** The environment: the maze and the step budget of an episode. */
  class Environment {
    const maze: Maze
    const maxSteps: int

    constructor(maze: Maze, maxSteps: int)
      ensures this.maze == maze && this.maxSteps == maxSteps
    {
      this.maze := maze;
      this.maxSteps := maxSteps;
    }

    /** step: the action recorded, the pose stepped, the reward recorded and
        returned. An empty action history stops the step before anything
        else changes; an empty reward history fails it at the end. */
    method Step(state: AgentState, action: seq<real>, agentStep: int, agentHeading: real)
      returns (r: Result<real, string>)
      requires state.Valid()
      modifies state
      ensures state.Valid()
      ensures state.observationHistory == old(state.observationHistory)
      ensures old(state.actionHistory) == [] ==>
        r == Err("IndexError") && state.PoseOf() == old(state.PoseOf()) &&
        state.rewardHistory == old(state.rewardHistory) && state.actionHistory == []
      ensures old(state.actionHistory) != [] ==>
        var (q, reward) := StepPose(maze, maxSteps, old(state.PoseOf()), action, agentStep, agentHeading);
        state.PoseOf() == q &&
        state.actionHistory == old(state.actionHistory)[1..] + [action] &&
        (old(state.rewardHistory) == [] ==> r == Err("IndexError") && state.rewardHistory == []) &&
        (old(state.rewardHistory) != [] ==> (r == Ok(reward) &&
          state.rewardHistory == old(state.rewardHistory)[1..] + [reward]))
    {
      var ok := state.RecordAction(action);
      if ok.Err? {
        return Err(ok.error);
      }
      var (q, reward) := StepPose(maze, maxSteps, state.PoseOf(), action, agentStep, agentHeading);
      state.rc, state.heading, state.initialHeading, state.goalReached := q.rc, q.heading, q.initialHeading, q.goalReached;
      r := state.RecordReward(reward);
    }
  }
}
