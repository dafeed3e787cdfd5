/** A deterministic, boundary-clamped grid-navigation environment.
    The agent occupies a cell of a width-by-height grid whose origin is the
    top-left corner, moves one cell per step in one of four directions, and
    is rewarded with 1 exactly when it stands on the active goal cell.
    Each task of the environment is one goal cell. */
module GridWorld {

  /** A grid cell: column `x` (growing to the right) and row `y` (growing downwards). */
  datatype Cell = Cell(x: int, y: int)

  /** The observation handed to the agent: its position and its Manhattan distance to the goal. */
  datatype Obs = Obs(x: int, y: int, dist: int)

  // The four actions.
  const Up := 0
  const Right := 1
  const Down := 2
  const Left := 3

  const Origin := Cell(0, 0)

  /** The hand-coded goals of the fixed task list. */
  const FixedGoals := [Cell(3, 1), Cell(1, 3), Cell(2, 2), Cell(4, 0), Cell(0, 4)]

  /** The default grid size. */
  const DefaultWidth := 5
  const DefaultHeight := 5

  predicate InGrid(c: Cell, width: int, height: int) {
    0 <= c.x < width && 0 <= c.y < height
  }

  predicate AllInGrid(cells: seq<Cell>, width: int, height: int) {
    forall i :: 0 <= i < |cells| ==> InGrid(cells[i], width, height)
  }

  function Abs(n: int): nat {
    if n < 0 then -n else n
  }

  /** Manhattan distance between two cells. */
  function Distance(a: Cell, b: Cell): nat {
    Abs(b.x - a.x) + Abs(b.y - a.y)
  }

  /** The cell one unit step away in the direction of `action`; an action that
      names no direction displaces nothing. This is the unclamped move, the
      reference against which the edge rule is stated. */
  function Shift(p: Cell, action: int): Cell {
    if action == Up then Cell(p.x, p.y - 1)
    else if action == Right then Cell(p.x + 1, p.y)
    else if action == Down then Cell(p.x, p.y + 1)
    else if action == Left then Cell(p.x - 1, p.y)
    else p
  }

  /** The edge rule: a move is refused when it would cross the edge of the grid.
      For a cell inside the grid this is exactly "the shifted cell is still inside". */
  function Moveable(p: Cell, action: int, width: int, height: int): (r: bool)
    ensures InGrid(p, width, height) ==> (r <==> InGrid(Shift(p, action), width, height))
    ensures !(0 <= action <= 3) ==> r
  {
    if action == Up && p.y == 0 then false
    else if action == Right && p.x == width - 1 then false
    else if action == Down && p.y == height - 1 then false
    else if action == Left && p.x == 0 then false
    else true
  }

  /** The position after one step: the shifted cell when the edge rule allows it, else unchanged. */
  function Next(p: Cell, action: int, width: int, height: int): (q: Cell)
    ensures InGrid(p, width, height) ==> InGrid(q, width, height)
    ensures q == p || Distance(p, q) == 1
  {
    if Moveable(p, action, width, height) then Shift(p, action) else p
  }

  /** The observation of position `p` when the goal is `goal`. */
  function Observe(p: Cell, goal: Cell): (o: Obs)
    ensures o.x == p.x && o.y == p.y
    ensures o.dist == 0 <==> p == goal
  {
    Obs(p.x, p.y, Distance(p, goal))
  }

  /** The sparse reward: 1 on the goal, 0 elsewhere. */
  function Reward(p: Cell, goal: Cell): (r: int)
    ensures r == 0 || r == 1
    ensures r == 1 <==> p == goal
  {
    if p == goal then 1 else 0
  }

  /** The indices 0, 1, ..., n-1 in order. */
  function Range(n: nat): (r: seq<nat>)
    ensures |r| == n
    ensures forall i :: 0 <= i < n ==> r[i] == i
  {
    if n == 0 then [] else Range(n - 1) + [n - 1]
  }

  /** The position reached from `p` after taking `actions` one after the other. */
  function Walk(p: Cell, actions: seq<int>, width: int, height: int): Cell
    decreases |actions|
  {
    if actions == [] then p
    else Walk(Next(p, actions[0], width, height), actions[1..], width, height)
  }

  /** The action `a` repeated `n` times. */
  function Repeat(a: int, n: nat): (r: seq<int>)
    ensures |r| == n
    ensures forall i :: 0 <= i < n ==> r[i] == a
  {
    if n == 0 then [] else [a] + Repeat(a, n - 1)
  }

  /** A shortest route from `p` to `g`: first along the row, then along the column. */
  function PathTo(p: Cell, g: Cell): (actions: seq<int>)
    ensures |actions| == Distance(p, g)
    decreases Distance(p, g)
  {
    if p.x < g.x then [Right] + PathTo(Cell(p.x + 1, p.y), g)
    else if g.x < p.x then [Left] + PathTo(Cell(p.x - 1, p.y), g)
    else if p.y < g.y then [Down] + PathTo(Cell(p.x, p.y + 1), g)
    else if g.y < p.y then [Up] + PathTo(Cell(p.x, p.y - 1), g)
    else []
  }

  /** Clamping a cell into the grid, one coordinate at a time. */
  function Clamp(c: Cell, width: int, height: int): Cell
    requires 1 <= width && 1 <= height
  {
    Cell(if c.x < 0 then 0 else if c.x > width - 1 then width - 1 else c.x,
         if c.y < 0 then 0 else if c.y > height - 1 then height - 1 else c.y)
  }

  // ---------------------------------------------------------------------
  // Properties of the transition model
  // ---------------------------------------------------------------------

  /** Each edge blocks exactly the move that would cross it. */
  lemma EdgeMovesAreNoops(p: Cell, width: int, height: int)
    ensures p.y == 0 ==> Next(p, Up, width, height) == p
    ensures p.x == width - 1 ==> Next(p, Right, width, height) == p
    ensures p.y == height - 1 ==> Next(p, Down, width, height) == p
    ensures p.x == 0 ==> Next(p, Left, width, height) == p
  {
  }

  /** A blocked move stays blocked: repeating it is idempotent. */
  lemma BlockedMoveIdempotent(p: Cell, action: int, width: int, height: int)
    requires !Moveable(p, action, width, height)
    ensures Next(Next(p, action, width, height), action, width, height) == Next(p, action, width, height)
  {
  }

  /** Repeating a blocked move any number of times never leaves the cell. */
  lemma {:induction false} RepeatBlockedStays(p: Cell, action: int, n: nat, width: int, height: int)
    requires !Moveable(p, action, width, height)
    ensures Walk(p, Repeat(action, n), width, height) == p
  {
    if n > 0 {
      var rest := Repeat(action, n - 1);
      assert Repeat(action, n) == [action] + rest;
      assert Repeat(action, n)[1..] == rest;
      RepeatBlockedStays(p, action, n - 1, width, height);
    }
  }

  /** An allowed move adds exactly the unit vector of its direction; any other action stays put. */
  lemma UnitStep(p: Cell, action: int, width: int, height: int)
    ensures Moveable(p, action, width, height) && action == Up ==> Next(p, action, width, height) == Cell(p.x, p.y - 1)
    ensures Moveable(p, action, width, height) && action == Right ==> Next(p, action, width, height) == Cell(p.x + 1, p.y)
    ensures Moveable(p, action, width, height) && action == Down ==> Next(p, action, width, height) == Cell(p.x, p.y + 1)
    ensures Moveable(p, action, width, height) && action == Left ==> Next(p, action, width, height) == Cell(p.x - 1, p.y)
    ensures !(0 <= action <= 3) ==> Next(p, action, width, height) == p
    ensures Moveable(p, action, width, height) && 0 <= action <= 3 ==> Distance(p, Next(p, action, width, height)) == 1
  {
  }

  /** Inside the grid the step is the unclamped move clamped back into the grid. */
  lemma NextIsClampedShift(p: Cell, action: int, width: int, height: int)
    requires InGrid(p, width, height)
    ensures Next(p, action, width, height) == Clamp(Shift(p, action), width, height)
  {
  }

  /** A walk that starts inside the grid stays inside it. */
  lemma {:induction false} WalkStaysInGrid(p: Cell, actions: seq<int>, width: int, height: int)
    requires InGrid(p, width, height)
    ensures InGrid(Walk(p, actions, width, height), width, height)
    decreases |actions|
  {
    if actions != [] {
      WalkStaysInGrid(Next(p, actions[0], width, height), actions[1..], width, height);
    }
  }

  /** Each step moves at most one cell, so a walk ends within |actions| of where it began. */
  lemma {:induction false} WalkDistanceBound(p: Cell, actions: seq<int>, width: int, height: int)
    ensures Distance(p, Walk(p, actions, width, height)) <= |actions|
    decreases |actions|
  {
    if actions != [] {
      var q := Next(p, actions[0], width, height);
      WalkDistanceBound(q, actions[1..], width, height);
      TriangleInequality(p, q, Walk(q, actions[1..], width, height));
    }
  }

  lemma TriangleInequality(a: Cell, b: Cell, c: Cell)
    ensures Distance(a, c) <= Distance(a, b) + Distance(b, c)
  {
  }

  /** Following PathTo from a cell inside the grid reaches the goal. */
  lemma {:induction false} PathToReachesGoal(p: Cell, g: Cell, width: int, height: int)
    requires InGrid(p, width, height) && InGrid(g, width, height)
    ensures Walk(p, PathTo(p, g), width, height) == g
    decreases Distance(p, g)
  {
    var path := PathTo(p, g);
    if path != [] {
      var q := Next(p, path[0], width, height);
      assert q == Shift(p, path[0]);
      assert path[1..] == PathTo(q, g);
      PathToReachesGoal(q, g, width, height);
    }
  }

  /** The Manhattan distance is the length of an optimal solution: some action
      sequence of that length reaches the goal, and none shorter does. */
  lemma OptimalStepsToGoal(p: Cell, g: Cell, width: int, height: int)
    requires InGrid(p, width, height) && InGrid(g, width, height)
    ensures |PathTo(p, g)| == Distance(p, g) && Walk(p, PathTo(p, g), width, height) == g
    ensures forall actions :: Walk(p, actions, width, height) == g ==> Distance(p, g) <= |actions|
  {
    PathToReachesGoal(p, g, width, height);
    forall actions | Walk(p, actions, width, height) == g
      ensures Distance(p, g) <= |actions|
    {
      WalkDistanceBound(p, actions, width, height);
    }
  }

  /** The observation lies in the box [0, width+height]^3, and the distance is
      at most width+height-2, when agent and goal are inside the grid. */
  lemma ObservationInBox(p: Cell, goal: Cell, width: int, height: int)
    requires InGrid(p, width, height) && InGrid(goal, width, height)
    ensures var o := Observe(p, goal);
      0 <= o.x < width && 0 <= o.y < height && o.dist <= width + height - 2 &&
      o.x <= width + height && o.y <= width + height && o.dist <= width + height
  {
  }

  /** At the origin the agent sees its distance to the goal as the goal's coordinates summed. */
  lemma ObserveAtOrigin(goal: Cell)
    requires 0 <= goal.x && 0 <= goal.y
    ensures Observe(Origin, goal) == Obs(0, 0, goal.x + goal.y)
  {
  }

  /** The reward is 1 exactly when the observed distance is 0. */
  lemma RewardMatchesObservation(p: Cell, goal: Cell)
    ensures Reward(p, goal) == 1 <==> Observe(p, goal).dist == 0
    ensures Reward(p, goal) == 0 <==> Observe(p, goal).dist > 0
  {
  }

  /** The fixed task list: five distinct goals inside the default grid, each
      four steps from the origin. */
  lemma FixedGoalsFourStepsAway()
    ensures |FixedGoals| == 5
    ensures AllInGrid(FixedGoals, DefaultWidth, DefaultHeight)
    ensures forall i, j :: 0 <= i < j < |FixedGoals| ==> FixedGoals[i] != FixedGoals[j]
    ensures forall i :: 0 <= i < |FixedGoals| ==> Distance(Origin, FixedGoals[i]) == 4
  {
  }

  /** The task indices of the fixed list are 0, 1, 2, 3, 4. */
  lemma FixedTaskIndices()
    ensures Range(|FixedGoals|) == [0, 1, 2, 3, 4]
  {
  }

  /** No action sequence reaches a fixed goal from the origin in fewer than four
      steps, and PathTo reaches it in exactly four. */
  lemma FixedGoalOptimalSolution(i: int, actions: seq<int>)
    requires 0 <= i < |FixedGoals|
    ensures |PathTo(Origin, FixedGoals[i])| == 4
    ensures Walk(Origin, PathTo(Origin, FixedGoals[i]), DefaultWidth, DefaultHeight) == FixedGoals[i]
    ensures Walk(Origin, actions, DefaultWidth, DefaultHeight) == FixedGoals[i] ==> 4 <= |actions|
  {
    FixedGoalsFourStepsAway();
    OptimalStepsToGoal(Origin, FixedGoals[i], DefaultWidth, DefaultHeight);
  }

  /** Python's list indexing: a negative index counts from the end. */
  function ListIndex(idx: int, n: nat): (k: int)
    requires -(n as int) <= idx < n
    ensures 0 <= k < n
    ensures idx >= 0 ==> k == idx
    ensures idx < 0 ==> k == n + idx
  {
    if idx < 0 then n + idx else idx
  }

  // ---------------------------------------------------------------------
  // The environment
  // ---------------------------------------------------------------------

  class GridWorldEnv {
    const width: int
    const height: int
    const goals: seq<Cell>
    var state: Cell
    var goal: Cell

    /** The object invariant: the agent and every goal lie inside the grid, and the active goal is one of the tasks. */
    ghost predicate Valid()
      reads this
    {
      1 <= width && 1 <= height &&
      AllInGrid(goals, width, height) &&
      InGrid(state, width, height) &&
      InGrid(goal, width, height) && goal in goals
    }

    /** The fixed-goal environment on a width-by-height grid (5 by 5 by default),
        with task 0 active and the agent at the origin. */
    constructor (width: int, height: int)
      requires AllInGrid(FixedGoals, width, height)
      ensures Valid()
      ensures this.width == width && this.height == height && goals == FixedGoals
      ensures goal == goals[0] && state == Origin
    {
      assert InGrid(FixedGoals[0], width, height);
      this.width := width;
      this.height := height;
      goals := FixedGoals;
      goal := FixedGoals[0];
      state := Origin;
    }

    /** The indices of all tasks, in order. */
    function GetAllTaskIdx(): (r: seq<nat>)
      ensures |r| == |goals|
      ensures forall i :: 0 <= i < |r| ==> r[i] == i && r[i] < |goals|
    {
      Range(|goals|)
    }

    /** Makes task `idx` active and puts the agent at the origin. An index out of
        range (after Python's wrap of negative indices) raises IndexError, reported
        here as `ok == false`, and changes nothing. */
    method ResetTask(idx: int) returns (ok: bool)
      requires Valid()
      modifies this
      ensures Valid()
      ensures ok <==> -|goals| <= idx < |goals|
      ensures ok ==> goal == goals[ListIndex(idx, |goals|)] && state == Origin
      ensures ok ==> Observe(state, goal) == Obs(0, 0, goal.x + goal.y)
      ensures !ok ==> goal == old(goal) && state == old(state)
    {
      ok := -|goals| <= idx < |goals|;
      if ok {
        var k := ListIndex(idx, |goals|);
        assert InGrid(goals[k], width, height);
        goal := goals[k];
        var _ := Reset();
        ObserveAtOrigin(goal);
      }
    }

    /** Puts the agent back at the origin; the active goal stays. */
    method ResetModel() returns (o: Obs)
      requires Valid()
      modifies this`state
      ensures Valid()
      ensures state == Origin && goal == old(goal)
      ensures o == Observe(state, goal) && o == Obs(0, 0, goal.x + goal.y)
    {
      state := Origin;
      ObserveAtOrigin(goal);
      o := Observe(state, goal);
    }

    method Reset() returns (o: Obs)
      requires Valid()
      modifies this`state
      ensures Valid()
      ensures state == Origin && goal == old(goal)
      ensures o == Observe(state, goal) && o == Obs(0, 0, goal.x + goal.y)
    {
      o := ResetModel();
    }

    /** One transition: apply the edge rule, move by the action's unit vector,
        and report the observation, the reward, `done == false` and an empty info map. */
    method Step(action: int) returns (ob: Obs, reward: int, done: bool, info: map<string, string>)
      requires Valid()
      modifies this`state
      ensures Valid()
      ensures state == Next(old(state), action, width, height) && goal == old(goal)
      ensures ob == Observe(state, goal)
      ensures reward == Reward(state, goal) && (reward == 1 <==> state == goal)
      ensures !done && info == map[]
    {
      if Moveable(state, action, width, height) {
        if action == Up {
          state := Cell(state.x, state.y - 1);
        } else if action == Right {
          state := Cell(state.x + 1, state.y);
        } else if action == Down {
          state := Cell(state.x, state.y + 1);
        } else if action == Left {
          state := Cell(state.x - 1, state.y);
        }
      }
      reward := Reward(state, goal);
      done := false;
      ob := Observe(state, goal);
      info := map[];
    }
  }

  /** A client of the environment: task 0 of the fixed list is goal (3, 1);
      from the origin, Right three times and then Up (blocked on the top row)
      earn nothing, and the final Down is rewarded. */
  method FixedTaskScenario() {
    var env := new GridWorldEnv(DefaultWidth, DefaultHeight);
    var ok := env.ResetTask(0);
    assert ok && env.goal == Cell(3, 1) && env.state == Origin;
    var ob, r, done, info := env.Step(Right);
    assert env.state == Cell(1, 0) && r == 0;
    ob, r, done, info := env.Step(Right);
    assert env.state == Cell(2, 0) && r == 0;
    ob, r, done, info := env.Step(Right);
    assert env.state == Cell(3, 0) && r == 0;
    ob, r, done, info := env.Step(Up);
    assert env.state == Cell(3, 0) && r == 0;
    ob, r, done, info := env.Step(Down);
    assert env.state == Cell(3, 1) && r == 1 && ob == Obs(3, 1, 0) && !done;
  }

  /** A client of the environment: an index past the end changes nothing, index
      -1 selects the last task, and Left on the left edge leaves the agent in place. */
  method TaskIndexScenario() {
    var env := new GridWorldEnv(DefaultWidth, DefaultHeight);
    var ok := env.ResetTask(5);
    assert !ok && env.goal == Cell(3, 1) && env.state == Origin;
    ok := env.ResetTask(-1);
    assert ok && env.goal == Cell(0, 4) && env.state == Origin;
    var ob, r, done, info := env.Step(Down);
    ob, r, done, info := env.Step(Down);
    assert env.state == Cell(0, 2);
    ob, r, done, info := env.Step(Left);
    assert env.state == Cell(0, 2) && r == 0;
  }
}
