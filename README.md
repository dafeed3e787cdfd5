# GridWorld: a verified model of the base grid-world environment

This project models `BaseGridWorldEnv` from `rlkit/envs/gridworld.py`: a deterministic,
boundary-clamped grid-navigation environment used as a meta-reinforcement-learning
benchmark. An agent stands on a cell `(x, y)` of a `width × height` grid whose origin
is the top-left corner. Each task is one goal cell taken from a fixed list of five. A step
moves the agent one cell Up (y−1), Right (x+1), Down (y+1) or Left (x−1), unless the move
would cross an edge. The reward is 1 exactly when the agent stands on the goal. The
observation is the agent's position and its Manhattan distance to the goal.

Everything is in `gridworld.dfy`, module `GridWorld`:

- Pure functions over a `Cell` record hold the transition logic: the edge rule `Moveable`, the
  move `Next`, the observation `Observe` and the reward `Reward`. `Shift`, the unclamped unit
  move, and `Clamp` are the reference definitions the edge rule is proved against.
- The class `GridWorldEnv` holds the environment. Its grid size and task list are `const`
  because the source assigns them once. The agent position `state` and the active goal `goal`
  are fields that `ResetTask`, `Reset`/`ResetModel` and `Step` reassign. Each of these
  methods keeps the invariant `Valid()`: the agent and every goal are inside the grid, and
  the goal is one of the tasks. Each is proved against the functions above.
- Lemmas prove the properties of the model. Moves stay inside the grid. Edge moves are
  no-ops, and repeating them is idempotent. Allowed moves are unit steps. The reward is 1
  exactly at the goal. The observation stays within its declared bounds. The source's
  comment "optimal solution took 4 steps to any goal" holds: the Manhattan distance is the
  length of a shortest action sequence, and every fixed goal is 4 steps from the origin.
- `FixedTaskScenario` and `TaskIndexScenario` are client methods. They drive the object
  through short episodes, and Dafny proves the asserted states.

Points of the code's behaviour that the model keeps as they are:

- From the origin, with task 0 (goal (3, 1)) active, Right, Right, Right, Up ends at (3, 0)
  with reward 0, because Up is refused on row 0 (line 70). A final Down reaches (3, 1) and is
  rewarded 1. `FixedTaskScenario` proves this.
- Actions outside 0..3 pass `_is_moveable` and move nothing (`UnitStep`).
- `__init__` does not check `grid_size`. The model's constructor requires the five fixed goals
  to lie inside the grid, which implies a positive grid size.
- `reset_task` indexes a Python list, so a negative index counts from the end, and any other
  out-of-range index raises `IndexError` before anything changes. `ResetTask` models the wrap
  and reports the error as `ok == false`.

## Model

| member | source | states |
|---|---|---|
| GridWorld.GridWorldEnv.constructor | rlkit/envs/gridworld.py:23-39 | fixed-goal path: the task list is the five hand-coded goals, task 0 is active, the agent is at the origin and the invariant holds (agent and goals inside the grid) |
| GridWorld.GridWorldEnv.GetAllTaskIdx | rlkit/envs/gridworld.py:49-50 | the result has one entry per task and entry i is i, a valid task index |
| GridWorld.GridWorldEnv.ResetTask | rlkit/envs/gridworld.py:44-47 | succeeds iff the Python index is in range (negative counts from the end); then the goal is that task's cell, the agent is at the origin and the observation is (0, 0, goal.x + goal.y); otherwise nothing changes (IndexError) |
| GridWorld.GridWorldEnv.ResetModel | rlkit/envs/gridworld.py:52-57 | the agent returns to the origin, the goal is unchanged, and the returned observation is (0, 0, goal.x + goal.y) |
| GridWorld.GridWorldEnv.Reset | rlkit/envs/gridworld.py:59-60 | same effect and result as ResetModel |
| GridWorld.GridWorldEnv.Step | rlkit/envs/gridworld.py:80-96 | the new position is the edge-checked move of the old one, the goal is unchanged, the invariant holds, the reward is 1 iff the agent is on the goal, done is false and info is empty |
| GridWorld.Moveable | rlkit/envs/gridworld.py:67-78 | for a cell inside the grid, a move is allowed iff the unclamped move stays inside the grid; actions outside 0..3 are always allowed |
| GridWorld.Next | rlkit/envs/gridworld.py:83-91 | a step from inside the grid stays inside, and the agent either stays or moves exactly one cell |
| GridWorld.Observe | rlkit/envs/gridworld.py:62-64 | the observation carries the agent's coordinates and a distance that is 0 iff the agent is on the goal |
| GridWorld.Reward | rlkit/envs/gridworld.py:92 | the reward is 0 or 1, and 1 iff the position equals the goal |
| GridWorld.Range | rlkit/envs/gridworld.py:50 | Python's `range(n)`: n entries, entry i equal to i |
| GridWorld.ListIndex | rlkit/envs/gridworld.py:46 | Python list indexing: an index in [-n, n) names position idx, or n + idx when negative |
| GridWorld.EdgeMovesAreNoops | rlkit/envs/gridworld.py:70-77 | Up at y == 0, Right at x == width-1, Down at y == height-1 and Left at x == 0 leave the position unchanged |
| GridWorld.BlockedMoveIdempotent | rlkit/envs/gridworld.py:83 | taking a blocked move twice lands where taking it once does |
| GridWorld.RepeatBlockedStays | rlkit/envs/gridworld.py:67-91 | repeating a blocked move any number of times never leaves the cell |
| GridWorld.UnitStep | rlkit/envs/gridworld.py:83-91 | an allowed move adds exactly (0,-1), (1,0), (0,1) or (-1,0) for actions 0..3 and moves one cell; any other action leaves the position unchanged |
| GridWorld.NextIsClampedShift | rlkit/envs/gridworld.py:67-91 | inside the grid, a step equals the unclamped move clamped back into the grid |
| GridWorld.WalkStaysInGrid | rlkit/envs/gridworld.py:80-91 | any sequence of steps from inside the grid stays inside it |
| GridWorld.WalkDistanceBound | rlkit/envs/gridworld.py:84-91 | after k steps the agent is at Manhattan distance at most k from where it started |
| GridWorld.PathTo | rlkit/envs/gridworld.py:31 | the row-then-column route between two cells has exactly their Manhattan distance in actions |
| GridWorld.PathToReachesGoal | rlkit/envs/gridworld.py:31 | following that route from inside the grid reaches the goal |
| GridWorld.OptimalStepsToGoal | rlkit/envs/gridworld.py:31 | the Manhattan distance is the length of an optimal solution: a route of that length reaches the goal, and no shorter action sequence does |
| GridWorld.ObservationInBox | rlkit/envs/gridworld.py:40 | with agent and goal inside the grid, every observation component is in [0, width+height], and the distance is at most width+height-2 |
| GridWorld.ObserveAtOrigin | rlkit/envs/gridworld.py:56-64 | at the origin the observation is (0, 0, goal.x + goal.y) |
| GridWorld.RewardMatchesObservation | rlkit/envs/gridworld.py:62-64 | the reward is 1 iff the observed distance is 0, and 0 iff it is positive |
| GridWorld.FixedGoalsFourStepsAway | rlkit/envs/gridworld.py:31-37 | the fixed list has five distinct goals inside the default 5×5 grid, each at Manhattan distance 4 from the origin |
| GridWorld.FixedTaskIndices | rlkit/envs/gridworld.py:49-50 | for the fixed list, the task indices are exactly 0, 1, 2, 3, 4 |
| GridWorld.FixedGoalOptimalSolution | rlkit/envs/gridworld.py:31-37 | every fixed goal is reached from the origin in exactly 4 steps, and in no fewer |

## Left out

- The `randomize_tasks` branch (lines 25-29) is not modelled. It reseeds numpy's global random generator. It also cannot run as written: `np.random.shuffle` returns `None`, so the slice raises.
- The rounding of the action with `np.rint` (line 81) is floating point with round-half-to-even. The model takes the action as an already-rounded integer.
- The gym `spaces.Box` declarations (lines 40, 42), the `Env` base class and the `register_env` registry are foreign library calls and are not modelled. Only the observation bound `width + height` is kept, in `ObservationInBox`.
- `render` and `viewer_setup` (lines 98-118) only print to the console and are not modelled.
- GridWorld.GridWorldEnv.constructor: requires the fixed goals to lie inside the grid (for the fixed list, width and height at least 5). The source accepts smaller grids, but then some goals lie outside the grid and can never be reached. The object invariant excludes that case.
- The observation is a record of unbounded integers, not a numpy array. No overflow can occur, because the values stay within the grid.
