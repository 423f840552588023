# Multi-robot defence: planners, target zones, defence strategy and game rules

This project models, in Dafny, the core of a small robot-soccer defence
simulator written in Python. Seven pieces of it are modelled.

- **Hybrid A\*** (`hybrid_astar_planner.py`). This is a best-first search over
  poses. It has three steering actions and duplicate detection on a lattice
  key. Point obstacles are inflated by the robot radius plus 0.1. The goal
  test uses position only, and the path is rebuilt from parent links. The
  search loop is an imperative method whose invariant keeps the parent links
  consistent. The model proves that a returned path is feasible: it starts at
  the start, every step is a collision-free steering successor, and it ends
  within `xy_resolution` of the goal.
- **Conflict-Based Search** (`cbs_planner.py`) and **ECBS**
  (`ecbs_planner.py`). Both plan every agent independently. They detect the
  earliest conflict, with an agent treated as parked on its last pose once
  its path ends, and branch into two constrained children. `replan` in the
  code only validates: it re-runs the unconstrained planner and discards the
  path if any pose breaks a constraint. Every node of the tree therefore
  carries the independent plans. The model proves the consequence:
  - when the independent plans are conflict-free, they are the answer;
  - CBS gives up after one expansion when both agents of the first conflict
    are still moving at its timestep, and otherwise never stops;
  - ECBS never removes an expanded node from its open list, so with a
    conflict it gives up exactly when `epsilon < 1` and never stops when
    `epsilon >= 1`.

  The shared parts live in module `MultiAgent`: detection, counting,
  validation and branching. `ecbs_planner.py` repeats `cbs_planner.py`'s
  helpers line for line, and the model defines each of them once.
- **Target zones** (`zones/target_zone.py`). The four `contains` rules are
  one datatype with one membership function.
- **Defence strategy** (`defense_strategy.py`). The model covers:
  - the field box test and the free-position scan;
  - the clamped projection that gives the intercept point, proved to be the
    point of red's segment to the target closest to blue;
  - the heading-error, rotation-step and move-step rules of `update`, over
    robots held in a `FieldRobot` class whose fields `update` assigns.

  `update` is proved to move only the paired blue robots. It keeps each of
  them drawn where its pose says, inside the field, with a wrapped heading.
  It also keeps every pair of robots at least `min_dist` apart when they
  were so before.
- **The game window** (`main.py`). This covers the stopped, running and
  paused state machine of the Start button, the guard of the timer tick, and
  the win rules of `check_game_state`.
- **The robot integrator** (`models/robot.py`). This is class `Robot`, with
  pose and velocity fields and an Euler `update` that wraps the heading into
  [0, 360).

Modelling conventions:
- Floats are reals.
- Every `math.hypot(...) < d` or `<= d` is a comparison of squared
  distances (`Common.HypotLess`, `Common.HypotAtMost`). `Common.HypotTestsSound`
  shows these agree with any true square root.
- `cos`, `sin`, `atan2`, `hypot` used as a value, and `round(a / b)` are
  fields of an opaque `Common.MathOps` bundle, so every proof holds for any
  choice of them.
- Python's float `%` with a positive modulus is `Common.FloatMod`: the
  result has the sign of the divisor.
- Priority queues are "pick an element of least key"; ties are left open.
- The CBS, ECBS and A\* loops are not guaranteed to end, so they take a
  `fuel` bound and report `OutOfFuel` when it runs out.
- The low-level planner and the pose lookup of the coordinators are function
  parameters (`MultiAgent.Env`).
- An agent is identified by its position in the agent list. Agent ids must be
  distinct.

What the code does, as the model follows it:
- `replan` re-runs the unconstrained planner and only validates the path it
  returns against the constraints; it does not search around them.
- ECBS keeps an expanded node in `open_list` after expanding it.
- Neither coordinator is guaranteed to end: a conflict that no child
  resolves is met again on every expansion.
- The code raises on an empty agent list (`max` of nothing). `path[-1]`
  raises on an empty path only when some other path is longer; when every
  path is empty `max_t` is 0 and `detect_conflict` returns `None`,
  `count_conflicts` 0. A zero `xy_resolution` or `theta_resolution` makes
  `state_index` divide by zero, and a diamond zone of zero width or height
  divides by zero in `contains`. These raising inputs are preconditions in
  the model (`HybridAStar.Plan` requires a usable planner).

## Model

| member | source | states |
|---|---|---|
| Common.HypotTestsSound | cbs_planner.py:80-81 | for any non-negative h with h*h = dx*dx + dy*dy, `h < bound` iff HypotLess and `h <= bound` iff HypotAtMost; so the squared tests decide the source's hypot comparisons |
| Common.FloatMod | models/robot.py:31 | Python's float `a % m` for m > 0: the result lies in [0, m), differs from `a` by whole multiples of m, and is `a` itself when `a` is already in [0, m) |
| HybridAStar.NewPlanner | hybrid_astar_planner.py:6-18 | the steer set is exactly [-max_steer, 0, +max_steer] in radians; the planner is usable (both resolutions non-zero) iff the two resolutions given are non-zero |
| HybridAStar.NormalizedRange | hybrid_astar_planner.py:77-82 | the normalised heading lies in [-pi, pi], differs from its input by whole turns, and equals the input when that is already in [-pi, pi] |
| HybridAStar.NormalizeAngle | hybrid_astar_planner.py:77-82 | the two while-loops compute exactly the normalised heading (so the range, whole-turn and identity properties above hold for the method) |
| HybridAStar.ForwardStep | hybrid_astar_planner.py:54-59 | a step ends with heading in [-pi, pi], equal to heading + steer up to whole turns, and moves exactly step_size * (cos, sin) of the new heading |
| HybridAStar.AnyWithinIff | hybrid_astar_planner.py:61-66 | the early-exit obstacle scan reports a hit iff some obstacle lies within the reach, boundary included |
| HybridAStar.CollisionIff | hybrid_astar_planner.py:61-66 | `check_collision` is true iff some obstacle lies at distance <= robot_radius + 0.1 |
| HybridAStar.ReversedInvolution | hybrid_astar_planner.py:93 | reversing `path[::-1]` again gives the path back, and reversal makes the last pose the first and the first the last |
| HybridAStar.SuccessorsSpec | hybrid_astar_planner.py:45-50 | an expansion pushes at most three entries, none colliding, each with cost = parent cost + step_size and priority = cost + distance to goal, and pushes every non-colliding successor |
| HybridAStar.SuccessorsSnoc | hybrid_astar_planner.py:45-50 | each steering action adds exactly its own entry, or nothing when its successor collides |
| HybridAStar.PushSuccessors | hybrid_astar_planner.py:45-50 | the `for steer` loop appends exactly the successor entries, in steer order, to the heap |
| HybridAStar.MinimumExists | hybrid_astar_planner.py:32 | a non-empty heap has an entry of least priority |
| HybridAStar.PopIndex | hybrid_astar_planner.py:32 | `heappop` takes an entry of least priority |
| HybridAStar.FollowLink | hybrid_astar_planner.py:87-92 | following a consistent `came_from` link: a parentless state is the start; otherwise the parent is recorded under its own cell, was closed earlier, and the state is a collision-free successor of it |
| HybridAStar.ReversedFeasible | hybrid_astar_planner.py:84-93 | a backward chain of successors ending at the start, reversed, is a feasible path from the start ending where the chain began |
| HybridAStar.ReconstructPath | hybrid_astar_planner.py:84-93 | following parent links from the current state and reversing gives a feasible path from the start that ends at the current state |
| HybridAStar.RankedDistinct | hybrid_astar_planner.py:35-40 | the closed poses have pairwise distinct lattice cells: each cell is expanded at most once |
| HybridAStar.CloseCell | hybrid_astar_planner.py:39-40 | recording the link of a consistent entry under its own, not yet closed, cell keeps all links consistent |
| HybridAStar.OpenOkGrow | hybrid_astar_planner.py:39-40 | heap entries stay consistent when a new cell is closed |
| HybridAStar.OpenOkRemove | hybrid_astar_planner.py:32 | removing the popped entry keeps the remaining entries consistent |
| HybridAStar.SuccessorsOk | hybrid_astar_planner.py:45-50 | the entries pushed for a closed pose name that pose as their parent, consistently with the links |
| HybridAStar.OpenOkJoin | hybrid_astar_planner.py:50 | consistency of heap entries is preserved by appending consistent entries |
| HybridAStar.PopStep | hybrid_astar_planner.py:32-37 | popping any entry leaves the search invariant in place and yields an entry consistent with the links |
| HybridAStar.CloseLinks | hybrid_astar_planner.py:35-40 | closing the popped entry's cell records a consistent link, gives the pose the next rank, and keeps the heap consistent |
| HybridAStar.CloseExplored | hybrid_astar_planner.py:35-43 | the newly closed pose keeps the closed cells distinct, is the start when it is the first, does not collide otherwise, and is at the goal only when the search stops there |
| HybridAStar.PushStep | hybrid_astar_planner.py:45-50 | pushing the successors of a closed, non-goal pose keeps the search invariant |
| HybridAStar.SearchStep | hybrid_astar_planner.py:31-50 | one pass of the loop: a skipped or expanded pass keeps the invariant; a pass that reaches the goal returns a feasible path from the start whose last pose is strictly within xy_resolution of the goal |
| HybridAStar.Plan | hybrid_astar_planner.py:20-52 | a returned path starts at the start, every step is a collision-free steering successor, and it ends within xy_resolution of the goal (heading not checked); closed cells are distinct and none but the last is at the goal |
| MultiAgent.MaxLen | cbs_planner.py:66 | the longest path length: no path is longer, and some path has it |
| MultiAgent.TotalCostUpdate | cbs_planner.py:62-63 | replacing one agent's path changes the summed length by the difference of the two lengths |
| MultiAgent.TotalCostAtLeastAgents | cbs_planner.py:62-63 | with no empty path the cost is at least the number of agents |
| MultiAgent.FirstConflictUnique | cbs_planner.py:67-83 | there is only one first conflict (smallest timestep, then first pair in scan order) |
| MultiAgent.FirstConflictExists | cbs_planner.py:65-84 | a first conflict exists iff some pair is closer than safe_distance at some timestep below the longest path length, parked agents at their last pose |
| MultiAgent.EarliestBadTime | cbs_planner.py:67 | a clashing timestep has an earliest clashing timestep at or before it |
| MultiAgent.EarliestBadRow | cbs_planner.py:76 | a clash at a timestep has an earliest clashing first agent |
| MultiAgent.EarliestBadColumn | cbs_planner.py:77 | a clash in a row has an earliest clashing second agent |
| MultiAgent.Positions | cbs_planner.py:68-74 | the positions list has one entry per agent: its pose at t, or its last pose once its path has ended |
| MultiAgent.DetectConflict | cbs_planner.py:65-84 | returns None iff no two agents are closer than safe_distance at any timestep; otherwise the conflict with smallest t, then first pair i < j, at the midpoint of the two positions |
| MultiAgent.IsConstrained | cbs_planner.py:87-92 | true iff some constraint names this agent and this timestep and its position is strictly within safe_distance |
| MultiAgent.Replan | cbs_planner.py:86-106 | the loop returns exactly the validate-only result: the planner's own unconstrained path when no pose breaks a constraint at its index, None otherwise |
| MultiAgent.ValidatedSound | cbs_planner.py:86-106 | a returned path is exactly the planner's path and no pose of it is within safe_distance of one of this agent's constraints at its timestep; an unviolated planner path is returned |
| MultiAgent.ValidatedIgnores | cbs_planner.py:86-106 | a constraint on another agent, or at a timestep beyond the end of the planner's path, does not change what `replan` returns |
| MultiAgent.MidpointClose | cbs_planner.py:82 | the conflict midpoint is closer than safe_distance to both clashing positions |
| MultiAgent.ConflictConstraintRejects | cbs_planner.py:46-52 | the constraint added for an agent still moving at the conflict's timestep rejects that agent's planner path, so `replan` fails for it |
| MultiAgent.Children | cbs_planner.py:48-58 | the `for agent in [agent1, agent2]` loop yields the first agent's child then the second's, infeasible ones dropped |
| MultiAgent.BranchShape | cbs_planner.py:48-57 | a child has the parent's constraints plus exactly one for its agent at the conflict place and time, and the parent's paths except that agent's, which is the planner's path |
| MultiAgent.PlanAll | cbs_planner.py:29-35 | the initial loop fails iff some agent's independent plan fails, and otherwise returns every agent's planner path in order |
| MultiAgent.BranchKeepsPlans | cbs_planner.py:49-56 | since `replan` returns the planner's own path, a child of a node carrying the independent plans carries the same paths |
| MultiAgent.PlannedAllIsRoot | cbs_planner.py:29-37 | the independent plans are determined by the planner, and none is empty |
| MultiAgent.ParkedBranchSurvives | cbs_planner.py:86-106 | an agent whose path ends before the conflict's timestep keeps its path under any number of that conflict's constraints |
| MultiAgent.KidsShared | cbs_planner.py:48-58 | every child of a node carrying the independent plans carries them too, with constraints only from the same conflict |
| MultiAgent.KidsEmptyIff | cbs_planner.py:48-58 | a node with the first conflict has no child iff both agents are still moving at its timestep |
| MultiAgent.ChooseRootConflict | cbs_planner.py:42-46 | the independent plans either are conflict-free or have exactly one first conflict |
| CBS.PopCheapest | cbs_planner.py:41 | the popped node has the least cost in the open list |
| CBS.Expand | cbs_planner.py:48-58 | the children pushed are the branching children with their total cost recomputed |
| CBS.TreeNodesJoin | cbs_planner.py:58 | pushing tree nodes keeps the open list made of tree nodes |
| CBS.TreeNodesRemove | cbs_planner.py:41 | a popped tree node is a tree node and the rest of the open list still is |
| CBS.ChildNodesTree | cbs_planner.py:48-58 | the children of a tree node are tree nodes: the independent plans, their cost, constraints from the first conflict |
| CBS.Step | cbs_planner.py:40-58 | a pass pops a cheapest node; it returns the independent plans iff they are conflict-free; otherwise the open list loses the popped node and gains its children, shrinking iff both conflicting agents are still moving |
| CBS.Search | cbs_planner.py:37-60 | any returned solution is the independent plans and conflict-free; None means they conflict; with fuel, conflict-free plans are returned, and with a conflict the result is None iff both agents are still moving at it, and otherwise the loop does not end |
| CBS.FindSolution | cbs_planner.py:27-60 | None when some independent plan fails; a returned mapping is the independent plans and has no conflict; otherwise the outcome is fixed by the first conflict as in Search |
| ECBS.RowCountZero | ecbs_planner.py:104-109 | a row's clash count is zero iff no pair in the row clashes |
| ECBS.StepCountZero | ecbs_planner.py:103-109 | a timestep's clash count is zero iff no pair clashes at it |
| ECBS.TimesCountZero | ecbs_planner.py:94-109 | the count over timesteps below a bound is zero iff no pair clashes below it |
| ECBS.ConflictCountZero | ecbs_planner.py:91-131 | `count_conflicts` is zero iff `detect_conflict` finds nothing |
| ECBS.RowCountBound | ecbs_planner.py:104-109 | row i contributes at most n - 1 - i pairs |
| ECBS.StepCountBound | ecbs_planner.py:103-109 | the first iEnd rows contribute at most iEnd * (2n - 1 - iEnd) / 2 pairs |
| ECBS.TimesCountBound | ecbs_planner.py:93-109 | the count is at most max_t * n * (n - 1) / 2 |
| ECBS.CountConflicts | ecbs_planner.py:91-110 | the nested loops count every clashing (timestep, unordered pair) with parked semantics, and the count is zero iff there is no conflict |
| ECBS.FocalOfMembers | ecbs_planner.py:78-80 | the rebuilt focal list holds exactly the open nodes with cost <= epsilon * best_cost |
| ECBS.FocalOfUniform | ecbs_planner.py:78-80 | when all open nodes share one cost, focal is the whole open list or empty |
| ECBS.WithinSelf | ecbs_planner.py:79 | a positive cost is within epsilon times itself iff epsilon >= 1 |
| ECBS.MinCostIsLeast | ecbs_planner.py:83-84 | the refreshed best cost is the least cost in the open list and is the cost of some open node |
| ECBS.PopFewest | ecbs_planner.py:54 | the node popped from focal has the fewest conflicts there |
| ECBS.KidsNonEmpty | ecbs_planner.py:62-73 | children keep one non-empty path per agent |
| ECBS.Expand | ecbs_planner.py:62-75 | the nodes pushed onto open are the branching children with cost and conflict count recomputed |
| ECBS.TreeNodesJoin | ecbs_planner.py:75 | pushing tree nodes keeps the open list made of tree nodes |
| ECBS.TreeNodesFocal | ecbs_planner.py:78-80 | the focal list of tree nodes holds tree nodes |
| ECBS.ChildNodesTree | ecbs_planner.py:62-73 | the children of a tree node are tree nodes |
| ECBS.Step | ecbs_planner.py:53-84 | a pass pops a fewest-conflict focal node; it returns the independent plans iff conflict-free; otherwise open only grows by the children, focal is rebuilt against the old best cost, and best cost becomes the open minimum |
| ECBS.Search | ecbs_planner.py:38-86 | any returned solution is the independent plans and conflict-free; with fuel and a conflict, the result is None iff epsilon < 1, and otherwise the loop does not end |
| ECBS.FindSolution | ecbs_planner.py:29-86 | None when some independent plan fails; a returned mapping is the independent plans and conflict-free; otherwise the outcome is fixed by epsilon as in Search |
| TargetZone.CircleIsDistanceTest | zones/target_zone.py:20-22 | a point is in a circle iff its true distance to the centre is at most the radius, boundary included |
| TargetZone.RectangleIsBox | zones/target_zone.py:32-34 | a point is in a rectangle iff it is within w/2 and h/2 of the centre, bounds inclusive (a corner is inside) |
| TargetZone.DiamondInRectangle | zones/target_zone.py:44-47 | a diamond of positive size holds its centre and all four corners (cx ± w/2, cy) and (cx, cy ± h/2), and lies inside the rectangle with the same centre and size |
| TargetZone.RatioAtMostOne | zones/target_zone.py:45-47 | for a positive half-width, the ratio is non-negative and at most one iff the offset is at most the half-width |
| TargetZone.SemiCircleIsHalfDisc | zones/target_zone.py:64-78 | a semicircle is its circle intersected with the closed half-plane of its direction, so it lies inside the circle, and an unknown direction gives no point |
| Defense.InterceptOnSegment | defense_strategy.py:33-45 | red itself when red is on the target; otherwise the point at the clamped parameter in [0, 1] of red's segment to the target, red when blue projects before it, the target when blue projects past it |
| Defense.InterceptIsClosest | defense_strategy.py:43-45 | no point of the segment from red to the target is closer to blue than the intercept point |
| Defense.DistAlongSegment | defense_strategy.py:43 | the squared distance from blue to the point at parameter s expands into the parabola the projection minimises |
| Defense.ClampedMinimises | defense_strategy.py:44 | the clamped vertex of that parabola is its least value on [0, 1] |
| Defense.HeadingErrorRange | defense_strategy.py:83 | the heading error lies in [-180, 180), differs from desired - current by whole turns, and is desired - current when that is already in range |
| Defense.RotationDeltaSpec | defense_strategy.py:103 | the applied turn has magnitude min(abs(dtheta), rotate_speed * dt), the sign of the error, and never overshoots |
| Defense.NewHeadingSpec | defense_strategy.py:102-106 | with dtheta the wrapped error toward the aim (`AimError`): if abs(dtheta) <= 1 the heading is untouched; otherwise it ends in [0, 360) and equals theta + delta up to whole turns, where delta has the sign of dtheta, abs(delta) = min(abs(dtheta), rotate_speed * dt) and the turn does not overshoot |
| Defense.SceneFieldInverse | defense_strategy.py:91-95 | a scene step of v * SCALE from a robot drawn at its pose is a field step of v, and the conversions between scene and field are inverse |
| Defense.MoveDistBounds | defense_strategy.py:87 | past the arrive distance the step is positive, at most speed * dt, and at most the distance |
| Defense.ProposalOnLine | defense_strategy.py:85-95 | past the arrive distance the proposed field position is the fraction move_dist / dist of the way to the intercept point |
| Defense.ProposalStep | defense_strategy.py:85-95 | there is no step iff dist <= 0.05; otherwise, with hypot the true distance, the step lies on the line to the intercept point and has length min(speed * dt, dist) |
| Defense.IsPositionFree | defense_strategy.py:23-31 | false iff some robot other than the current one (by identity) is strictly closer than min_dist |
| Defense.FreeAtIsClear | defense_strategy.py:25-27 | skipping the current robot by identity is skipping its index when the robots are distinct |
| Defense.MoveKeepsApart | defense_strategy.py:97-100 | moving one robot to a position free of all others keeps every pair at least min_dist apart |
| Defense.MoveBlue | defense_strategy.py:85-100 | the robot moves to the proposed scene and field position iff it is past the arrive distance and the new point is inside the field and free; otherwise its position is unchanged; the heading is untouched; a consistent robot stays consistent |
| Defense.TurnBlue | defense_strategy.py:102-106 | the heading becomes the rotation rule's result for the pre-move position; the position is untouched; a wrapped heading stays wrapped |
| Defense.StepBlue | defense_strategy.py:67-106 | one pair: aim at the intercept point, apply the move rule, then the rotation rule from the pre-move position, exactly as stated for MoveBlue and TurnBlue |
| Defense.StepAt | defense_strategy.py:67-106 | one pass of the loop changes only its blue robot, keeps it consistent, and keeps all robots apart when they were |
| Defense.Update | defense_strategy.py:57-106 | only the first min(len(red), len(blue)) blue robots change; red and unpaired blue robots are untouched; consistent blue robots stay consistent; robots that were min_dist apart stay apart |
| Game.PressedSpec | main.py:103-119 | the Start button never leads to stopped, leads to running iff the state was not running, and twice from running or paused is the identity |
| Game.CountBlockedAll | main.py:255-266 | each red robot adds at most one to `blocked`, and it reaches the number of red robots iff every red robot is within 0.5 of some blue one |
| Game.JudgeSpec | main.py:247-270 | red wins iff some red robot is in the target zone; blue wins iff none is and every red robot is blocked; blue wins at once with no red robots |
| Game.IsBlocked | main.py:259-265 | the inner scan stops at the first blue robot within 0.5 of the red one, and finds one iff one exists |
| Game.Game.constructor | main.py:55-56 | the game starts stopped and not running |
| Game.Game.StartGame | main.py:103-119 | stopped goes to running, running to paused, paused to running; the game runs iff the new state is running |
| Game.Game.CheckGameState | main.py:247-272 | the verdict is the win rule's; a win stops the game and otherwise it keeps running; `game_state` is never changed |
| Game.Game.GameLoop | main.py:132-150 | a tick does nothing while the game is not running; otherwise it applies the win rules |
| Game.ResumeAfterWin | main.py:103-119 | after a win the state is still running, so the first press pauses and only the second runs the game again |
| Robots.Robot.constructor | models/robot.py:4-19 | the pose as given, the heading not wrapped, all velocities zero |
| Robots.Robot.Update | models/robot.py:21-31 | x and y advance by vx * dt and vy * dt; the heading becomes (theta + vtheta * dt) % 360, in [0, 360) and equal to the unwrapped heading up to whole turns; velocities unchanged |
| Robots.Robot.SetPose | models/robot.py:33-37 | the position as given and the heading theta % 360, in [0, 360) and the given heading when already in range; velocities unchanged |
| Robots.Robot.SetVelocity | models/robot.py:39-43 | only the three velocities change, to the given values |
| Robots.Robot.GetPose | models/robot.py:45-47 | returns the current pose fields |
| Robots.Robot.GetVelocity | models/robot.py:49-51 | returns the current velocity fields |
| Robots.UpdateAtRest | models/robot.py:21-31 | with zero velocity and a wrapped heading, `update` changes nothing |
| Robots.UpdateTwice | models/robot.py:21-31 | two updates over dt1 and dt2 land where one over dt1 + dt2 would, the heading up to whole turns |

## Left out

- Qt drawing: the intercept markers, `setPos`/`setRotation` of graphics
  items beyond the scene position `FieldRobot` keeps, labels and button
  texts. Also left out are `clear_intercepts`, the `print` calls, and the
  scene updates of `check_game_state`, `start_game` and `game_loop`.
- Device input and strategy wiring: `setup_controls`, `poll_xbox_single`
  and `apply_strategy` in `main.py`. `game_loop` is modelled as its guard
  followed by the win check, and the robots' moves in between are left out.
- Floating point: reals are used throughout. Rounding in `hypot`, in the
  division of `get_intercept_point` and in `%` is not modelled.
- `cos`, `sin`, `atan2`, `hypot` as a value, and `round` are opaque, so no
  property depends on real trigonometry.
- Heap tie-breaking: the source falls through to comparing tuples and
  nodes, which is not well defined. The model picks any element of least
  key.
- HybridAStar.Plan, CBS.FindSolution, ECBS.FindSolution: the loops take a
  `fuel` bound on the number of pops. The extra `OutOfFuel` outcome stands
  for a loop that has not ended. Because of this the A\* model does not
  prove that `None` means "no path exists".
- HybridAStar.Plan: it requires `p.Valid()`, that is non-zero
  `xy_resolution` and `theta_resolution`. With either one zero,
  `state_index` divides by zero and the source raises, which the model
  does not represent.
- MultiAgent.Env, CBS.Search, ECBS.Search: the planner `plan` and the pose
  lookup `lookup` are pure functions. So the model assumes the planner
  returns the same path on every call for the same start and goal, and
  that no robot's pose changes while `find_solution` runs. The results
  built on this include: every node carries the root plans, CBS stops
  exactly when both agents of the conflict are moving, and ECBS stops
  exactly when epsilon < 1. The assumption fits the repository, because its
  Hybrid A\* is deterministic and the call is synchronous. The default
  `pose_lookup=None` (`cbs_planner.py:21`, `ecbs_planner.py:22`) makes
  `self.pose_lookup(agent_id)` raise. The model always has a lookup and
  leaves that case out.
- CBS.FindSolution, ECBS.FindSolution: these require distinct agent ids, a
  non-empty agent list, and a planner that never returns an empty path.
  - The source crashes on an empty agent list or an empty path.
  - The repository's Hybrid A\* always returns at least the start pose.
  - Ids are distinct because agents are identified by their position in the
    list.
- MultiAgent.DetectConflict, ECBS.CountConflicts: these require a non-empty
  mapping of non-empty paths, for the same reason.
- Agent paths are a sequence in agent-list order. Python iterates the
  `paths` dict in insertion order, which is this order.
- `Constraint` and `CBSNode`/`ECBSNode` are datatypes. `copy.deepcopy` of
  the path mapping is the datatype's value semantics.
- TargetZone.DiamondInRectangle: it assumes a positive width and height.
  A zero width or height makes `contains` raise, so `TargetZone.Defined`
  excludes it.
- Game.Game.CheckGameState: the robots' positions are passed in as
  sequences of points rather than read from the teams.
- Defense.Update: it uses the `FieldRobot` class for robot items and their
  `pose` dictionaries.
  - It requires the robots to be distinct objects, which holds for two
    teams of separately created robots.
  - Its contract states the invariants it keeps. The exact effect of each
    pass is stated by Defense.StepBlue.
- Defense.MoveBlue: it computes the move with the function
  `Defense.Proposal`, which is the same arithmetic as the source written as
  one expression.
- Defense.ProposalStep: it assumes `hypot` returns the true distance. For
  an arbitrary `hypot` only the "no step within 0.05" half holds.
- The strategy's `SCALE`, field margin and robot size are parameters
  (`Defense.Strategy`). The scale must be non-zero because the source
  divides by it.
- `is_inside_field` is one predicate, `Common.InsideField`. It is shared
  by `defense_strategy.py:20-21` and `main.py:244-245`, which define the
  same box.
- The target-zone drawer, ball physics, actions, recorder, attack and
  random strategies are outside the modelled core.
