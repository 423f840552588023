/** The pieces that Conflict-Based Search and its bounded-suboptimal variant
    share: constraints, the path-set cost, conflict detection under the
    "parked at the last pose" rule, validate-only replanning, and the two
    children a conflict branches into. In the repository `ecbs_planner.py`
    repeats `cbs_planner.py`'s definitions of these line for line; the model
    defines each once. */
module MultiAgent {
  import opened Common

  type AgentId = int

  /** A path of poses, one per timestep. */
  type Path = seq<Pose>

  /** `Constraint(agent, pos, timestep)`: `agent` must not be near `pos` at
      `timestep`. */
  datatype Constraint = Constraint(agent: AgentId, pos: Point, timestep: int)

  /** A conflict between the agents at positions `i < j` of the agent list,
      at timestep `t`, located at `pos`. */
  datatype Conflict = Conflict(i: nat, j: nat, t: nat, pos: Point)

  /** The low-level planner and the pose lookup the coordinators are
      configured with; both are left uninterpreted. */
  datatype Env = Env(plan: (Pose, Point) -> Option<Path>, lookup: AgentId -> Pose, goal: Point, safe: real)

  /** The planner's path for `agent` from its current pose. */
  function RawPlan(env: Env, agent: AgentId): Option<Path> {
    env.plan(env.lookup(agent), env.goal)
  }

  /** The planner never returns an empty path (the Hybrid A* planner of this
      repository always returns at least the start pose). */
  ghost predicate PlansNonEmpty(env: Env) {
    forall s: Pose, g: Point :: env.plan(s, g).Some? ==> env.plan(s, g).value != []
  }

  predicate Distinct(ids: seq<AgentId>) {
    forall a, b :: 0 <= a < b < |ids| ==> ids[a] != ids[b]
  }

  predicate AllNonEmpty(paths: seq<Path>) {
    forall k :: 0 <= k < |paths| ==> paths[k] != []
  }

  /** Where an agent stands at timestep `t`: its pose at index `t`, or its
      last pose once its path has ended. */
  function PosAt(path: Path, t: nat): Point
    requires path != []
  {
    if t < |path| then path[t].Position() else path[|path| - 1].Position()
  }

  /** `max(len(p) for p in paths.values())`. */
  function MaxLen(paths: seq<Path>): (r: nat)
    ensures forall k :: 0 <= k < |paths| ==> |paths[k]| <= r
    ensures paths != [] ==> exists k :: 0 <= k < |paths| && r == |paths[k]|
  {
    if paths == [] then 0
    else
      var rest := MaxLen(paths[1..]);
      assert forall k :: 1 <= k < |paths| ==> paths[k] == paths[1..][k - 1];
      if |paths[0]| >= rest then |paths[0]| else rest
  }

  /** `total_cost`: the sum of the path lengths. */
  function TotalCost(paths: seq<Path>): nat {
    if paths == [] then 0 else |paths[0]| + TotalCost(paths[1..])
  }

  /** Replacing one agent's path changes the cost by the difference of the
      two lengths. */
  lemma {:induction false} TotalCostUpdate(paths: seq<Path>, k: nat, q: Path)
    requires k < |paths|
    ensures TotalCost(paths[k := q]) == TotalCost(paths) - |paths[k]| + |q|
  {
    if k > 0 {
      assert paths[k := q][1..] == paths[1..][k - 1 := q];
      TotalCostUpdate(paths[1..], k - 1, q);
    } else {
      assert paths[k := q][1..] == paths[1..];
    }
  }

  /** With no empty path, the cost is at least the number of agents. */
  lemma {:induction false} TotalCostAtLeastAgents(paths: seq<Path>)
    requires AllNonEmpty(paths)
    ensures TotalCost(paths) >= |paths|
  {
    if paths != [] {
      assert AllNonEmpty(paths[1..]) by {
        forall k | 0 <= k < |paths[1..]| ensures paths[1..][k] != [] {
          assert paths[1..][k] == paths[k + 1];
        }
      }
      TotalCostAtLeastAgents(paths[1..]);
    }
  }

  /** `math.hypot(a - b) < safe`. */
  predicate Close(a: Point, b: Point, safe: real) {
    HypotLess(a.x - b.x, a.y - b.y, safe)
  }

  /** The agents at positions `i` and `j` are too close at timestep `t`. */
  predicate Clash(paths: seq<Path>, safe: real, t: nat, i: nat, j: nat)
    requires AllNonEmpty(paths) && i < |paths| && j < |paths|
  {
    Close(PosAt(paths[i], t), PosAt(paths[j], t), safe)
  }

  /** No pair `(i, j)` with `i < iBound` clashes at `t`. */
  predicate RowsClear(paths: seq<Path>, safe: real, t: nat, iBound: nat)
    requires AllNonEmpty(paths)
  {
    forall i, j :: 0 <= i < iBound && i < j < |paths| ==> !Clash(paths, safe, t, i, j)
  }

  /** No pair `(i, j)` with `i < j < jBound` clashes at `t`. */
  predicate RowClear(paths: seq<Path>, safe: real, t: nat, i: nat, jBound: nat)
    requires AllNonEmpty(paths) && i < |paths|
  {
    forall j :: i < j < jBound && j < |paths| ==> !Clash(paths, safe, t, i, j)
  }

  /** No pair clashes at any timestep below `tBound`. */
  predicate TimesClear(paths: seq<Path>, safe: real, tBound: nat)
    requires AllNonEmpty(paths)
  {
    forall t: nat :: t < tBound ==> RowsClear(paths, safe, t, |paths|)
  }

  /** No two agents come closer than `safe` at any timestep up to the end of
      the longest path. */
  predicate NoConflict(paths: seq<Path>, safe: real)
    requires AllNonEmpty(paths)
  {
    TimesClear(paths, safe, MaxLen(paths))
  }

  function Midpoint(a: Point, b: Point): Point {
    Point((a.x + b.x) / 2.0, (a.y + b.y) / 2.0)
  }

  /** `c` is the conflict the scan of `detect_conflict` meets first: a clash
      at the smallest timestep, and within it at the first pair in
      iteration order, located at the midpoint of the two positions. */
  predicate IsFirstConflict(paths: seq<Path>, safe: real, c: Conflict)
    requires AllNonEmpty(paths)
  {
    && c.t < MaxLen(paths)
    && c.i < c.j < |paths|
    && Clash(paths, safe, c.t, c.i, c.j)
    && c.pos == Midpoint(PosAt(paths[c.i], c.t), PosAt(paths[c.j], c.t))
    && TimesClear(paths, safe, c.t)
    && RowsClear(paths, safe, c.t, c.i)
    && RowClear(paths, safe, c.t, c.i, c.j)
  }

  /** The first conflict is unique. */
  lemma FirstConflictUnique(paths: seq<Path>, safe: real, c: Conflict, d: Conflict)
    requires AllNonEmpty(paths)
    requires IsFirstConflict(paths, safe, c) && IsFirstConflict(paths, safe, d)
    ensures c == d
  {
    assert !RowsClear(paths, safe, c.t, |paths|) && !RowsClear(paths, safe, d.t, |paths|);
    assert !RowsClear(paths, safe, c.t, c.i + 1) && !RowsClear(paths, safe, d.t, d.i + 1);
    assert !RowClear(paths, safe, c.t, c.i, c.j + 1) && !RowClear(paths, safe, d.t, d.i, d.j + 1);
  }

  /** A first conflict exists exactly when the paths are not conflict-free. */
  lemma FirstConflictExists(paths: seq<Path>, safe: real)
    requires AllNonEmpty(paths)
    ensures !NoConflict(paths, safe) <==> exists c :: IsFirstConflict(paths, safe, c)
  {
    forall c | IsFirstConflict(paths, safe, c) ensures !NoConflict(paths, safe) {
      assert !RowsClear(paths, safe, c.t, |paths|);
    }
    if !NoConflict(paths, safe) {
      var t: nat :| t < MaxLen(paths) && !RowsClear(paths, safe, t, |paths|);
      var t0 := EarliestBadTime(paths, safe, t);
      var i, j :| 0 <= i < |paths| && i < j < |paths| && Clash(paths, safe, t0, i, j);
      var i0 := EarliestBadRow(paths, safe, t0, i, j);
      var j1 :| i0 < j1 < |paths| && Clash(paths, safe, t0, i0, j1);
      var j0 := EarliestBadColumn(paths, safe, t0, i0, j1);
      var c := Conflict(i0, j0, t0, Midpoint(PosAt(paths[i0], t0), PosAt(paths[j0], t0)));
      assert IsFirstConflict(paths, safe, c);
    }
  }

  lemma {:induction false} EarliestBadTime(paths: seq<Path>, safe: real, t: nat) returns (t0: nat)
    requires AllNonEmpty(paths) && !RowsClear(paths, safe, t, |paths|)
    ensures t0 <= t && !RowsClear(paths, safe, t0, |paths|) && TimesClear(paths, safe, t0)
    decreases t
  {
    if TimesClear(paths, safe, t) {
      t0 := t;
    } else {
      var s: nat :| s < t && !RowsClear(paths, safe, s, |paths|);
      t0 := EarliestBadTime(paths, safe, s);
    }
  }

  lemma {:induction false} EarliestBadRow(paths: seq<Path>, safe: real, t: nat, i: nat, j: nat) returns (i0: nat)
    requires AllNonEmpty(paths) && i < j < |paths| && Clash(paths, safe, t, i, j)
    ensures i0 <= i && RowsClear(paths, safe, t, i0)
    ensures exists j1 :: i0 < j1 < |paths| && Clash(paths, safe, t, i0, j1)
    decreases i
  {
    if RowsClear(paths, safe, t, i) {
      i0 := i;
    } else {
      var a, b :| 0 <= a < i && a < b < |paths| && Clash(paths, safe, t, a, b);
      i0 := EarliestBadRow(paths, safe, t, a, b);
    }
  }

  lemma {:induction false} EarliestBadColumn(paths: seq<Path>, safe: real, t: nat, i: nat, j: nat) returns (j0: nat)
    requires AllNonEmpty(paths) && i < j < |paths| && Clash(paths, safe, t, i, j)
    ensures i < j0 <= j && Clash(paths, safe, t, i, j0) && RowClear(paths, safe, t, i, j0)
    decreases j
  {
    if RowClear(paths, safe, t, i, j) {
      j0 := j;
    } else {
      var b :| i < b < j && b < |paths| && Clash(paths, safe, t, i, b);
      j0 := EarliestBadColumn(paths, safe, t, i, b);
    }
  }

  /** The `positions` list built for timestep `t`. */
  method Positions(paths: seq<Path>, t: nat) returns (pos: seq<Point>)
    requires AllNonEmpty(paths)
    ensures |pos| == |paths|
    ensures forall k :: 0 <= k < |paths| ==> pos[k] == PosAt(paths[k], t)
  {
    pos := [];
    var k := 0;
    while k < |paths|
      invariant 0 <= k <= |paths| && |pos| == k
      invariant forall a :: 0 <= a < k ==> pos[a] == PosAt(paths[a], t)
    {
      var path := paths[k];
      if t < |path| {
        pos := pos + [Point(path[t].x, path[t].y)];
      } else {
        pos := pos + [Point(path[|path| - 1].x, path[|path| - 1].y)];
      }
      k := k + 1;
    }
  }

  /** `detect_conflict`: scan timesteps, then pairs `i < j`, and report the
      first pair closer than `safe`. The source crashes on an empty path
      mapping (`max` of nothing) and on an empty path, hence the
      precondition. */
  method DetectConflict(paths: seq<Path>, safe: real) returns (c: Option<Conflict>)
    requires paths != [] && AllNonEmpty(paths)
    ensures c.None? <==> NoConflict(paths, safe)
    ensures c.Some? ==> IsFirstConflict(paths, safe, c.value)
  {
    var maxT := MaxLen(paths);
    var t := 0;
    while t < maxT
      invariant 0 <= t <= maxT
      invariant TimesClear(paths, safe, t)
    {
      var pos := Positions(paths, t);
      var i := 0;
      while i < |pos|
        invariant 0 <= i <= |pos|
        invariant RowsClear(paths, safe, t, i)
      {
        var j := i + 1;
        while j < |pos|
          invariant i < j <= |pos|
          invariant RowClear(paths, safe, t, i, j)
        {
          if HypotLess(pos[i].x - pos[j].x, pos[i].y - pos[j].y, safe) {
            var mid := Point((pos[i].x + pos[j].x) / 2.0, (pos[i].y + pos[j].y) / 2.0);
            c := Some(Conflict(i, j, t, mid));
            assert IsFirstConflict(paths, safe, c.value);
            FirstConflictExists(paths, safe);
            return;
          }
          j := j + 1;
        }
        i := i + 1;
      }
      t := t + 1;
    }
    c := None;
  }

  /** `c` forbids `agent` from being within `safe` of `c.pos` at `t`. */
  predicate Hits(c: Constraint, agent: AgentId, p: Point, t: nat, safe: real) {
    c.agent == agent && c.timestep == t && Close(p, c.pos, safe)
  }

  /** `is_constrained` of `replan`. */
  predicate Constrained(constraints: seq<Constraint>, agent: AgentId, p: Point, t: nat, safe: real) {
    exists k :: 0 <= k < |constraints| && Hits(constraints[k], agent, p, t, safe)
  }

  /** The early-exit scan of `is_constrained`. */
  method IsConstrained(constraints: seq<Constraint>, agent: AgentId, p: Point, t: nat, safe: real)
    returns (b: bool)
    ensures b <==> Constrained(constraints, agent, p, t, safe)
  {
    var k := 0;
    while k < |constraints|
      invariant 0 <= k <= |constraints|
      invariant forall a :: 0 <= a < k ==> !Hits(constraints[a], agent, p, t, safe)
    {
      var c := constraints[k];
      if c.agent == agent && c.timestep == t {
        if HypotLess(p.x - c.pos.x, p.y - c.pos.y, safe) {
          return true;
        }
      }
      k := k + 1;
    }
    return false;
  }

  /** Some pose of `raw` breaks a constraint of `agent` at its own index. */
  predicate Violates(raw: Path, constraints: seq<Constraint>, agent: AgentId, safe: real) {
    exists t: nat :: t < |raw| && Constrained(constraints, agent, raw[t].Position(), t, safe)
  }

  /** What `replan` returns: the planner's unconstrained path when none of
      its poses breaks a constraint of this agent, and nothing otherwise. */
  function Validated(env: Env, constraints: seq<Constraint>, agent: AgentId): Option<Path> {
    match RawPlan(env, agent)
    case None => None
    case Some(raw) => if Violates(raw, constraints, agent, env.safe) then None else Some(raw)
  }

  /** `replan`: plan without constraints, then reject the whole path if
      any pose breaks a constraint; it never searches around one. */
  method Replan(env: Env, agent: AgentId, constraints: seq<Constraint>) returns (r: Option<Path>)
    ensures r == Validated(env, constraints, agent)
  {
    var raw := env.plan(env.lookup(agent), env.goal);
    if raw.None? {
      return None;
    }
    var path := raw.value;
    var newPath: Path := [];
    var t := 0;
    while t < |path|
      invariant 0 <= t <= |path| && newPath == path[..t]
      invariant forall s: nat :: s < t ==> !Constrained(constraints, agent, path[s].Position(), s, env.safe)
    {
      var hit := IsConstrained(constraints, agent, Point(path[t].x, path[t].y), t, env.safe);
      if hit {
        return None;
      }
      newPath := newPath + [path[t]];
      t := t + 1;
    }
    assert newPath == path;
    return Some(newPath);
  }

  /** `replan` returns nothing or exactly the planner's own path, and a
      returned path breaks none of the agent's constraints. */
  lemma ValidatedSound(env: Env, constraints: seq<Constraint>, agent: AgentId)
    ensures Validated(env, constraints, agent).Some? ==> RawPlan(env, agent) == Validated(env, constraints, agent)
    ensures Validated(env, constraints, agent).Some? ==>
      var path := Validated(env, constraints, agent).value;
      forall t: nat, k :: t < |path| && 0 <= k < |constraints| ==> !Hits(constraints[k], agent, path[t].Position(), t, env.safe)
    ensures RawPlan(env, agent).Some? && !Violates(RawPlan(env, agent).value, constraints, agent, env.safe) ==>
      Validated(env, constraints, agent) == RawPlan(env, agent)
  {
  }

  /** A constraint on another agent, or on a timestep at or beyond the end
      of the planner's path, never changes what `replan` returns. */
  lemma ValidatedIgnores(env: Env, constraints: seq<Constraint>, agent: AgentId, c: Constraint)
    requires c.agent != agent || (RawPlan(env, agent).Some? && c.timestep >= |RawPlan(env, agent).value|)
    ensures Validated(env, constraints + [c], agent) == Validated(env, constraints, agent)
  {
    var cs := constraints + [c];
    if RawPlan(env, agent).Some? {
      var raw := RawPlan(env, agent).value;
      forall t: nat | t < |raw| ensures Constrained(cs, agent, raw[t].Position(), t, env.safe) <==> Constrained(constraints, agent, raw[t].Position(), t, env.safe) {
        if Constrained(cs, agent, raw[t].Position(), t, env.safe) {
          var k :| 0 <= k < |cs| && Hits(cs[k], agent, raw[t].Position(), t, env.safe);
          assert k < |constraints| && Hits(constraints[k], agent, raw[t].Position(), t, env.safe);
        }
        if Constrained(constraints, agent, raw[t].Position(), t, env.safe) {
          var k :| 0 <= k < |constraints| && Hits(constraints[k], agent, raw[t].Position(), t, env.safe);
          assert Hits(cs[k], agent, raw[t].Position(), t, env.safe);
        }
      }
    }
  }

  /** The midpoint of two positions closer than `safe` is closer than
      `safe` to each of them. */
  lemma MidpointClose(a: Point, b: Point, safe: real)
    requires Close(a, b, safe)
    ensures Close(a, Midpoint(a, b), safe) && Close(b, Midpoint(a, b), safe)
  {
    var dx, dy := a.x - b.x, a.y - b.y;
    assert a.x - Midpoint(a, b).x == dx / 2.0 && a.y - Midpoint(a, b).y == dy / 2.0;
    assert b.x - Midpoint(a, b).x == -dx / 2.0 && b.y - Midpoint(a, b).y == -dy / 2.0;
    assert (dx / 2.0) * (dx / 2.0) + (dy / 2.0) * (dy / 2.0) == (dx * dx + dy * dy) / 4.0;
  }

  /** The constraint a conflict adds for one of its agents rejects that
      agent's path whenever the agent is still moving at the conflict's
      timestep. */
  lemma ConflictConstraintRejects(env: Env, ids: seq<AgentId>, paths: seq<Path>, c: Conflict, k: nat, constraints: seq<Constraint>)
    requires AllNonEmpty(paths) && |paths| == |ids|
    requires IsFirstConflict(paths, env.safe, c) && (k == c.i || k == c.j)
    requires RawPlan(env, ids[k]) == Some(paths[k]) && c.t < |paths[k]|
    ensures Validated(env, constraints + [Constraint(ids[k], c.pos, c.t)], ids[k]) == None
  {
    var cs := constraints + [Constraint(ids[k], c.pos, c.t)];
    MidpointClose(PosAt(paths[c.i], c.t), PosAt(paths[c.j], c.t), env.safe);
    assert Hits(cs[|cs| - 1], ids[k], paths[k][c.t].Position(), c.t, env.safe);
    assert Constrained(cs, ids[k], paths[k][c.t].Position(), c.t, env.safe);
  }

  /** A child of a constraint-tree node: its paths and constraints. */
  datatype Child = Child(paths: seq<Path>, constraints: seq<Constraint>)

  /** The child for agent position `k`: one more constraint for that agent,
      its path replaced by what `replan` returns, or no child when `replan`
      fails. */
  function Branch(env: Env, ids: seq<AgentId>, paths: seq<Path>, constraints: seq<Constraint>, c: Conflict, k: nat): Option<Child>
    requires k < |paths| && k < |ids|
  {
    var cs := constraints + [Constraint(ids[k], c.pos, c.t)];
    match Validated(env, cs, ids[k])
    case None => None
    case Some(q) => Some(Child(paths[k := q], cs))
  }

  /** The `for agent in [agent1, agent2]` loop: the children of a node for
      conflict `c`, first agent first, infeasible ones dropped. */
  method Children(env: Env, ids: seq<AgentId>, paths: seq<Path>, constraints: seq<Constraint>, c: Conflict)
    returns (kids: seq<Child>)
    requires c.i < c.j < |paths| == |ids|
    ensures kids == OptionList(Branch(env, ids, paths, constraints, c, c.i)) + OptionList(Branch(env, ids, paths, constraints, c, c.j))
  {
    kids := [];
    var agents := [c.i, c.j];
    var n := 0;
    while n < 2
      invariant 0 <= n <= 2
      invariant kids == (if n == 0 then [] else OptionList(Branch(env, ids, paths, constraints, c, c.i))) +
                        (if n <= 1 then [] else OptionList(Branch(env, ids, paths, constraints, c, c.j)))
    {
      var k := agents[n];
      var newConstraints := constraints + [Constraint(ids[k], c.pos, c.t)];
      var replanned := Replan(env, ids[k], newConstraints);
      if replanned.Some? {
        kids := kids + [Child(paths[k := replanned.value], newConstraints)];
      }
      n := n + 1;
    }
  }

  function OptionList<T>(o: Option<T>): seq<T> {
    if o.Some? then [o.value] else []
  }

  /** Each child has exactly one more constraint than its parent, for one of
      the two conflicting agents at the conflict's place and time, and the
      parent's paths except for that agent's. */
  lemma BranchShape(env: Env, ids: seq<AgentId>, paths: seq<Path>, constraints: seq<Constraint>, c: Conflict, k: nat)
    requires k < |paths| && k < |ids|
    ensures Branch(env, ids, paths, constraints, c, k).Some? ==>
      var kid := Branch(env, ids, paths, constraints, c, k).value;
      && kid.constraints == constraints + [Constraint(ids[k], c.pos, c.t)]
      && |kid.paths| == |paths|
      && (forall a :: 0 <= a < |paths| && a != k ==> kid.paths[a] == paths[a])
      && RawPlan(env, ids[k]) == Some(kid.paths[k])
  {
    ValidatedSound(env, constraints + [Constraint(ids[k], c.pos, c.t)], ids[k]);
  }

  /** The independent plans: every agent's planner path, in agent order. */
  ghost predicate PlannedAll(env: Env, ids: seq<AgentId>, paths: seq<Path>) {
    |paths| == |ids| && forall k :: 0 <= k < |ids| ==> RawPlan(env, ids[k]) == Some(paths[k])
  }

  /** Some agent's independent plan fails. */
  ghost predicate SomePlanFails(env: Env, ids: seq<AgentId>) {
    exists k :: 0 <= k < |ids| && RawPlan(env, ids[k]).None?
  }

  /** The initial loop of `find_solution`: plan every agent independently;
      give up as soon as one plan fails. */
  method PlanAll(env: Env, ids: seq<AgentId>) returns (r: Option<seq<Path>>)
    ensures r.None? <==> SomePlanFails(env, ids)
    ensures r.Some? ==> PlannedAll(env, ids, r.value)
  {
    var paths: seq<Path> := [];
    var k := 0;
    while k < |ids|
      invariant 0 <= k <= |ids|
      invariant PlannedAll(env, ids[..k], paths)
    {
      var path := env.plan(env.lookup(ids[k]), env.goal);
      if path.None? {
        return None;
      }
      paths := paths + [path.value];
      k := k + 1;
    }
    assert ids[..k] == ids;
    return Some(paths);
  }

  /** Planning every agent again after a branch changes nothing: a child's
      paths are the parent's whenever the parent's paths are the independent
      plans. */
  lemma BranchKeepsPlans(env: Env, ids: seq<AgentId>, paths: seq<Path>, constraints: seq<Constraint>, c: Conflict, k: nat)
    requires k < |ids| && PlannedAll(env, ids, paths)
    ensures Branch(env, ids, paths, constraints, c, k).Some? ==> Branch(env, ids, paths, constraints, c, k).value.paths == paths
  {
    BranchShape(env, ids, paths, constraints, c, k);
  }

  /** What `find_solution` returns: a conflict-free path set, `None`, or (in
      the model only) no verdict within the pop budget. */
  datatype Outcome = Solution(paths: seq<Path>) | NoSolution | OutOfFuel

  /** The independent plans, when none fails. */
  ghost function RootPaths(env: Env, ids: seq<AgentId>): seq<Path>
    requires !SomePlanFails(env, ids)
  {
    seq(|ids|, k requires 0 <= k < |ids| => RawPlan(env, ids[k]).value)
  }

  /** The independent plans are determined by the planner, and none of them
      is empty. */
  lemma PlannedAllIsRoot(env: Env, ids: seq<AgentId>, paths: seq<Path>)
    requires PlannedAll(env, ids, paths) && PlansNonEmpty(env)
    ensures !SomePlanFails(env, ids) && paths == RootPaths(env, ids)
    ensures AllNonEmpty(paths)
  {
    forall k | 0 <= k < |paths| ensures paths[k] != [] {
      assert env.plan(env.lookup(ids[k]), env.goal).Some?;
    }
  }

  /** Both agents of conflict `c` are still moving at its timestep. */
  predicate BothMoving(paths: seq<Path>, c: Conflict)
    requires c.i < |paths| && c.j < |paths|
  {
    c.t < |paths[c.i]| && c.t < |paths[c.j]|
  }

  /** Every constraint of a constraint-tree node comes from conflict `c`. */
  ghost predicate FromConflict(ids: seq<AgentId>, c: Conflict, constraints: seq<Constraint>)
    requires c.i < |ids| && c.j < |ids|
  {
    forall k :: 0 <= k < |constraints| ==>
      constraints[k] == Constraint(ids[c.i], c.pos, c.t) || constraints[k] == Constraint(ids[c.j], c.pos, c.t)
  }

  /** An agent parked before the conflict's timestep keeps its planner path
      under any number of the conflict's constraints. */
  lemma ParkedBranchSurvives(env: Env, ids: seq<AgentId>, paths: seq<Path>, constraints: seq<Constraint>, c: Conflict, k: nat)
    requires Distinct(ids) && PlannedAll(env, ids, paths)
    requires c.i < |ids| && c.j < |ids| && (k == c.i || k == c.j) && c.t >= |paths[k]|
    requires FromConflict(ids, c, constraints)
    ensures Branch(env, ids, paths, constraints, c, k).Some?
  {
    var cs := constraints + [Constraint(ids[k], c.pos, c.t)];
    var raw := paths[k];
    forall t: nat | t < |raw| ensures !Constrained(cs, ids[k], raw[t].Position(), t, env.safe) {
      forall a | 0 <= a < |cs| ensures !Hits(cs[a], ids[k], raw[t].Position(), t, env.safe) {
        if a < |constraints| {
          assert constraints[a] == cs[a];
        }
      }
    }
  }

  /** The children of conflict `c`, in the order they are pushed. */
  function Kids(env: Env, ids: seq<AgentId>, paths: seq<Path>, constraints: seq<Constraint>, c: Conflict): seq<Child>
    requires c.i < |paths| && c.j < |paths| && |paths| == |ids|
  {
    OptionList(Branch(env, ids, paths, constraints, c, c.i)) + OptionList(Branch(env, ids, paths, constraints, c, c.j))
  }

  /** Below the independent plans, every child again carries the
      independent plans, and only constraints from the same conflict. */
  lemma KidsShared(env: Env, ids: seq<AgentId>, root: seq<Path>, constraints: seq<Constraint>, c: Conflict)
    requires PlannedAll(env, ids, root) && c.i < |ids| && c.j < |ids|
    requires FromConflict(ids, c, constraints)
    ensures forall a :: 0 <= a < |Kids(env, ids, root, constraints, c)| ==>
      Kids(env, ids, root, constraints, c)[a].paths == root && FromConflict(ids, c, Kids(env, ids, root, constraints, c)[a].constraints)
  {
    BranchKeepsPlans(env, ids, root, constraints, c, c.i);
    BranchKeepsPlans(env, ids, root, constraints, c, c.j);
    BranchShape(env, ids, root, constraints, c, c.i);
    BranchShape(env, ids, root, constraints, c, c.j);
  }

  /** Below the independent plans, a node with the first conflict `c` has no
      child when both agents are still moving at `c`, and at least one
      otherwise. */
  lemma KidsEmptyIff(env: Env, ids: seq<AgentId>, root: seq<Path>, constraints: seq<Constraint>, c: Conflict)
    requires Distinct(ids) && PlannedAll(env, ids, root) && AllNonEmpty(root)
    requires IsFirstConflict(root, env.safe, c) && FromConflict(ids, c, constraints)
    ensures BothMoving(root, c) <==> Kids(env, ids, root, constraints, c) == []
  {
    if BothMoving(root, c) {
      ConflictConstraintRejects(env, ids, root, c, c.i, constraints);
      ConflictConstraintRejects(env, ids, root, c, c.j, constraints);
    } else if c.t >= |root[c.i]| {
      ParkedBranchSurvives(env, ids, root, constraints, c, c.i);
    } else {
      ParkedBranchSurvives(env, ids, root, constraints, c, c.j);
    }
  }

  /** The first conflict of the independent plans, when they have one, is
      `c`, and it is the only one. */
  ghost predicate RootConflict(root: seq<Path>, safe: real, conflicted: bool, c: Conflict)
    requires AllNonEmpty(root)
  {
    && (conflicted <==> !NoConflict(root, safe))
    && (conflicted ==> IsFirstConflict(root, safe, c))
    && (forall d :: IsFirstConflict(root, safe, d) ==> conflicted && d == c)
  }

  /** Picks the first conflict of the paths, if any. */
  lemma ChooseRootConflict(root: seq<Path>, safe: real) returns (conflicted: bool, c: Conflict)
    requires AllNonEmpty(root)
    ensures RootConflict(root, safe, conflicted, c)
  {
    FirstConflictExists(root, safe);
    conflicted := !NoConflict(root, safe);
    c := Conflict(0, 0, 0, Point(0.0, 0.0));
    if conflicted {
      c :| IsFirstConflict(root, safe, c);
      forall d | IsFirstConflict(root, safe, d) ensures conflicted && d == c {
        FirstConflictUnique(root, safe, d, c);
      }
    }
  }
}
