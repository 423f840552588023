/** `ECBSPlanner.find_solution`: constraint-tree search that keeps every
    generated node in an open list ordered by cost, and pops from a focal
    list of the nodes within `epsilon` times the best cost, fewest
    conflicts first. */
module ECBS {
  import opened Common
  import opened MultiAgent

  /** The defaults of an `ECBSPlanner`. */
  const DefaultSafeDistance: real := 0.5
  const DefaultEpsilon: real := 1.5

  /** `ECBSNode(paths, constraints, cost, conflicts)`. */
  datatype Node = Node(paths: seq<Path>, constraints: seq<Constraint>, cost: nat, conflicts: nat)

  // ---------------------------------------------------------------------
  // count_conflicts
  // ---------------------------------------------------------------------

  /** The clashing pairs `(i, j)` with `i < j < jEnd` at timestep `t`. */
  function RowCount(paths: seq<Path>, safe: real, t: nat, i: nat, jEnd: nat): nat
    requires AllNonEmpty(paths) && i < |paths| && jEnd <= |paths|
    decreases jEnd
  {
    if jEnd <= i + 1 then 0
    else RowCount(paths, safe, t, i, jEnd - 1) + (if Clash(paths, safe, t, i, jEnd - 1) then 1 else 0)
  }

  /** The clashing pairs `(i, j)` with `i < iEnd` at timestep `t`. */
  function StepCount(paths: seq<Path>, safe: real, t: nat, iEnd: nat): nat
    requires AllNonEmpty(paths) && iEnd <= |paths|
  {
    if iEnd == 0 then 0
    else StepCount(paths, safe, t, iEnd - 1) + RowCount(paths, safe, t, iEnd - 1, |paths|)
  }

  /** The clashing pairs over all timesteps below `tEnd`. */
  function TimesCount(paths: seq<Path>, safe: real, tEnd: nat): nat
    requires AllNonEmpty(paths)
  {
    if tEnd == 0 then 0
    else TimesCount(paths, safe, tEnd - 1) + StepCount(paths, safe, tEnd - 1, |paths|)
  }

  /** What `count_conflicts` counts: every clashing (timestep, pair). */
  function ConflictCount(paths: seq<Path>, safe: real): nat
    requires AllNonEmpty(paths)
  {
    TimesCount(paths, safe, MaxLen(paths))
  }

  lemma {:induction false} RowCountZero(paths: seq<Path>, safe: real, t: nat, i: nat, jEnd: nat)
    requires AllNonEmpty(paths) && i < |paths| && jEnd <= |paths|
    ensures RowCount(paths, safe, t, i, jEnd) == 0 <==> RowClear(paths, safe, t, i, jEnd)
    decreases jEnd
  {
    if jEnd > i + 1 {
      RowCountZero(paths, safe, t, i, jEnd - 1);
      if RowClear(paths, safe, t, i, jEnd) {
        assert RowClear(paths, safe, t, i, jEnd - 1);
      }
    }
  }

  lemma {:induction false} StepCountZero(paths: seq<Path>, safe: real, t: nat, iEnd: nat)
    requires AllNonEmpty(paths) && iEnd <= |paths|
    ensures StepCount(paths, safe, t, iEnd) == 0 <==> RowsClear(paths, safe, t, iEnd)
  {
    if iEnd > 0 {
      var i := iEnd - 1;
      StepCountZero(paths, safe, t, i);
      RowCountZero(paths, safe, t, i, |paths|);
      if RowsClear(paths, safe, t, iEnd) {
        assert RowsClear(paths, safe, t, i);
        assert RowClear(paths, safe, t, i, |paths|);
      }
      if RowsClear(paths, safe, t, i) && RowClear(paths, safe, t, i, |paths|) {
        forall a, b | 0 <= a < iEnd && a < b < |paths| ensures !Clash(paths, safe, t, a, b) {
          if a == i {
            assert !Clash(paths, safe, t, i, b);
          }
        }
      }
    }
  }

  lemma {:induction false} TimesCountZero(paths: seq<Path>, safe: real, tEnd: nat)
    requires AllNonEmpty(paths)
    ensures TimesCount(paths, safe, tEnd) == 0 <==> TimesClear(paths, safe, tEnd)
  {
    if tEnd > 0 {
      TimesCountZero(paths, safe, tEnd - 1);
      StepCountZero(paths, safe, tEnd - 1, |paths|);
      if TimesClear(paths, safe, tEnd) {
        assert RowsClear(paths, safe, tEnd - 1, |paths|);
      }
    }
  }

  /** `count_conflicts` is zero exactly when `detect_conflict` finds
      nothing. */
  lemma ConflictCountZero(paths: seq<Path>, safe: real)
    requires AllNonEmpty(paths)
    ensures ConflictCount(paths, safe) == 0 <==> NoConflict(paths, safe)
  {
    TimesCountZero(paths, safe, MaxLen(paths));
  }

  /** At most `jEnd - i - 1` pairs per row. */
  lemma {:induction false} RowCountBound(paths: seq<Path>, safe: real, t: nat, i: nat, jEnd: nat)
    requires AllNonEmpty(paths) && i < |paths| && jEnd <= |paths|
    ensures RowCount(paths, safe, t, i, jEnd) <= if jEnd <= i + 1 then 0 else jEnd - i - 1
    decreases jEnd
  {
    if jEnd > i + 1 {
      RowCountBound(paths, safe, t, i, jEnd - 1);
    }
  }

  /** Row `i` holds at most `n - 1 - i` clashing pairs, so the first `iEnd`
      rows hold at most `iEnd * (2n - 1 - iEnd) / 2`. */
  lemma {:induction false} StepCountBound(paths: seq<Path>, safe: real, t: nat, iEnd: nat)
    requires AllNonEmpty(paths) && iEnd <= |paths|
    ensures 2 * StepCount(paths, safe, t, iEnd) <= iEnd * (2 * |paths| - 1 - iEnd)
  {
    if iEnd > 0 {
      var i, n := iEnd - 1, |paths|;
      StepCountBound(paths, safe, t, i);
      RowCountBound(paths, safe, t, i, n);
      RowSumStep(i, n);
    }
  }

  lemma RowSumStep(i: int, n: int)
    ensures i * (2 * n - 1 - i) + 2 * (n - (i + 1)) == (i + 1) * (2 * n - 1 - (i + 1))
  {
  }

  /** At most `n * (n - 1) / 2` clashing pairs per timestep, so at most
      `tEnd * n * (n - 1) / 2` in all: each unordered pair counts once per
      timestep. */
  lemma {:induction false} TimesCountBound(paths: seq<Path>, safe: real, tEnd: nat)
    requires AllNonEmpty(paths)
    ensures 2 * TimesCount(paths, safe, tEnd) <= tEnd * (|paths| * (|paths| - 1))
  {
    if tEnd > 0 {
      TimesCountBound(paths, safe, tEnd - 1);
      StepCountBound(paths, safe, tEnd - 1, |paths|);
      assert |paths| * (2 * |paths| - 1 - |paths|) == |paths| * (|paths| - 1);
      assert tEnd * (|paths| * (|paths| - 1)) == (tEnd - 1) * (|paths| * (|paths| - 1)) + |paths| * (|paths| - 1);
    }
  }

  /** `count_conflicts`: the same scan as `detect_conflict`, counting every
      clashing pair at every timestep instead of stopping at the first. The
      source crashes on an empty path mapping and on an empty path, hence
      the precondition. */
  method CountConflicts(paths: seq<Path>, safe: real) returns (count: nat)
    requires paths != [] && AllNonEmpty(paths)
    ensures count == ConflictCount(paths, safe)
    ensures count == 0 <==> NoConflict(paths, safe)
  {
    count := 0;
    var maxT := MaxLen(paths);
    var t := 0;
    while t < maxT
      invariant 0 <= t <= maxT
      invariant count == TimesCount(paths, safe, t)
    {
      var pos := Positions(paths, t);
      var i := 0;
      while i < |pos|
        invariant 0 <= i <= |pos|
        invariant count == TimesCount(paths, safe, t) + StepCount(paths, safe, t, i)
      {
        var j := i + 1;
        while j < |pos|
          invariant i < j <= |pos|
          invariant count == TimesCount(paths, safe, t) + StepCount(paths, safe, t, i) + RowCount(paths, safe, t, i, j)
        {
          if HypotLess(pos[i].x - pos[j].x, pos[i].y - pos[j].y, safe) {
            count := count + 1;
          }
          j := j + 1;
        }
        i := i + 1;
      }
      t := t + 1;
    }
    ConflictCountZero(paths, safe);
  }

  // ---------------------------------------------------------------------
  // Open and focal lists
  // ---------------------------------------------------------------------

  /** `cost <= self.epsilon * best_cost`. */
  predicate Within(cost: nat, eps: real, best: nat) {
    (cost as real) <= eps * (best as real)
  }

  /** The focal list comprehension: the open nodes within `eps` times
      `best`, in open-list order. */
  function FocalOf(open: seq<Node>, eps: real, best: nat): seq<Node> {
    if open == [] then []
    else (if Within(open[0].cost, eps, best) then [open[0]] else []) + FocalOf(open[1..], eps, best)
  }

  /** The focal list holds exactly the open nodes within the bound. */
  lemma {:induction false} FocalOfMembers(open: seq<Node>, eps: real, best: nat)
    ensures |FocalOf(open, eps, best)| <= |open|
    ensures forall n :: n in FocalOf(open, eps, best) <==> n in open && Within(n.cost, eps, best)
  {
    if open != [] {
      FocalOfMembers(open[1..], eps, best);
      assert open == [open[0]] + open[1..];
    }
  }

  /** When every open node has the same cost, the focal list is all of the
      open list or nothing. */
  lemma {:induction false} FocalOfUniform(open: seq<Node>, eps: real, cost: nat)
    requires forall a :: 0 <= a < |open| ==> open[a].cost == cost
    ensures Within(cost, eps, cost) ==> FocalOf(open, eps, cost) == open
    ensures !Within(cost, eps, cost) ==> FocalOf(open, eps, cost) == []
  {
    if open != [] {
      assert forall a :: 0 <= a < |open[1..]| ==> open[1..][a] == open[a + 1];
      FocalOfUniform(open[1..], eps, cost);
      assert open == [open[0]] + open[1..];
    }
  }

  /** A cost bounds itself exactly when `epsilon` is at least one. */
  lemma WithinSelf(cost: nat, eps: real)
    requires 0 < cost
    ensures Within(cost, eps, cost) <==> 1.0 <= eps
  {
    if 1.0 <= eps {
      MulMonotone(1.0, eps, cost as real);
    } else {
      MulMonotone(eps, 1.0, cost as real);
    }
  }

  /** `open_list[0][0]`: the least cost on the open heap. */
  function MinCost(open: seq<Node>): nat
    requires open != []
  {
    if |open| == 1 then open[0].cost
    else
      var rest := MinCost(open[1..]);
      if open[0].cost <= rest then open[0].cost else rest
  }

  lemma {:induction false} MinCostIsLeast(open: seq<Node>)
    requires open != []
    ensures forall a :: 0 <= a < |open| ==> MinCost(open) <= open[a].cost
    ensures exists a :: 0 <= a < |open| && MinCost(open) == open[a].cost
  {
    if |open| > 1 {
      MinCostIsLeast(open[1..]);
      assert forall a :: 1 <= a < |open| ==> open[a] == open[1..][a - 1];
      var b :| 0 <= b < |open[1..]| && MinCost(open[1..]) == open[1..][b].cost;
      assert open[1..][b] == open[b + 1];
      if open[0].cost <= MinCost(open[1..]) {
        assert MinCost(open) == open[0].cost;
      } else {
        assert MinCost(open) == open[b + 1].cost;
      }
    } else {
      assert MinCost(open) == open[0].cost;
    }
  }

  /** `heappop(focal_list)` on `(conflicts, node)` pairs: a node with the
      fewest conflicts (which of several is left open). */
  method PopFewest(focal: seq<Node>) returns (k: nat)
    requires focal != []
    ensures k < |focal|
    ensures forall j :: 0 <= j < |focal| ==> focal[k].conflicts <= focal[j].conflicts
  {
    k := 0;
    var j := 1;
    while j < |focal|
      invariant k < j <= |focal|
      invariant forall a :: 0 <= a < j ==> focal[k].conflicts <= focal[a].conflicts
    {
      if focal[j].conflicts < focal[k].conflicts {
        k := j;
      }
      j := j + 1;
    }
  }

  // ---------------------------------------------------------------------
  // Expansion
  // ---------------------------------------------------------------------

  /** Children keep every path non-empty when the planner never returns an
      empty path. */
  lemma KidsNonEmpty(env: Env, ids: seq<AgentId>, paths: seq<Path>, constraints: seq<Constraint>, c: Conflict)
    requires PlansNonEmpty(env) && AllNonEmpty(paths)
    requires c.i < |paths| && c.j < |paths| && |paths| == |ids|
    ensures forall a :: 0 <= a < |Kids(env, ids, paths, constraints, c)| ==>
      AllNonEmpty(Kids(env, ids, paths, constraints, c)[a].paths) && |Kids(env, ids, paths, constraints, c)[a].paths| == |paths|
  {
    BranchShape(env, ids, paths, constraints, c, c.i);
    BranchShape(env, ids, paths, constraints, c, c.j);
  }

  /** `ECBSNode(new_paths, new_constraints, cost, conflicts)`. */
  function NodeOf(kid: Child, safe: real): Node
    requires AllNonEmpty(kid.paths)
  {
    Node(kid.paths, kid.constraints, TotalCost(kid.paths), ConflictCount(kid.paths, safe))
  }

  /** The children of a node with conflict `c`, as nodes, in the order they
      are pushed. */
  function ChildNodes(env: Env, ids: seq<AgentId>, paths: seq<Path>, constraints: seq<Constraint>, c: Conflict): seq<Node>
    requires PlansNonEmpty(env) && AllNonEmpty(paths)
    requires c.i < |paths| && c.j < |paths| && |paths| == |ids|
  {
    var kids := Kids(env, ids, paths, constraints, c);
    KidsNonEmpty(env, ids, paths, constraints, c);
    seq(|kids|, a requires 0 <= a < |kids| => NodeOf(kids[a], env.safe))
  }

  /** The `for agent in [agent1, agent2]` loop of `find_solution`, with the
      cost and conflict count of each child. */
  method Expand(env: Env, ids: seq<AgentId>, node: Node, c: Conflict) returns (kids: seq<Node>)
    requires PlansNonEmpty(env) && AllNonEmpty(node.paths)
    requires c.i < c.j < |node.paths| == |ids|
    ensures kids == ChildNodes(env, ids, node.paths, node.constraints, c)
  {
    var children := Children(env, ids, node.paths, node.constraints, c);
    KidsNonEmpty(env, ids, node.paths, node.constraints, c);
    kids := [];
    var n := 0;
    while n < |children|
      invariant 0 <= n <= |children| && |kids| == n
      invariant forall a :: 0 <= a < n ==> kids[a] == NodeOf(children[a], env.safe)
    {
      var conflicts := CountConflicts(children[n].paths, env.safe);
      kids := kids + [Node(children[n].paths, children[n].constraints, TotalCost(children[n].paths), conflicts)];
      n := n + 1;
    }
  }

  /** A node of the search tree: the independent plans, their cost and
      conflict count, and (once the plans conflict) only constraints from
      their first conflict. */
  ghost predicate TreeNode(ids: seq<AgentId>, root: seq<Path>, safe: real, conflicted: bool, c: Conflict, n: Node)
    requires AllNonEmpty(root)
  {
    && n.paths == root && n.cost == TotalCost(root) && n.conflicts == ConflictCount(root, safe)
    && (conflicted ==> c.i < |ids| && c.j < |ids| && FromConflict(ids, c, n.constraints))
  }

  ghost predicate TreeNodes(ids: seq<AgentId>, root: seq<Path>, safe: real, conflicted: bool, c: Conflict, nodes: seq<Node>)
    requires AllNonEmpty(root)
  {
    forall n :: 0 <= n < |nodes| ==> TreeNode(ids, root, safe, conflicted, c, nodes[n])
  }

  lemma TreeNodesJoin(ids: seq<AgentId>, root: seq<Path>, safe: real, conflicted: bool, c: Conflict, a: seq<Node>, b: seq<Node>)
    requires AllNonEmpty(root)
    requires TreeNodes(ids, root, safe, conflicted, c, a) && TreeNodes(ids, root, safe, conflicted, c, b)
    ensures TreeNodes(ids, root, safe, conflicted, c, a + b)
  {
    forall n | 0 <= n < |a + b| ensures TreeNode(ids, root, safe, conflicted, c, (a + b)[n]) {
      if n < |a| {
        assert (a + b)[n] == a[n];
      } else {
        assert (a + b)[n] == b[n - |a|];
      }
    }
  }

  /** The focal list of tree nodes holds tree nodes. */
  lemma TreeNodesFocal(ids: seq<AgentId>, root: seq<Path>, safe: real, conflicted: bool, c: Conflict, open: seq<Node>, eps: real, best: nat)
    requires AllNonEmpty(root) && TreeNodes(ids, root, safe, conflicted, c, open)
    ensures TreeNodes(ids, root, safe, conflicted, c, FocalOf(open, eps, best))
  {
    FocalOfMembers(open, eps, best);
    var focal := FocalOf(open, eps, best);
    forall n | 0 <= n < |focal| ensures TreeNode(ids, root, safe, conflicted, c, focal[n]) {
      assert focal[n] in open;
    }
  }

  /** The children of a tree node are tree nodes. */
  lemma ChildNodesTree(env: Env, ids: seq<AgentId>, root: seq<Path>, constraints: seq<Constraint>, c: Conflict)
    requires PlansNonEmpty(env) && PlannedAll(env, ids, root) && AllNonEmpty(root)
    requires c.i < |ids| && c.j < |ids| && FromConflict(ids, c, constraints)
    ensures TreeNodes(ids, root, env.safe, true, c, ChildNodes(env, ids, root, constraints, c))
  {
    KidsShared(env, ids, root, constraints, c);
  }

  // ---------------------------------------------------------------------
  // find_solution
  // ---------------------------------------------------------------------

  /** One pass of the loop of `find_solution`: pop a node with the fewest
      conflicts from the focal list; return its paths if they are
      conflict-free; otherwise push its children onto the open list (the
      popped node stays there), rebuild the focal list against the old best
      cost, and take the new best cost from the open list. */
  method Step(env: Env, ids: seq<AgentId>, ghost root: seq<Path>, ghost conflicted: bool, ghost c0: Conflict,
              eps: real, open: seq<Node>, focal: seq<Node>, best: nat)
    returns (k: nat, done: Option<Outcome>, open2: seq<Node>, focal2: seq<Node>, best2: nat)
    requires Distinct(ids) && PlansNonEmpty(env) && PlannedAll(env, ids, root) && AllNonEmpty(root) && root != []
    requires RootConflict(root, env.safe, conflicted, c0)
    requires open != [] && TreeNodes(ids, root, env.safe, conflicted, c0, open)
    requires focal != [] && TreeNodes(ids, root, env.safe, conflicted, c0, focal)
    ensures k < |focal| && forall j :: 0 <= j < |focal| ==> focal[k].conflicts <= focal[j].conflicts
    ensures !conflicted <==> done.Some?
    ensures done.Some? ==> done.value == Solution(root)
    ensures done.None? ==>
      && open2 == open + ChildNodes(env, ids, root, focal[k].constraints, c0)
      && focal2 == FocalOf(open2, eps, best)
      && best2 == MinCost(open2)
      && TreeNodes(ids, root, env.safe, conflicted, c0, open2)
      && TreeNodes(ids, root, env.safe, conflicted, c0, focal2)
  {
    k := PopFewest(focal);
    var node := focal[k];
    assert TreeNode(ids, root, env.safe, conflicted, c0, node);
    var conflict := DetectConflict(node.paths, env.safe);
    if conflict.None? {
      return k, Some(Solution(node.paths)), open, focal, best;
    }
    var c := conflict.value;
    ChildNodesTree(env, ids, root, node.constraints, c);
    var kids := Expand(env, ids, node, c);
    TreeNodesJoin(ids, root, env.safe, conflicted, c0, open, kids);
    open2 := open + kids;
    focal2 := FocalOf(open2, eps, best);
    TreeNodesFocal(ids, root, env.safe, conflicted, c0, open2, eps, best);
    // `if open_list:` always holds here: the open list only grows.
    best2 := MinCost(open2);
    done := None;
  }

  /** The loop of `find_solution` from the root node on, for independent
      plans `rootPaths`. */
  method Search(env: Env, ids: seq<AgentId>, rootPaths: seq<Path>, eps: real, fuel: nat) returns (r: Outcome)
    requires Distinct(ids) && PlansNonEmpty(env) && PlannedAll(env, ids, rootPaths) && AllNonEmpty(rootPaths) && rootPaths != []
    ensures r.Solution? ==> r.paths == rootPaths && NoConflict(rootPaths, env.safe)
    ensures r.NoSolution? ==> !NoConflict(rootPaths, env.safe) && eps < 1.0
    ensures 0 < fuel ==>
      && (NoConflict(rootPaths, env.safe) ==> r == Solution(rootPaths))
      && (!NoConflict(rootPaths, env.safe) ==> (r == NoSolution <==> eps < 1.0) && (r == OutOfFuel <==> 1.0 <= eps))
  {
    ghost var conflicted, c0 := ChooseRootConflict(rootPaths, env.safe);
    var conflicts := CountConflicts(rootPaths, env.safe);
    var root := Node(rootPaths, [], TotalCost(rootPaths), conflicts);
    TotalCostAtLeastAgents(rootPaths);
    WithinSelf(root.cost, eps);
    var open := [root];
    var focal := [root];
    var best := root.cost;
    var budget: nat := fuel;
    while focal != []
      invariant budget <= fuel
      invariant open != [] && TreeNodes(ids, rootPaths, env.safe, conflicted, c0, open)
      invariant TreeNodes(ids, rootPaths, env.safe, conflicted, c0, focal)
      invariant best == root.cost
      invariant budget == fuel ==> focal == [root]
      invariant budget < fuel ==> conflicted && focal == FocalOf(open, eps, root.cost)
      decreases budget
    {
      if budget == 0 {
        FocalOfUniform(open, eps, root.cost);
        return OutOfFuel;
      }
      budget := budget - 1;
      var k, done, open2, focal2, best2 := Step(env, ids, rootPaths, conflicted, c0, eps, open, focal, best);
      if done.Some? {
        return done.value;
      }
      MinCostIsLeast(open2);
      open, focal, best := open2, focal2, best2;
    }
    FocalOfUniform(open, eps, root.cost);
    return NoSolution;
  }

  /** `find_solution`. `fuel` bounds the number of pops. Every node of the
      tree carries the independent plans (`replan` only validates the
      planner's own path), so all costs equal the root's, and the popped
      node is never removed from the open list: the search returns the
      independent plans when they are conflict-free; otherwise it gives up
      after one expansion when `epsilon < 1`, and never stops when
      `epsilon >= 1`. */
  method FindSolution(env: Env, ids: seq<AgentId>, eps: real, fuel: nat) returns (r: Outcome)
    requires ids != [] && Distinct(ids) && PlansNonEmpty(env)
    ensures SomePlanFails(env, ids) ==> r == NoSolution
    ensures r.Solution? ==> PlannedAll(env, ids, r.paths) && AllNonEmpty(r.paths) && NoConflict(r.paths, env.safe)
    ensures !SomePlanFails(env, ids) && 0 < fuel ==>
      var root := RootPaths(env, ids);
      && AllNonEmpty(root)
      && (NoConflict(root, env.safe) ==> r == Solution(root))
      && (!NoConflict(root, env.safe) ==> (r == NoSolution <==> eps < 1.0) && (r == OutOfFuel <==> 1.0 <= eps))
  {
    var init := PlanAll(env, ids);
    if init.None? {
      return NoSolution;
    }
    PlannedAllIsRoot(env, ids, init.value);
    r := Search(env, ids, init.value, eps, fuel);
  }
}
