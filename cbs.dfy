/** `CBSPlanner.find_solution`: best-first search over a tree of
    constraint sets, popping the node of least total cost. */
module CBS {
  import opened Common
  import opened MultiAgent

  /** The default `safe_distance` of a `CBSPlanner`. */
  const DefaultSafeDistance: real := 0.6

  /** `CBSNode(paths, constraints, cost)`. */
  datatype Node = Node(paths: seq<Path>, constraints: seq<Constraint>, cost: nat)

  /** `heappop` on nodes ordered by cost: a node of least cost (which of
      several is left open). */
  method PopCheapest(open: seq<Node>) returns (k: nat)
    requires open != []
    ensures k < |open|
    ensures forall j :: 0 <= j < |open| ==> open[k].cost <= open[j].cost
  {
    k := 0;
    var j := 1;
    while j < |open|
      invariant k < j <= |open|
      invariant forall a :: 0 <= a < j ==> open[k].cost <= open[a].cost
    {
      if open[j].cost < open[k].cost {
        k := j;
      }
      j := j + 1;
    }
  }

  /** `CBSNode(new_paths, new_constraints, self.total_cost(new_paths))`. */
  function NodeOf(kid: Child): Node {
    Node(kid.paths, kid.constraints, TotalCost(kid.paths))
  }

  /** The children of a node with conflict `c`, as nodes, in the order they
      are pushed. */
  function ChildNodes(env: Env, ids: seq<AgentId>, paths: seq<Path>, constraints: seq<Constraint>, c: Conflict): seq<Node>
    requires c.i < |paths| && c.j < |paths| && |paths| == |ids|
  {
    var kids := Kids(env, ids, paths, constraints, c);
    seq(|kids|, a requires 0 <= a < |kids| => NodeOf(kids[a]))
  }

  /** The `for agent in [agent1, agent2]` loop of `find_solution`, with the
      cost of each child. */
  method Expand(env: Env, ids: seq<AgentId>, node: Node, c: Conflict) returns (kids: seq<Node>)
    requires c.i < c.j < |node.paths| == |ids|
    ensures kids == ChildNodes(env, ids, node.paths, node.constraints, c)
  {
    var children := Children(env, ids, node.paths, node.constraints, c);
    kids := [];
    var n := 0;
    while n < |children|
      invariant 0 <= n <= |children| && |kids| == n
      invariant forall a :: 0 <= a < n ==> kids[a] == NodeOf(children[a])
    {
      kids := kids + [Node(children[n].paths, children[n].constraints, TotalCost(children[n].paths))];
      n := n + 1;
    }
  }

  /** A node of the search tree: the independent plans, their cost, and
      (once the plans conflict) only constraints from their first conflict. */
  ghost predicate TreeNode(ids: seq<AgentId>, root: seq<Path>, conflicted: bool, c: Conflict, n: Node) {
    && n.paths == root && n.cost == TotalCost(root)
    && (conflicted ==> c.i < |ids| && c.j < |ids| && FromConflict(ids, c, n.constraints))
  }

  ghost predicate TreeNodes(ids: seq<AgentId>, root: seq<Path>, conflicted: bool, c: Conflict, open: seq<Node>) {
    forall n :: 0 <= n < |open| ==> TreeNode(ids, root, conflicted, c, open[n])
  }

  lemma TreeNodesJoin(ids: seq<AgentId>, root: seq<Path>, conflicted: bool, c: Conflict, a: seq<Node>, b: seq<Node>)
    requires TreeNodes(ids, root, conflicted, c, a) && TreeNodes(ids, root, conflicted, c, b)
    ensures TreeNodes(ids, root, conflicted, c, a + b)
  {
    forall n | 0 <= n < |a + b| ensures TreeNode(ids, root, conflicted, c, (a + b)[n]) {
      if n < |a| {
        assert (a + b)[n] == a[n];
      } else {
        assert (a + b)[n] == b[n - |a|];
      }
    }
  }

  lemma TreeNodesRemove(ids: seq<AgentId>, root: seq<Path>, conflicted: bool, c: Conflict, open: seq<Node>, k: nat)
    requires k < |open| && TreeNodes(ids, root, conflicted, c, open)
    ensures TreeNode(ids, root, conflicted, c, open[k])
    ensures TreeNodes(ids, root, conflicted, c, open[..k] + open[k + 1..])
  {
    TreeNodesJoin(ids, root, conflicted, c, open[..k], open[k + 1..]);
  }

  /** The children of a tree node are tree nodes. */
  lemma ChildNodesTree(env: Env, ids: seq<AgentId>, root: seq<Path>, constraints: seq<Constraint>, c: Conflict)
    requires PlannedAll(env, ids, root) && c.i < |ids| && c.j < |ids|
    requires FromConflict(ids, c, constraints)
    ensures TreeNodes(ids, root, true, c, ChildNodes(env, ids, root, constraints, c))
  {
    KidsShared(env, ids, root, constraints, c);
  }

  /** One pass of the loop of `find_solution`: pop a cheapest node; return
      its paths if they are conflict-free, otherwise push its children. */
  method Step(env: Env, ids: seq<AgentId>, ghost root: seq<Path>, ghost conflicted: bool, ghost c0: Conflict, open: seq<Node>)
    returns (k: nat, done: Option<Outcome>, next: seq<Node>)
    requires Distinct(ids) && PlannedAll(env, ids, root) && AllNonEmpty(root) && root != []
    requires RootConflict(root, env.safe, conflicted, c0)
    requires open != [] && TreeNodes(ids, root, conflicted, c0, open)
    ensures k < |open| && forall j :: 0 <= j < |open| ==> open[k].cost <= open[j].cost
    ensures !conflicted <==> done.Some?
    ensures done.Some? ==> done.value == Solution(root)
    ensures done.None? ==>
      && next == open[..k] + open[k + 1..] + ChildNodes(env, ids, root, open[k].constraints, c0)
      && TreeNodes(ids, root, conflicted, c0, next)
      && (BothMoving(root, c0) ==> |next| == |open| - 1)
      && (!BothMoving(root, c0) ==> next != [])
  {
    k := PopCheapest(open);
    var node := open[k];
    TreeNodesRemove(ids, root, conflicted, c0, open, k);
    next := open[..k] + open[k + 1..];
    var conflict := DetectConflict(node.paths, env.safe);
    if conflict.None? {
      return k, Some(Solution(node.paths)), next;
    }
    var c := conflict.value;
    ChildNodesTree(env, ids, root, node.constraints, c);
    KidsEmptyIff(env, ids, root, node.constraints, c);
    var kids := Expand(env, ids, node, c);
    TreeNodesJoin(ids, root, conflicted, c0, next, kids);
    next := next + kids;
    done := None;
  }

  /** The loop of `find_solution` from the root node on, for independent
      plans `rootPaths`. */
  method Search(env: Env, ids: seq<AgentId>, rootPaths: seq<Path>, fuel: nat) returns (r: Outcome)
    requires Distinct(ids) && PlannedAll(env, ids, rootPaths) && AllNonEmpty(rootPaths) && rootPaths != []
    ensures r.Solution? ==> r.paths == rootPaths && NoConflict(rootPaths, env.safe)
    ensures r.NoSolution? ==> !NoConflict(rootPaths, env.safe)
    ensures 0 < fuel ==>
      && (NoConflict(rootPaths, env.safe) ==> r == Solution(rootPaths))
      && (forall c :: IsFirstConflict(rootPaths, env.safe, c) ==>
            (r == NoSolution <==> BothMoving(rootPaths, c)) && (r == OutOfFuel <==> !BothMoving(rootPaths, c)))
  {
    ghost var conflicted, c0 := ChooseRootConflict(rootPaths, env.safe);
    ghost var moving := conflicted && BothMoving(rootPaths, c0);
    var root := Node(rootPaths, [], TotalCost(rootPaths));
    var open := [root];
    var budget: nat := fuel;
    while open != []
      invariant budget <= fuel
      invariant TreeNodes(ids, rootPaths, conflicted, c0, open)
      invariant budget == fuel ==> open == [root]
      invariant budget < fuel ==> conflicted
      invariant moving ==> open == [] || budget == fuel
      invariant conflicted && !moving ==> open != []
      decreases budget
    {
      if budget == 0 {
        return OutOfFuel;
      }
      budget := budget - 1;
      var k, done, next := Step(env, ids, rootPaths, conflicted, c0, open);
      if done.Some? {
        return done.value;
      }
      open := next;
    }
    return NoSolution;
  }

  /** `find_solution`. `fuel` bounds the number of pops. Because `replan`
      only validates the planner's own path, every node of the tree carries
      the independent plans; so the search returns them when they are
      conflict-free, gives up after one expansion when both agents of the
      first conflict are still moving at its timestep, and otherwise never
      stops. */
  method FindSolution(env: Env, ids: seq<AgentId>, fuel: nat) returns (r: Outcome)
    requires ids != [] && Distinct(ids) && PlansNonEmpty(env)
    ensures SomePlanFails(env, ids) ==> r == NoSolution
    ensures r.Solution? ==> PlannedAll(env, ids, r.paths) && AllNonEmpty(r.paths) && NoConflict(r.paths, env.safe)
    ensures !SomePlanFails(env, ids) && 0 < fuel ==>
      var root := RootPaths(env, ids);
      && AllNonEmpty(root)
      && (NoConflict(root, env.safe) ==> r == Solution(root))
      && (forall c :: IsFirstConflict(root, env.safe, c) ==>
            (r == NoSolution <==> BothMoving(root, c)) && (r == OutOfFuel <==> !BothMoving(root, c)))
  {
    var init := PlanAll(env, ids);
    if init.None? {
      return NoSolution;
    }
    PlannedAllIsRoot(env, ids, init.value);
    r := Search(env, ids, init.value, fuel);
  }
}
