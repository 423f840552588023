/** The single-agent Hybrid A* planner: a best-first search over poses
    (x, y, heading in radians) with three steering actions, duplicate
    detection on a discretised lattice key, point obstacles inflated by the
    robot radius plus a fixed margin, and a goal test on position only. */
module HybridAStar {
  import opened Common

  /** The margin the collision test adds to the robot radius. */
  const CollisionMargin: real := 0.1

  /** The constructor's default arguments. */
  const DefaultXyResolution: real := 0.1
  const DefaultThetaResolutionDeg: real := 15.0
  const DefaultMaxSteerDeg: real := 30.0
  const DefaultStepSize: real := 0.5

  /** `math.radians`. */
  function Radians(deg: real): real { deg * (Pi / 180.0) }

  /** The planner's configuration, fixed at construction; the two angles
      are stored in radians. */
  datatype Planner = Planner(
    obstacles: seq<Point>,
    robotRadius: real,
    xyResolution: real,
    thetaResolution: real,
    maxSteer: real,
    stepSize: real)
  {
    /** The lattice key divides by both resolutions. */
    predicate Valid() { xyResolution != 0.0 && thetaResolution != 0.0 }

    /** The three steering actions: full right, straight, full left. */
    function SteerSet(): seq<real> { [-maxSteer, 0.0, maxSteer] }
  }

  /** The constructor: resolutions in metres and degrees, steering in degrees. */
  function NewPlanner(obstacles: seq<Point>, robotRadius: real, xyResolution: real,
                      thetaResolutionDeg: real, maxSteerDeg: real, stepSize: real): (p: Planner)
    ensures p.Valid() <==> xyResolution != 0.0 && thetaResolutionDeg != 0.0
    ensures |p.SteerSet()| == 3 && p.SteerSet()[1] == 0.0
    ensures p.SteerSet()[0] == -p.SteerSet()[2] == -Radians(maxSteerDeg)
  {
    Planner(obstacles, robotRadius, xyResolution, Radians(thetaResolutionDeg),
            Radians(maxSteerDeg), stepSize)
  }

  /** A discretised lattice key. */
  datatype Cell = Cell(xi: int, yi: int, ti: int)

  /** `state_index`: each coordinate divided by its resolution and rounded
      (rounding is one of the opaque operations). */
  function StateIndex(p: Planner, m: MathOps, s: Pose): Cell
    requires p.Valid()
  {
    Cell(m.roundDiv(s.x, p.xyResolution), m.roundDiv(s.y, p.xyResolution),
         m.roundDiv(s.theta, p.thetaResolution))
  }

  /** The least integer not below `a`. */
  function Ceil(a: real): int { -((-a).Floor) }

  /** The heading `normalize_angle` computes: whole turns are subtracted while
      the angle exceeds pi, then added while it is below -pi. */
  function Normalized(a: real): real {
    if a > Pi then a - Turns(Ceil((a - Pi) / TwoPi), TwoPi)
    else if a < -Pi then a + Turns(Ceil((-Pi - a) / TwoPi), TwoPi)
    else a
  }

  /** The normalised heading lies in [-pi, pi], differs from the input by
      whole turns, and equals the input when that is already in range. */
  lemma NormalizedRange(a: real)
    ensures -Pi <= Normalized(a) <= Pi
    ensures exists k: int :: Normalized(a) == a + Turns(k, TwoPi)
    ensures -Pi <= a <= Pi ==> Normalized(a) == a
  {
    if a > Pi {
      var n := Ceil((a - Pi) / TwoPi);
      assert a - Turns(n, TwoPi) == a + Turns(-n, TwoPi);
    } else if a < -Pi {
      var n := Ceil((-Pi - a) / TwoPi);
      assert Normalized(a) == a + Turns(n, TwoPi);
    } else {
      assert a == a + Turns(0, TwoPi);
    }
  }

  /** `normalize_angle`, with its two loops. */
  method NormalizeAngle(angle: real) returns (r: real)
    ensures r == Normalized(angle)
  {
    r := angle;
    ghost var n: nat := 0;
    while r > Pi
      invariant r == angle - Turns(n, TwoPi)
      invariant n > 0 ==> Pi < r + TwoPi
      decreases (r - Pi).Floor
    {
      r := r - TwoPi;
      n := n + 1;
    }
    assert angle > Pi ==> n == Ceil((angle - Pi) / (TwoPi));
    ghost var n2: nat := 0;
    ghost var r1 := r;
    while r < -Pi
      invariant r == r1 + Turns(n2, TwoPi)
      invariant n2 > 0 ==> r - TwoPi < -Pi
      decreases (-Pi - r).Floor
    {
      r := r + TwoPi;
      n2 := n2 + 1;
    }
    assert angle < -Pi ==> r1 == angle && n2 == Ceil((-Pi - angle) / (TwoPi));
  }

  /** `forward`: turn by `steer`, normalise, then advance one step along the
      new heading. */
  function Forward(p: Planner, m: MathOps, s: Pose, steer: real): Pose {
    var heading := Normalized(s.theta + steer);
    Pose(s.x + p.stepSize * m.cos(heading), s.y + p.stepSize * m.sin(heading), heading)
  }

  /** A step keeps the heading in [-pi, pi], turns it by `steer` up to whole
      turns, and moves `step_size` along the new heading. */
  lemma ForwardStep(p: Planner, m: MathOps, s: Pose, steer: real)
    ensures var r := Forward(p, m, s, steer);
      && -Pi <= r.theta <= Pi
      && (exists k: int :: r.theta == s.theta + steer + Turns(k, TwoPi))
      && r.x - s.x == p.stepSize * m.cos(r.theta)
      && r.y - s.y == p.stepSize * m.sin(r.theta)
  {
    NormalizedRange(s.theta + steer);
  }

  /** The scan of `check_collision` over an obstacle list, in list order. */
  function AnyWithin(obstacles: seq<Point>, x: real, y: real, reach: real): bool {
    if obstacles == [] then false
    else HypotAtMost(x - obstacles[0].x, y - obstacles[0].y, reach) || AnyWithin(obstacles[1..], x, y, reach)
  }

  /** `check_collision`. */
  function CheckCollision(p: Planner, x: real, y: real): bool {
    AnyWithin(p.obstacles, x, y, p.robotRadius + CollisionMargin)
  }

  /** The scan finds a hit exactly when some obstacle is within reach. */
  lemma {:induction false} AnyWithinIff(obstacles: seq<Point>, x: real, y: real, reach: real)
    ensures AnyWithin(obstacles, x, y, reach) <==>
      exists i :: 0 <= i < |obstacles| && HypotAtMost(x - obstacles[i].x, y - obstacles[i].y, reach)
  {
    if obstacles != [] {
      AnyWithinIff(obstacles[1..], x, y, reach);
      forall i | 1 <= i < |obstacles| ensures obstacles[i] == obstacles[1..][i - 1] {}
    }
  }

  /** A point collides exactly when some obstacle lies within the robot
      radius plus the margin, the boundary included. */
  lemma CollisionIff(p: Planner, x: real, y: real)
    ensures CheckCollision(p, x, y) <==>
      (exists i :: 0 <= i < |p.obstacles| && HypotAtMost(x - p.obstacles[i].x, y - p.obstacles[i].y, p.robotRadius + CollisionMargin))
  {
    AnyWithinIff(p.obstacles, x, y, p.robotRadius + CollisionMargin);
  }

  /** `calc_heuristic`: the Euclidean distance to the goal (opaque hypot). */
  function CalcHeuristic(m: MathOps, x: real, y: real, gx: real, gy: real): real {
    m.hypot(x - gx, y - gy)
  }

  /** The goal test: strictly within `xy_resolution` of the goal point;
      the heading is not looked at. */
  predicate GoalReached(p: Planner, s: Pose, goal: Point) {
    HypotLess(s.x - goal.x, s.y - goal.y, p.xyResolution)
  }

  /** A heap entry `(f, cost, state, parent)`. */
  datatype Entry = Entry(f: real, cost: real, state: Pose, parent: Option<Pose>)

  /** A `came_from` value `(state, parent)`. */
  datatype Link = Link(state: Pose, parent: Option<Pose>)

  /** `plan` returns a path or None; the model adds a third outcome for
      running out of its iteration budget. */
  datatype PlanResult = Found(path: seq<Pose>) | NoPath | OutOfFuel

  /** `to` is reached from `from` by one of the three steering actions and
      does not collide. */
  ghost predicate IsSuccessor(p: Planner, m: MathOps, from: Pose, to: Pose) {
    && (to == Forward(p, m, from, -p.maxSteer) || to == Forward(p, m, from, 0.0) || to == Forward(p, m, from, p.maxSteer))
    && !CheckCollision(p, to.x, to.y)
  }

  /** A kinematically feasible path from `start`: every later pose is a
      collision-free successor of the one before it. */
  ghost predicate IsFeasiblePath(p: Planner, m: MathOps, start: Pose, path: seq<Pose>) {
    && |path| > 0
    && path[0] == start
    && forall k :: 0 <= k < |path| - 1 ==> IsSuccessor(p, m, path[k], path[k + 1])
  }

  function Last<T>(s: seq<T>): T
    requires s != []
  {
    s[|s| - 1]
  }

  /** Python's `s[::-1]`. */
  function Reversed<T>(s: seq<T>): (r: seq<T>)
    ensures |r| == |s|
    ensures forall k :: 0 <= k < |s| ==> r[k] == s[|s| - 1 - k]
  {
    seq(|s|, k requires 0 <= k < |s| => s[|s| - 1 - k])
  }

  /** Reversing twice gives the sequence back, and reversing swaps the
      first and last elements. */
  lemma ReversedInvolution<T>(s: seq<T>)
    ensures Reversed(Reversed(s)) == s
    ensures s != [] ==> Reversed(s)[0] == Last(s) && Last(Reversed(s)) == s[0]
  {
    var r := Reversed(Reversed(s));
    assert |r| == |s|;
    forall k | 0 <= k < |s|
      ensures r[k] == s[k]
    {
      assert r[k] == Reversed(s)[|s| - 1 - k];
    }
  }

  /** The entry pushed for the successor of `cur` under `steer`: its cost is
      the parent's plus `step_size`, its priority that cost plus the
      heuristic. */
  function Pushed(p: Planner, m: MathOps, cur: Pose, cost: real, goal: Point, steer: real): Entry {
    var next := Forward(p, m, cur, steer);
    var newCost := cost + p.stepSize;
    Entry(newCost + CalcHeuristic(m, next.x, next.y, goal.x, goal.y), newCost, next, Some(cur))
  }

  /** The entries the expansion of `cur` (reached at `cost`) pushes, in the
      order of `steers`. */
  function Successors(p: Planner, m: MathOps, cur: Pose, cost: real, goal: Point, steers: seq<real>): seq<Entry>
    decreases |steers|
  {
    if steers == [] then []
    else
      var rest := Successors(p, m, cur, cost, goal, steers[..|steers| - 1]);
      var next := Forward(p, m, cur, steers[|steers| - 1]);
      if CheckCollision(p, next.x, next.y) then rest
      else rest + [Pushed(p, m, cur, cost, goal, steers[|steers| - 1])]
  }

  /** The expansion pushes exactly one entry per steering action whose
      successor does not collide, and nothing else. */
  lemma {:induction false} SuccessorsSpec(p: Planner, m: MathOps, cur: Pose, cost: real, goal: Point, steers: seq<real>)
    ensures |Successors(p, m, cur, cost, goal, steers)| <= |steers|
    ensures forall e <- Successors(p, m, cur, cost, goal, steers) :: !CheckCollision(p, e.state.x, e.state.y)
    ensures forall e <- Successors(p, m, cur, cost, goal, steers) ::
      exists i :: 0 <= i < |steers| && e == Pushed(p, m, cur, cost, goal, steers[i])
    ensures forall i :: 0 <= i < |steers| && !CheckCollision(p, Forward(p, m, cur, steers[i]).x, Forward(p, m, cur, steers[i]).y) ==>
      Pushed(p, m, cur, cost, goal, steers[i]) in Successors(p, m, cur, cost, goal, steers)
    decreases |steers|
  {
    if steers != [] {
      var prefix := steers[..|steers| - 1];
      SuccessorsSpec(p, m, cur, cost, goal, prefix);
      assert forall i :: 0 <= i < |prefix| ==> prefix[i] == steers[i];
    }
  }

  /** One more steering action extends the expansion by at most its own entry. */
  lemma SuccessorsSnoc(p: Planner, m: MathOps, cur: Pose, cost: real, goal: Point, steers: seq<real>, i: nat)
    requires i < |steers|
    ensures Successors(p, m, cur, cost, goal, steers[..i + 1]) ==
      Successors(p, m, cur, cost, goal, steers[..i]) +
        (if CheckCollision(p, Forward(p, m, cur, steers[i]).x, Forward(p, m, cur, steers[i]).y) then []
         else [Pushed(p, m, cur, cost, goal, steers[i])])
  {
    assert steers[..i + 1][..i] == steers[..i];
  }

  /** The `came_from` links recorded so far are consistent: each key is the
      lattice cell of its state, the start is the only state without a
      parent, every parent was closed earlier (smaller rank) under its own
      cell, and every state is a successor of its parent. */
  ghost predicate CameFromOk(p: Planner, m: MathOps, start: Pose, cameFrom: map<Cell, Link>, rank: map<Cell, nat>)
    requires p.Valid()
  {
    && cameFrom.Keys == rank.Keys
    && forall c :: c in cameFrom ==> LinkOk(p, m, start, cameFrom, rank, c)
  }

  ghost predicate LinkOk(p: Planner, m: MathOps, start: Pose, cameFrom: map<Cell, Link>, rank: map<Cell, nat>, c: Cell)
    requires p.Valid()
    requires c in cameFrom && cameFrom.Keys == rank.Keys
  {
    var link := cameFrom[c];
    && StateIndex(p, m, link.state) == c
    && match link.parent
       case None => link.state == start
       case Some(q) =>
         var pc := StateIndex(p, m, q);
         pc in cameFrom && cameFrom[pc].state == q && rank[pc] < rank[c] && IsSuccessor(p, m, q, link.state)
  }

  /** A heap entry is consistent with the links: only the start has no
      parent, and a parent is a closed state of rank below `bound`. */
  ghost predicate EntryOk(p: Planner, m: MathOps, start: Pose, cameFrom: map<Cell, Link>, rank: map<Cell, nat>, bound: nat, e: Entry)
    requires p.Valid()
    requires cameFrom.Keys == rank.Keys
  {
    match e.parent
    case None => e.state == start
    case Some(q) =>
      var pc := StateIndex(p, m, q);
      pc in cameFrom && cameFrom[pc].state == q && rank[pc] < bound && IsSuccessor(p, m, q, e.state)
  }

  /** Some entry of a non-empty heap has the least priority. */
  lemma {:induction false} MinimumExists(entries: seq<Entry>)
    requires entries != []
    ensures exists k :: 0 <= k < |entries| && forall j :: 0 <= j < |entries| ==> entries[k].f <= entries[j].f
  {
    if |entries| > 1 {
      var tail := entries[1..];
      MinimumExists(tail);
      var k :| 0 <= k < |tail| && forall j :: 0 <= j < |tail| ==> tail[k].f <= tail[j].f;
      if entries[0].f <= tail[k].f {
        assert forall j :: 0 <= j < |entries| ==> entries[0].f <= entries[j].f by {
          forall j | 1 <= j < |entries| ensures entries[0].f <= entries[j].f {
            assert entries[j] == tail[j - 1];
          }
        }
      } else {
        assert forall j :: 0 <= j < |entries| ==> entries[k + 1].f <= entries[j].f by {
          forall j | 1 <= j < |entries| ensures entries[k + 1].f <= entries[j].f {
            assert entries[j] == tail[j - 1];
          }
        }
      }
    } else {
      assert forall j :: 0 <= j < |entries| ==> entries[0].f <= entries[j].f;
    }
  }

  /** Every pose of `rev` is a successor of the pose after it. */
  ghost predicate ChainedBack(p: Planner, m: MathOps, rev: seq<Pose>) {
    forall k :: 0 <= k < |rev| - 1 ==> IsSuccessor(p, m, rev[k + 1], rev[k])
  }

  lemma ChainExtend(p: Planner, m: MathOps, rev: seq<Pose>, x: Pose)
    requires ChainedBack(p, m, rev)
    requires rev != [] ==> IsSuccessor(p, m, x, Last(rev))
    ensures ChainedBack(p, m, rev + [x])
  {
    var next := rev + [x];
    forall k | 0 <= k < |next| - 1 ensures IsSuccessor(p, m, next[k + 1], next[k]) {
      if k < |rev| - 1 {
        assert next[k + 1] == rev[k + 1] && next[k] == rev[k];
      }
    }
  }

  /** One step back along a consistent link. */
  lemma FollowLink(p: Planner, m: MathOps, start: Pose, cameFrom: map<Cell, Link>, rank: map<Cell, nat>, c: Cell)
    requires p.Valid()
    requires CameFromOk(p, m, start, cameFrom, rank) && c in cameFrom
    ensures cameFrom[c].parent.None? ==> cameFrom[c].state == start
    ensures cameFrom[c].parent.Some? ==>
      var q := cameFrom[c].parent.value;
      && StateIndex(p, m, q) in cameFrom && cameFrom[StateIndex(p, m, q)].state == q
      && rank[StateIndex(p, m, q)] < rank[c]
      && IsSuccessor(p, m, q, cameFrom[c].state)
  {
    assert LinkOk(p, m, start, cameFrom, rank, c);
  }

  /** A backward chain that ends at the start is, reversed, a feasible path. */
  lemma ReversedFeasible(p: Planner, m: MathOps, start: Pose, rev: seq<Pose>)
    requires rev != [] && Last(rev) == start
    requires ChainedBack(p, m, rev)
    ensures IsFeasiblePath(p, m, start, Reversed(rev))
    ensures Last(Reversed(rev)) == rev[0]
  {
    var path := Reversed(rev);
    forall k | 0 <= k < |path| - 1 ensures IsSuccessor(p, m, path[k], path[k + 1]) {
      var j := |rev| - 2 - k;
      assert path[k] == rev[j + 1] && path[k + 1] == rev[j];
    }
  }

  /** `reconstruct_path`: follow the parent links from `current` back to the
      start, then reverse. */
  method ReconstructPath(p: Planner, m: MathOps, ghost start: Pose, cameFrom: map<Cell, Link>,
                         current: Pose, ghost rank: map<Cell, nat>) returns (path: seq<Pose>)
    requires p.Valid()
    requires CameFromOk(p, m, start, cameFrom, rank)
    requires StateIndex(p, m, current) in cameFrom && cameFrom[StateIndex(p, m, current)].state == current
    ensures IsFeasiblePath(p, m, start, path)
    ensures Last(path) == current
  {
    var rev: seq<Pose> := [];
    var nodeId := StateIndex(p, m, current);
    while nodeId in cameFrom
      invariant nodeId in cameFrom
      invariant rev == [] ==> cameFrom[nodeId].state == current
      invariant rev != [] ==> rev[0] == current && IsSuccessor(p, m, cameFrom[nodeId].state, Last(rev))
      invariant ChainedBack(p, m, rev)
      decreases rank[nodeId]
    {
      var link := cameFrom[nodeId];
      FollowLink(p, m, start, cameFrom, rank, nodeId);
      ChainExtend(p, m, rev, link.state);
      rev := rev + [link.state];
      if link.parent.None? {
        ReversedFeasible(p, m, start, rev);
        path := Reversed(rev);
        return;
      }
      nodeId := StateIndex(p, m, link.parent.value);
    }
    path := Reversed(rev);
  }

  /** Every heap entry is consistent with the links. */
  ghost predicate OpenOk(p: Planner, m: MathOps, start: Pose, cameFrom: map<Cell, Link>, rank: map<Cell, nat>,
                         bound: nat, openSet: seq<Entry>)
    requires p.Valid()
    requires cameFrom.Keys == rank.Keys
  {
    forall e <- openSet :: EntryOk(p, m, start, cameFrom, rank, bound, e)
  }

  /** `expanded[k]` is the pose closed k-th: its cell has rank k. */
  ghost predicate Ranked(p: Planner, m: MathOps, rank: map<Cell, nat>, expanded: seq<Pose>)
    requires p.Valid()
  {
    && (forall c :: c in rank ==> rank[c] < |expanded|)
    && forall k :: 0 <= k < |expanded| ==> StateIndex(p, m, expanded[k]) in rank && rank[StateIndex(p, m, expanded[k])] == k
  }

  /** Closed poses have pairwise distinct cells. */
  lemma RankedDistinct(p: Planner, m: MathOps, rank: map<Cell, nat>, expanded: seq<Pose>)
    requires p.Valid()
    requires Ranked(p, m, rank, expanded)
    ensures forall i, j :: 0 <= i < j < |expanded| ==> StateIndex(p, m, expanded[i]) != StateIndex(p, m, expanded[j])
  {
  }

  /** Closing the cell of a consistent entry keeps the links consistent. */
  lemma CloseCell(p: Planner, m: MathOps, start: Pose, cameFrom: map<Cell, Link>, rank: map<Cell, nat>,
                  bound: nat, e: Entry)
    requires p.Valid()
    requires CameFromOk(p, m, start, cameFrom, rank)
    requires forall c :: c in rank ==> rank[c] < bound
    requires EntryOk(p, m, start, cameFrom, rank, bound, e)
    requires StateIndex(p, m, e.state) !in cameFrom
    ensures CameFromOk(p, m, start, cameFrom[StateIndex(p, m, e.state) := Link(e.state, e.parent)],
                       rank[StateIndex(p, m, e.state) := bound])
  {
    var c := StateIndex(p, m, e.state);
    var cameFrom', rank' := cameFrom[c := Link(e.state, e.parent)], rank[c := bound];
    forall d | d in cameFrom' ensures LinkOk(p, m, start, cameFrom', rank', d) {
      if d != c {
        assert LinkOk(p, m, start, cameFrom, rank, d);
      }
    }
  }

  /** Entries stay consistent when a new cell is closed. */
  lemma OpenOkGrow(p: Planner, m: MathOps, start: Pose, cameFrom: map<Cell, Link>, rank: map<Cell, nat>,
                   bound: nat, openSet: seq<Entry>, c: Cell, link: Link)
    requires p.Valid()
    requires cameFrom.Keys == rank.Keys && c !in cameFrom
    requires OpenOk(p, m, start, cameFrom, rank, bound, openSet)
    ensures OpenOk(p, m, start, cameFrom[c := link], rank[c := bound], bound + 1, openSet)
  {
    forall e <- openSet ensures EntryOk(p, m, start, cameFrom[c := link], rank[c := bound], bound + 1, e) {
      assert EntryOk(p, m, start, cameFrom, rank, bound, e);
    }
  }

  /** Removing the popped entry keeps the rest consistent. */
  lemma OpenOkRemove(p: Planner, m: MathOps, start: Pose, cameFrom: map<Cell, Link>, rank: map<Cell, nat>,
                     bound: nat, openSet: seq<Entry>, k: nat)
    requires p.Valid()
    requires cameFrom.Keys == rank.Keys && k < |openSet|
    requires OpenOk(p, m, start, cameFrom, rank, bound, openSet)
    ensures OpenOk(p, m, start, cameFrom, rank, bound, openSet[..k] + openSet[k + 1..])
  {
    forall e <- openSet[..k] + openSet[k + 1..] ensures EntryOk(p, m, start, cameFrom, rank, bound, e) {
      assert e in openSet;
    }
  }

  /** The successors of a closed pose are consistent entries. */
  lemma SuccessorsOk(p: Planner, m: MathOps, start: Pose, cameFrom: map<Cell, Link>, rank: map<Cell, nat>,
                     bound: nat, cur: Pose, cost: real, goal: Point)
    requires p.Valid()
    requires cameFrom.Keys == rank.Keys
    requires StateIndex(p, m, cur) in cameFrom && cameFrom[StateIndex(p, m, cur)].state == cur
    requires rank[StateIndex(p, m, cur)] < bound
    ensures OpenOk(p, m, start, cameFrom, rank, bound, Successors(p, m, cur, cost, goal, p.SteerSet()))
  {
    var steers := p.SteerSet();
    SuccessorsSpec(p, m, cur, cost, goal, steers);
    forall e <- Successors(p, m, cur, cost, goal, steers) ensures EntryOk(p, m, start, cameFrom, rank, bound, e) {
      var i :| 0 <= i < |steers| && e == Pushed(p, m, cur, cost, goal, steers[i]);
      assert IsSuccessor(p, m, cur, e.state);
    }
  }

  /** OpenOk of a concatenation. */
  lemma OpenOkJoin(p: Planner, m: MathOps, start: Pose, cameFrom: map<Cell, Link>, rank: map<Cell, nat>,
                   bound: nat, a: seq<Entry>, b: seq<Entry>)
    requires p.Valid()
    requires cameFrom.Keys == rank.Keys
    requires OpenOk(p, m, start, cameFrom, rank, bound, a)
    requires OpenOk(p, m, start, cameFrom, rank, bound, b)
    ensures OpenOk(p, m, start, cameFrom, rank, bound, a + b)
  {
    forall e <- a + b ensures EntryOk(p, m, start, cameFrom, rank, bound, e) {
      if e in a {} else { assert e in b; }
    }
  }

  /** The `for steer in self.steer_set` loop of `plan`: push one entry per
      collision-free successor of `cur`. */
  method PushSuccessors(p: Planner, m: MathOps, openSet: seq<Entry>, cur: Pose, cost: real, goal: Point)
    returns (r: seq<Entry>)
    ensures r == openSet + Successors(p, m, cur, cost, goal, p.SteerSet())
  {
    var steers := p.SteerSet();
    r := openSet;
    var i := 0;
    while i < |steers|
      invariant 0 <= i <= |steers|
      invariant r == openSet + Successors(p, m, cur, cost, goal, steers[..i])
    {
      SuccessorsSnoc(p, m, cur, cost, goal, steers, i);
      var next := Forward(p, m, cur, steers[i]);
      if !CheckCollision(p, next.x, next.y) {
        var newCost := cost + p.stepSize;
        var h := CalcHeuristic(m, next.x, next.y, goal.x, goal.y);
        r := r + [Entry(newCost + h, newCost, next, Some(cur))];
      }
      i := i + 1;
    }
    assert steers[..i] == steers;
  }

  /** What `expanded` shows about a run: the closed poses have pairwise
      distinct cells, the first is the start, none after the start collides,
      and none is at the goal except, when `reachedGoal`, the last. */
  ghost predicate Explored(p: Planner, m: MathOps, start: Pose, goal: Point, expanded: seq<Pose>, reachedGoal: bool)
    requires p.Valid()
  {
    && (forall i, j :: 0 <= i < j < |expanded| ==> StateIndex(p, m, expanded[i]) != StateIndex(p, m, expanded[j]))
    && (expanded != [] ==> expanded[0] == start)
    && (forall k :: 0 < k < |expanded| ==> !CheckCollision(p, expanded[k].x, expanded[k].y))
    && (forall k :: 0 <= k < |expanded| && (!reachedGoal || k < |expanded| - 1) ==> !GoalReached(p, expanded[k], goal))
  }

  /** What `plan` keeps true between pops: consistent links and heap
      entries, and `expanded` listing the closed poses in rank order, none of
      them at the goal. */
  ghost predicate SearchInv(p: Planner, m: MathOps, start: Pose, goal: Point, cameFrom: map<Cell, Link>,
                            rank: map<Cell, nat>, openSet: seq<Entry>, expanded: seq<Pose>)
    requires p.Valid()
  {
    && CameFromOk(p, m, start, cameFrom, rank)
    && Ranked(p, m, rank, expanded)
    && OpenOk(p, m, start, cameFrom, rank, |expanded|, openSet)
    && Explored(p, m, start, goal, expanded, false)
  }

  /** Popping entry `k` leaves the invariant in place and yields a
      consistent entry. */
  lemma PopStep(p: Planner, m: MathOps, start: Pose, goal: Point, cameFrom: map<Cell, Link>,
                rank: map<Cell, nat>, openSet: seq<Entry>, expanded: seq<Pose>, k: nat)
    requires p.Valid() && k < |openSet|
    requires SearchInv(p, m, start, goal, cameFrom, rank, openSet, expanded)
    ensures EntryOk(p, m, start, cameFrom, rank, |expanded|, openSet[k])
    ensures SearchInv(p, m, start, goal, cameFrom, rank, openSet[..k] + openSet[k + 1..], expanded)
  {
    OpenOkRemove(p, m, start, cameFrom, rank, |expanded|, openSet, k);
  }

  /** Closing the cell of a consistent entry records a consistent link and
      gives the closed pose the next rank. */
  lemma CloseLinks(p: Planner, m: MathOps, start: Pose, goal: Point, cameFrom: map<Cell, Link>,
                   rank: map<Cell, nat>, openSet: seq<Entry>, expanded: seq<Pose>, e: Entry)
    requires p.Valid()
    requires SearchInv(p, m, start, goal, cameFrom, rank, openSet, expanded)
    requires EntryOk(p, m, start, cameFrom, rank, |expanded|, e)
    requires StateIndex(p, m, e.state) !in cameFrom
    ensures var c := StateIndex(p, m, e.state);
      var cameFrom', rank' := cameFrom[c := Link(e.state, e.parent)], rank[c := |expanded|];
      && CameFromOk(p, m, start, cameFrom', rank')
      && Ranked(p, m, rank', expanded + [e.state])
      && OpenOk(p, m, start, cameFrom', rank', |expanded| + 1, openSet)
      && c in cameFrom' && cameFrom'[c].state == e.state
  {
    var c := StateIndex(p, m, e.state);
    var link := Link(e.state, e.parent);
    var rank' := rank[c := |expanded|];
    var expanded' := expanded + [e.state];
    CloseCell(p, m, start, cameFrom, rank, |expanded|, e);
    OpenOkGrow(p, m, start, cameFrom, rank, |expanded|, openSet, c, link);
    forall j | 0 <= j < |expanded'| ensures StateIndex(p, m, expanded'[j]) in rank' && rank'[StateIndex(p, m, expanded'[j])] == j {
      if j < |expanded| {
        assert expanded'[j] == expanded[j];
      }
    }
  }

  /** The newly closed pose extends what `expanded` shows; only the start
      has no parent, so a parentless entry is closed first. */
  lemma CloseExplored(p: Planner, m: MathOps, start: Pose, goal: Point, cameFrom: map<Cell, Link>,
                      rank: map<Cell, nat>, openSet: seq<Entry>, expanded: seq<Pose>, e: Entry)
    requires p.Valid()
    requires expanded == [] ==> e.state == start
    requires SearchInv(p, m, start, goal, cameFrom, rank, openSet, expanded)
    requires EntryOk(p, m, start, cameFrom, rank, |expanded|, e)
    requires StateIndex(p, m, e.state) !in cameFrom
    requires Ranked(p, m, rank[StateIndex(p, m, e.state) := |expanded|], expanded + [e.state])
    ensures Explored(p, m, start, goal, expanded + [e.state], GoalReached(p, e.state, goal))
  {
    var expanded' := expanded + [e.state];
    if expanded != [] {
      assert StateIndex(p, m, expanded[0]) in rank;
    }
    RankedDistinct(p, m, rank[StateIndex(p, m, e.state) := |expanded|], expanded');
    forall j | 0 < j < |expanded'| ensures !CheckCollision(p, expanded'[j].x, expanded'[j].y) {
      if j < |expanded| {
        assert expanded'[j] == expanded[j];
      } else {
        assert e.parent.Some?;
      }
    }
  }

  /** Pushing the successors of the newly closed pose keeps the heap
      consistent. */
  lemma PushStep(p: Planner, m: MathOps, start: Pose, goal: Point, cameFrom: map<Cell, Link>,
                 rank: map<Cell, nat>, openSet: seq<Entry>, expanded: seq<Pose>, e: Entry)
    requires p.Valid()
    requires CameFromOk(p, m, start, cameFrom, rank)
    requires Ranked(p, m, rank, expanded) && expanded != [] && Last(expanded) == e.state
    requires StateIndex(p, m, e.state) in cameFrom && cameFrom[StateIndex(p, m, e.state)].state == e.state
    requires OpenOk(p, m, start, cameFrom, rank, |expanded|, openSet)
    requires Explored(p, m, start, goal, expanded, false)
    ensures SearchInv(p, m, start, goal, cameFrom, rank,
                      openSet + Successors(p, m, e.state, e.cost, goal, p.SteerSet()), expanded)
  {
    assert rank[StateIndex(p, m, Last(expanded))] == |expanded| - 1;
    SuccessorsOk(p, m, start, cameFrom, rank, |expanded|, e.state, e.cost, goal);
    OpenOkJoin(p, m, start, cameFrom, rank, |expanded|, openSet, Successors(p, m, e.state, e.cost, goal, p.SteerSet()));
  }

  /** The entry `heappop` removes: one of least priority (the model leaves
      the tie-break among equal priorities open). */
  method PopIndex(openSet: seq<Entry>) returns (k: nat)
    requires openSet != []
    ensures k < |openSet|
    ensures forall j :: 0 <= j < |openSet| ==> openSet[k].f <= openSet[j].f
  {
    MinimumExists(openSet);
    k :| 0 <= k < |openSet| && forall j :: 0 <= j < |openSet| ==> openSet[k].f <= openSet[j].f;
  }

  /** What one pass of the search loop did: skipped an entry whose cell was
      closed, closed a cell and pushed its successors, or reached the goal. */
  datatype Pass = Skipped | Expanded | Reached(path: seq<Pose>)

  /** One pass of the `while open_set` loop of `plan`: pop an entry of
      least priority, skip it when its cell is closed, otherwise record its
      link, close the cell, stop at the goal, and push its collision-free
      successors. */
  method SearchStep(p: Planner, m: MathOps, ghost start: Pose, goal: Point, openSet: seq<Entry>,
                    closedSet: set<Cell>, cameFrom: map<Cell, Link>, ghost rank: map<Cell, nat>,
                    ghost expanded: seq<Pose>)
    returns (pass: Pass, openSet': seq<Entry>, closedSet': set<Cell>, cameFrom': map<Cell, Link>,
             ghost rank': map<Cell, nat>, ghost expanded': seq<Pose>)
    requires p.Valid() && openSet != [] && closedSet == cameFrom.Keys
    requires SearchInv(p, m, start, goal, cameFrom, rank, openSet, expanded)
    requires expanded == [] ==> |openSet| == 1 && openSet[0].state == start
    ensures closedSet' == cameFrom'.Keys && expanded' != []
    ensures pass.Reached? ==> IsFeasiblePath(p, m, start, pass.path) && Last(pass.path) == Last(expanded')
    ensures pass.Reached? ==> GoalReached(p, Last(pass.path), goal) && Explored(p, m, start, goal, expanded', true)
    ensures !pass.Reached? ==> SearchInv(p, m, start, goal, cameFrom', rank', openSet', expanded')
  {
    var k := PopIndex(openSet);
    var e := openSet[k];
    PopStep(p, m, start, goal, cameFrom, rank, openSet, expanded, k);
    openSet' := openSet[..k] + openSet[k + 1..];
    var nodeId := StateIndex(p, m, e.state);
    if nodeId in closedSet {
      return Skipped, openSet', closedSet, cameFrom, rank, expanded;
    }
    CloseLinks(p, m, start, goal, cameFrom, rank, openSet', expanded, e);
    CloseExplored(p, m, start, goal, cameFrom, rank, openSet', expanded, e);
    cameFrom' := cameFrom[nodeId := Link(e.state, e.parent)];
    closedSet' := closedSet + {nodeId};
    rank' := rank[nodeId := |expanded|];
    expanded' := expanded + [e.state];
    if GoalReached(p, e.state, goal) {
      var path := ReconstructPath(p, m, start, cameFrom', e.state, rank');
      return Reached(path), openSet', closedSet', cameFrom', rank', expanded';
    }
    PushStep(p, m, start, goal, cameFrom', rank', openSet', expanded', e);
    openSet' := PushSuccessors(p, m, openSet', e.state, e.cost, goal);
    pass := Expanded;
  }

  /** `plan`: search from the start entry until the goal is reached or the
      heap runs empty. `fuel` bounds the number of pops. The ghost
      `expanded` lists the poses whose cells were closed, in order. */
  method Plan(p: Planner, m: MathOps, start: Pose, goal: Point, fuel: nat)
    returns (r: PlanResult, ghost expanded: seq<Pose>)
    requires p.Valid()
    ensures r.Found? ==> IsFeasiblePath(p, m, start, r.path) && GoalReached(p, Last(r.path), goal)
    ensures r.Found? ==> expanded != [] && Last(r.path) == Last(expanded)
    ensures Explored(p, m, start, goal, expanded, r.Found?)
    ensures 0 < fuel ==> expanded != []
  {
    var root := Entry(CalcHeuristic(m, start.x, start.y, goal.x, goal.y), 0.0, start, None);
    var openSet: seq<Entry> := [root];
    var closedSet: set<Cell> := {};
    var cameFrom: map<Cell, Link> := map[];
    ghost var rank: map<Cell, nat> := map[];
    expanded := [];
    var budget := fuel;
    while openSet != []
      invariant closedSet == cameFrom.Keys
      invariant SearchInv(p, m, start, goal, cameFrom, rank, openSet, expanded)
      invariant expanded == [] ==> openSet == [root] && budget == fuel
      decreases budget
    {
      if budget == 0 {
        return OutOfFuel, expanded;
      }
      budget := budget - 1;
      var pass;
      pass, openSet, closedSet, cameFrom, rank, expanded := SearchStep(p, m, start, goal, openSet, closedSet, cameFrom, rank, expanded);
      if pass.Reached? {
        return Found(pass.path), expanded;
      }
    }
    return NoPath, expanded;
  }
}
