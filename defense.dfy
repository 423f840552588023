/** `DefenseStrategy` of `defense_strategy.py`: each blue robot heads for
    the point of its red opponent's straight run at the target that is
    closest to it, one bounded step and one bounded turn per tick. */
module Defense {
  import opened Common

  /** `speed` (m/s), `rotate_speed` (degrees/s) and `dt` (s) of the
      strategy, the default `min_dist` of `is_position_free`, and the two
      thresholds of `update`. */
  const Speed: real := 0.5
  const RotateSpeed: real := 5.0
  const Dt: real := 0.05
  const MinDist: real := 0.7
  const ArriveDistance: real := 0.05
  const TurnDeadband: real := 1.0

  /** A robot on the field: its `pose` entries (metres, degrees) and the
      scene position of its graphics item (pixels). */
  class FieldRobot {
    var x: real
    var y: real
    var theta: real
    var px: real
    var py: real

    constructor (x0: real, y0: real, theta0: real, px0: real, py0: real)
      ensures x == x0 && y == y0 && theta == theta0 && px == px0 && py == py0
    {
      x, y, theta, px, py := x0, y0, theta0, px0, py0;
    }
  }

  /** What the strategy is configured with: the target point, the scene
      scale (pixels per metre), the field margin and the robot size (both
      in pixels). */
  datatype Strategy = Strategy(target: Point, scale: real, margin: real, robotSize: real)

  // ---------------------------------------------------------------------
  // get_intercept_point
  // ---------------------------------------------------------------------

  function Clamp01(t: real): real {
    Max(0.0, Min(1.0, t))
  }

  /** The vector from `b` to `a`. */
  function Sub(a: Point, b: Point): Point {
    Point(a.x - b.x, a.y - b.y)
  }

  function Dot(u: Point, v: Point): real {
    u.x * v.x + u.y * v.y
  }

  /** The squared length of a vector. */
  function Norm2(v: Point): real {
    v.x * v.x + v.y * v.y
  }

  /** The squared length is positive unless both components are zero. */
  lemma Norm2Positive(v: Point)
    requires v.x != 0.0 || v.y != 0.0
    ensures 0.0 < Norm2(v)
  {
    calc {
      Norm2(v);
      == v.x * v.x + v.y * v.y;
      > 0.0;
    }
  }

  /** The squared distance between two points. */
  function Dist2(a: Point, b: Point): real {
    Norm2(Sub(a, b))
  }

  /** The point a fraction `s` of the way from `a` to `b`. */
  function Lerp(a: Point, b: Point, s: real): Point {
    Point(a.x + s * (b.x - a.x), a.y + s * (b.y - a.y))
  }

  /** The projection parameter of `blue` on the line from `red` to
      `target`, before clamping. */
  function Projection(target: Point, red: Point, blue: Point): real
    requires red != target
  {
    Norm2Positive(Sub(target, red));
    Dot(Sub(blue, red), Sub(target, red)) / Norm2(Sub(target, red))
  }

  /** `get_intercept_point(red_pos, blue_pos)`: red itself when it stands
      on the target, otherwise the point `red + t * (target - red)` for the
      clamped projection parameter `t`. */
  function InterceptPoint(target: Point, red: Point, blue: Point): Point {
    var dx, dy := target.x - red.x, target.y - red.y;
    if dx == 0.0 && dy == 0.0 then red
    else Lerp(red, target, Clamp01(Projection(target, red, blue)))
  }

  /** The intercept point lies on the segment from red to the target; it is
      red itself when red stands on the target, and an end of the segment
      when blue projects beyond that end. */
  lemma InterceptOnSegment(target: Point, red: Point, blue: Point)
    ensures red == target ==> InterceptPoint(target, red, blue) == red
    ensures red != target ==>
      var p := Projection(target, red, blue);
      && 0.0 <= Clamp01(p) <= 1.0
      && InterceptPoint(target, red, blue) == Lerp(red, target, Clamp01(p))
      && (p <= 0.0 ==> InterceptPoint(target, red, blue) == red)
      && (p >= 1.0 ==> InterceptPoint(target, red, blue) == target)
  {
  }

  /** The intercept point is a point of the segment closest to blue. */
  lemma InterceptIsClosest(target: Point, red: Point, blue: Point, s: real)
    requires 0.0 <= s <= 1.0
    ensures Dist2(blue, InterceptPoint(target, red, blue)) <= Dist2(blue, Lerp(red, target, s))
  {
    if red != target {
      var d := Norm2(Sub(target, red));
      var k := Dot(Sub(blue, red), Sub(target, red));
      Norm2Positive(Sub(target, red));
      var t := Clamp01(k / d);
      InterceptOnSegment(target, red, blue);
      DistAlongSegment(red, target, blue, t);
      DistAlongSegment(red, target, blue, s);
      ClampedMinimises(d, k, s);
    } else {
      assert Lerp(red, target, s) == red;
    }
  }

  /** The squared distance from blue to the point at parameter `s`. */
  lemma DistAlongSegment(red: Point, target: Point, blue: Point, s: real)
    ensures Dist2(blue, Lerp(red, target, s)) ==
      Dist2(blue, red) - 2.0 * s * Dot(Sub(blue, red), Sub(target, red)) + s * s * Norm2(Sub(target, red))
  {
    LerpOffset(red, target, blue, s);
    OffsetNorm(blue.x - red.x, blue.y - red.y, target.x - red.x, target.y - red.y, s);
  }

  /** Blue's offset from the point at parameter `s` is its offset from red
      less `s` times the segment. */
  lemma LerpOffset(red: Point, target: Point, blue: Point, s: real)
    ensures Sub(blue, Lerp(red, target, s))
      == Point((blue.x - red.x) - s * (target.x - red.x), (blue.y - red.y) - s * (target.y - red.y))
  {
  }

  /** Expanding the squared length of u - s * v. */
  lemma OffsetNorm(ux: real, uy: real, vx: real, vy: real, s: real)
    ensures Norm2(Point(ux - s * vx, uy - s * vy))
      == Norm2(Point(ux, uy)) - 2.0 * s * Dot(Point(ux, uy), Point(vx, vy)) + s * s * Norm2(Point(vx, vy))
  {
    AlongOneAxis(ux, vx, s);
    AlongOneAxis(uy, vy, s);
    assert 2.0 * s * (ux * vx + uy * vy) == 2.0 * s * (ux * vx) + 2.0 * s * (uy * vy);
    assert s * s * (vx * vx + vy * vy) == s * s * (vx * vx) + s * s * (vy * vy);
  }

  lemma AlongOneAxis(u: real, v: real, s: real)
    ensures (u - s * v) * (u - s * v) == u * u - 2.0 * s * (u * v) + s * s * (v * v)
  {
  }

  /** The clamped vertex of the parabola `s*s*d - 2*s*k` is its least value
      on [0, 1]. */
  lemma ClampedMinimises(d: real, k: real, s: real)
    requires 0.0 < d && 0.0 <= s <= 1.0
    ensures var t := Clamp01(k / d); t * t * d - 2.0 * t * k <= s * s * d - 2.0 * s * k
  {
    var q := k / d;
    assert k == q * d;
    var t := Clamp01(q);
    if q <= 0.0 {
      assert t == 0.0;
      ProductNonNegative(s, -k);
      ProductNonNegative(s * s, d);
    } else if q >= 1.0 {
      assert t == 1.0;
      assert k >= d by { MulMonotone(1.0, q, d); }
      assert s * s * d - 2.0 * s * k - (d - 2.0 * k) == (1.0 - s) * (2.0 * k - d * (1.0 + s));
      assert 2.0 * k - d * (1.0 + s) >= 0.0 by { MulMonotone(1.0 + s, 2.0, d); }
      ProductNonNegative(1.0 - s, 2.0 * k - d * (1.0 + s));
    } else {
      assert t == q;
      assert s * s * d - 2.0 * s * k - (t * t * d - 2.0 * t * k) == d * ((s - t) * (s - t));
      ProductNonNegative(d, (s - t) * (s - t));
    }
  }

  // ---------------------------------------------------------------------
  // The heading, rotation and move rules of update
  // ---------------------------------------------------------------------

  /** `math.degrees`. */
  function Degrees(a: real): real { a * 180.0 / Pi }

  /** `(desired_theta - current_theta + 540) % 360 - 180`. */
  function HeadingError(desired: real, current: real): real {
    FloatMod(desired - current + 540.0, 360.0) - 180.0
  }

  /** The heading error is the signed turn in [-180, 180) that differs from
      `desired - current` by whole turns; it is `desired - current` when
      that already lies in [-180, 180). */
  lemma HeadingErrorRange(desired: real, current: real)
    ensures -180.0 <= HeadingError(desired, current) < 180.0
    ensures exists k: int :: desired - current == HeadingError(desired, current) + Turns(k, 360.0)
    ensures -180.0 <= desired - current < 180.0 ==> HeadingError(desired, current) == desired - current
  {
    var a := desired - current + 540.0;
    var k: int :| a == FloatMod(a, 360.0) + Turns(k, 360.0);
    assert desired - current == HeadingError(desired, current) + Turns(k - 1, 360.0);
    if -180.0 <= desired - current < 180.0 {
      var b := desired - current + 180.0;
      assert 0.0 <= b < 360.0;
      assert a == b + Turns(1, 360.0);
      FloatModShift(b, 1);
    }
  }

  /** Adding whole turns to a value in [0, 360) does not change its
      remainder. */
  lemma FloatModShift(b: real, n: int)
    requires 0.0 <= b < 360.0
    ensures FloatMod(b + Turns(n, 360.0), 360.0) == b
  {
    var a := b + Turns(n, 360.0);
    var r := FloatMod(a, 360.0);
    var k: int :| a == r + Turns(k, 360.0);
    assert b - r == Turns(k - n, 360.0);
  }

  /** `math.copysign(a, b)` for a real `b` (no signed zero). */
  function CopySign(a: real, b: real): real {
    if b < 0.0 then -Abs(a) else Abs(a)
  }

  /** `math.copysign(min(abs(dtheta), rotate_speed * dt), dtheta)`. */
  function RotationDelta(dtheta: real, maxTurn: real): real {
    CopySign(Min(Abs(dtheta), maxTurn), dtheta)
  }

  /** The applied turn has the sign of the error, the size of the error
      capped at `maxTurn`, and never overshoots. */
  lemma RotationDeltaSpec(dtheta: real, maxTurn: real)
    requires 0.0 <= maxTurn
    ensures Abs(RotationDelta(dtheta, maxTurn)) == Min(Abs(dtheta), maxTurn)
    ensures dtheta < 0.0 ==> RotationDelta(dtheta, maxTurn) <= 0.0
    ensures dtheta > 0.0 ==> RotationDelta(dtheta, maxTurn) >= 0.0
    ensures Abs(dtheta - RotationDelta(dtheta, maxTurn)) == Abs(dtheta) - Abs(RotationDelta(dtheta, maxTurn))
  {
  }

  /** `min(self.speed * self.dt, dist)`. */
  function MoveDist(dist: real): real {
    Min(Speed * Dt, dist)
  }

  /** The scene-to-field conversion of `update`: where the centre of an
      item at scene coordinate `p` lies on the field, for the field offset
      `offset` (11 for x, 7 for y). */
  function SceneToField(s: Strategy, p: real, offset: real): real
    requires s.scale != 0.0
  {
    (p + s.robotSize / 2.0 - s.margin) / s.scale - offset
  }

  /** The scene coordinate of the item of a robot whose centre is at field
      coordinate `f` (`Team.create_robot_graphic`). */
  function FieldToScene(s: Strategy, f: real, offset: real): real {
    s.margin + (f + offset) * s.scale - s.robotSize / 2.0
  }

  /** A robot's item sits where its pose says. */
  predicate Synced(s: Strategy, r: FieldRobot)
    reads r
  {
    r.px == FieldToScene(s, r.x, 11.0) && r.py == FieldToScene(s, r.y, 7.0)
  }

  /** The two conversions are inverse: a step of `v * scale` pixels from a
      synced item is a step of `v` metres on the field, and the field point
      of any scene point maps back to it. */
  lemma SceneFieldInverse(s: Strategy, f: real, v: real, p: real, offset: real)
    requires s.scale != 0.0
    ensures SceneToField(s, FieldToScene(s, f, offset) + v * s.scale, offset) == f + v
    ensures FieldToScene(s, SceneToField(s, p, offset), offset) == p
  {
    var q := FieldToScene(s, f, offset) + v * s.scale + s.robotSize / 2.0 - s.margin;
    assert q == (f + offset + v) * s.scale;
    assert q / s.scale == f + offset + v;
  }

  /** Where a blue robot at `blue` would step towards `aim`, given the true
      distance `dist` between them: the scene position and the field
      position; none when it is within `ArriveDistance`. */
  datatype Placement = Placement(scene: Point, field: Point)

  function Proposal(s: Strategy, m: MathOps, aim: Point, blue: Point, scene: Point): Option<Placement>
    requires s.scale != 0.0
  {
    var dx, dy := aim.x - blue.x, aim.y - blue.y;
    var dist := m.hypot(dx, dy);
    if dist > ArriveDistance then
      var moveDist := MoveDist(dist);
      var vx, vy := moveDist * dx / dist, moveDist * dy / dist;
      var newX, newY := scene.x + vx * s.scale, scene.y + vy * s.scale;
      Some(Placement(Point(newX, newY), Point(SceneToField(s, newX, 11.0), SceneToField(s, newY, 7.0))))
    else None
  }

  /** When `hypot` is the true distance, a proposed step from a synced
      robot has length `min(speed * dt, dist)`: at most `speed * dt`, never
      past the intercept point, and along the straight line towards it.
      There is no step within `ArriveDistance` of it. */
  lemma ProposalStep(s: Strategy, m: MathOps, aim: Point, blue: Point)
    requires s.scale != 0.0
    requires var dx, dy := aim.x - blue.x, aim.y - blue.y;
      0.0 <= m.hypot(dx, dy) && m.hypot(dx, dy) * m.hypot(dx, dy) == dx * dx + dy * dy
    ensures var dist := m.hypot(aim.x - blue.x, aim.y - blue.y);
      var scene := Point(FieldToScene(s, blue.x, 11.0), FieldToScene(s, blue.y, 7.0));
      var p := Proposal(s, m, aim, blue, scene);
      && (p.None? <==> dist <= ArriveDistance)
      && (p.Some? ==>
            var f := p.value.field;
            var step := MoveDist(dist);
            && 0.0 < step <= Speed * Dt && step <= dist
            && Dist2(f, blue) == step * step
            && f == Lerp(blue, aim, step / dist))
  {
    var dist := m.hypot(aim.x - blue.x, aim.y - blue.y);
    if dist > ArriveDistance {
      MoveDistBounds(dist);
      ProposalOnLine(s, m, aim, blue);
      StepLength(blue, aim, dist, MoveDist(dist));
    }
  }

  lemma MoveDistBounds(dist: real)
    requires dist > ArriveDistance
    ensures 0.0 < MoveDist(dist) <= Speed * Dt && MoveDist(dist) <= dist
  {
  }

  /** Away from the intercept point, the proposed field position is the
      point `MoveDist(dist) / dist` of the way towards it. */
  lemma ProposalOnLine(s: Strategy, m: MathOps, aim: Point, blue: Point)
    requires s.scale != 0.0
    requires m.hypot(aim.x - blue.x, aim.y - blue.y) > ArriveDistance
    ensures var dist := m.hypot(aim.x - blue.x, aim.y - blue.y);
      var scene := Point(FieldToScene(s, blue.x, 11.0), FieldToScene(s, blue.y, 7.0));
      var p := Proposal(s, m, aim, blue, scene);
      p.Some? && p.value.field == Lerp(blue, aim, MoveDist(dist) / dist)
  {
    var dx, dy := aim.x - blue.x, aim.y - blue.y;
    var dist := m.hypot(dx, dy);
    var step := MoveDist(dist);
    QuotientScale(step, dx, dist);
    QuotientScale(step, dy, dist);
    SceneFieldInverse(s, blue.x, step * dx / dist, 0.0, 11.0);
    SceneFieldInverse(s, blue.y, step * dy / dist, 0.0, 7.0);
  }

  /** Going the fraction `step / dist` of a segment whose length is `dist`
      covers `step`. */
  lemma StepLength(a: Point, b: Point, dist: real, step: real)
    requires dist != 0.0 && dist * dist == Norm2(Sub(b, a))
    ensures Dist2(Lerp(a, b, step / dist), a) == step * step
  {
    LerpDist2(a, b, step / dist);
    QuotientSquare(step, dist);
  }

  /** `a * b / c` is `b` scaled by `a / c`. */
  lemma QuotientScale(a: real, b: real, c: real)
    requires c != 0.0
    ensures a * b / c == (a / c) * b
  {
  }

  /** Scaling a quotient back by the square of its divisor. */
  lemma QuotientSquare(a: real, c: real)
    requires c != 0.0
    ensures (a / c) * (a / c) * (c * c) == a * a
  {
    var q := a / c;
    assert q * c == a;
    assert q * q * (c * c) == (q * c) * (q * c);
  }

  /** A point a fraction `c` of the way from `a` to `b` lies at squared
      distance `c * c` times the squared length of the segment from `a`. */
  lemma LerpDist2(a: Point, b: Point, c: real)
    ensures Dist2(Lerp(a, b, c), a) == c * c * Norm2(Sub(b, a))
  {
    assert Sub(Lerp(a, b, c), a) == Point(c * (b.x - a.x), c * (b.y - a.y));
    ScaledNorm(b.x - a.x, b.y - a.y, c);
  }

  lemma ScaledNorm(u: real, w: real, c: real)
    ensures Norm2(Point(c * u, c * w)) == c * c * Norm2(Point(u, w))
  {
    assert (c * u) * (c * u) == c * c * (u * u);
    assert (c * w) * (c * w) == c * c * (w * w);
  }

  /** The heading error of a robot at `blue` with heading `theta` that
      faces `aim`: the desired heading wrapped into [0, 360), less `theta`,
      wrapped into [-180, 180). */
  function AimError(m: MathOps, aim: Point, blue: Point, theta: real): real {
    var dx, dy := aim.x - blue.x, aim.y - blue.y;
    HeadingError(FloatMod(Degrees(m.atan2(dy, dx)), 360.0), theta)
  }

  /** The heading after a tick: unchanged within `TurnDeadband` of the
      desired heading, otherwise turned by the rotation step and wrapped
      into [0, 360). */
  function NewHeading(m: MathOps, aim: Point, blue: Point, theta: real): real {
    var dtheta := AimError(m, aim, blue, theta);
    if Abs(dtheta) > TurnDeadband then FloatMod(theta + RotationDelta(dtheta, RotateSpeed * Dt), 360.0)
    else theta
  }

  /** Within the dead band the heading is untouched. Outside it the robot
      turns toward the desired heading, by the error capped at
      `rotate_speed * dt` and without overshooting, and the result is
      wrapped into [0, 360). */
  lemma NewHeadingSpec(m: MathOps, aim: Point, blue: Point, theta: real)
    ensures Abs(AimError(m, aim, blue, theta)) <= TurnDeadband ==> NewHeading(m, aim, blue, theta) == theta
    ensures
      var dtheta := AimError(m, aim, blue, theta);
      var delta := RotationDelta(dtheta, RotateSpeed * Dt);
      Abs(dtheta) > TurnDeadband ==>
        && 0.0 <= NewHeading(m, aim, blue, theta) < 360.0
        && (exists k: int :: theta + delta == NewHeading(m, aim, blue, theta) + Turns(k, 360.0))
        && Abs(delta) == Min(Abs(dtheta), RotateSpeed * Dt)
        && (dtheta < 0.0 ==> delta < 0.0)
        && (dtheta > 0.0 ==> delta > 0.0)
        && Abs(dtheta - delta) == Abs(dtheta) - Abs(delta)
    ensures exists k: int, delta: real :: Abs(delta) <= RotateSpeed * Dt && theta + delta == NewHeading(m, aim, blue, theta) + Turns(k, 360.0)
  {
    var dtheta := AimError(m, aim, blue, theta);
    if Abs(dtheta) > TurnDeadband {
      var delta := RotationDelta(dtheta, RotateSpeed * Dt);
      RotationDeltaSpec(dtheta, RotateSpeed * Dt);
      var k: int :| theta + delta == FloatMod(theta + delta, 360.0) + Turns(k, 360.0);
      assert Abs(delta) <= RotateSpeed * Dt && theta + delta == NewHeading(m, aim, blue, theta) + Turns(k, 360.0);
    } else {
      assert Abs(0.0) <= RotateSpeed * Dt && theta + 0.0 == NewHeading(m, aim, blue, theta) + Turns(0, 360.0);
    }
  }

  // ---------------------------------------------------------------------
  // is_position_free and update
  // ---------------------------------------------------------------------

  /** No robot other than `current` is closer than `minDist` to (x, y). */
  predicate FreeAt(x: real, y: real, current: FieldRobot, all: seq<FieldRobot>, minDist: real)
    reads all
  {
    forall k :: 0 <= k < |all| && all[k] != current ==> !HypotLess(x - all[k].x, y - all[k].y, minDist)
  }

  /** `is_position_free`: scan every robot, skipping `current` by identity,
      and stop at the first one closer than `min_dist`. */
  method IsPositionFree(x: real, y: real, current: FieldRobot, all: seq<FieldRobot>, minDist: real) returns (free: bool)
    ensures free <==> FreeAt(x, y, current, all, minDist)
  {
    var k := 0;
    while k < |all|
      invariant 0 <= k <= |all|
      invariant forall a :: 0 <= a < k && all[a] != current ==> !HypotLess(x - all[a].x, y - all[a].y, minDist)
    {
      var robot := all[k];
      if robot != current {
        if HypotLess(x - robot.x, y - robot.y, minDist) {
          return false;
        }
      }
      k := k + 1;
    }
    return true;
  }

  predicate DistinctRobots(all: seq<FieldRobot>) {
    forall a, b :: 0 <= a < b < |all| ==> all[a] != all[b]
  }

  /** The field positions of the robots, in order. */
  function Positions(all: seq<FieldRobot>): (ps: seq<Point>)
    reads all
    ensures |ps| == |all|
    ensures forall k :: 0 <= k < |all| ==> ps[k] == Point(all[k].x, all[k].y)
  {
    seq(|all|, k requires 0 <= k < |all| reads all => Point(all[k].x, all[k].y))
  }

  /** No position other than the one at index `j` is closer than `minDist`
      to `p`. */
  predicate Clear(p: Point, ps: seq<Point>, j: int, minDist: real) {
    forall k :: 0 <= k < |ps| && k != j ==> !HypotLess(p.x - ps[k].x, p.y - ps[k].y, minDist)
  }

  /** No two positions are closer than `minDist`. */
  predicate Apart(ps: seq<Point>, minDist: real) {
    forall a, b :: 0 <= a < b < |ps| ==> !HypotLess(ps[a].x - ps[b].x, ps[a].y - ps[b].y, minDist)
  }

  /** The distance test does not depend on the direction of the difference. */
  lemma HypotLessSymmetric(dx: real, dy: real, bound: real)
    ensures HypotLess(-dx, -dy, bound) <==> HypotLess(dx, dy, bound)
  {
    calc {
      (-dx) * (-dx) + (-dy) * (-dy);
      == dx * dx + dy * dy;
    }
  }

  /** Moving one robot to a position that is clear of all the others keeps
      every pair apart. */
  lemma MoveKeepsApart(ps: seq<Point>, j: int, p: Point, minDist: real)
    requires 0 <= j < |ps|
    requires Apart(ps, minDist) && Clear(p, ps, j, minDist)
    ensures Apart(ps[j := p], minDist)
  {
    var qs := ps[j := p];
    forall a, b | 0 <= a < b < |qs|
      ensures !HypotLess(qs[a].x - qs[b].x, qs[a].y - qs[b].y, minDist)
    {
      if b == j {
        HypotLessSymmetric(p.x - ps[a].x, p.y - ps[a].y, minDist);
        assert qs[a].x - qs[b].x == -(p.x - ps[a].x) && qs[a].y - qs[b].y == -(p.y - ps[a].y);
      }
    }
  }

  /** `is_position_free` skips the robot by identity; among distinct robots
      that is skipping its index. */
  lemma FreeAtIsClear(x: real, y: real, all: seq<FieldRobot>, j: int, minDist: real)
    requires DistinctRobots(all) && 0 <= j < |all|
    ensures FreeAt(x, y, all[j], all, minDist) <==> Clear(Point(x, y), Positions(all), j, minDist)
  {
    assert forall k :: 0 <= k < |all| && k != j ==> all[k] != all[j] by {
      forall k | 0 <= k < |all| && k != j
        ensures all[k] != all[j]
      {
        if k < j { assert all[k] != all[j]; } else { assert all[j] != all[k]; }
      }
    }
  }

  /** A blue robot in a consistent state: its item drawn where its pose
      says, inside the field, its heading wrapped into [0, 360). */
  predicate Placed(s: Strategy, r: FieldRobot)
    reads r
  {
    Synced(s, r) && InsideField(r.x, r.y) && 0.0 <= r.theta < 360.0
  }

  /** The move rule of one pass of the loop of `update`: when the intercept
      point `aim` is farther than `ArriveDistance`, step towards it, but only
      when the new field position is inside the field and free. */
  method MoveBlue(s: Strategy, m: MathOps, aim: Point, blue: FieldRobot, all: seq<FieldRobot>)
    requires s.scale != 0.0
    modifies blue
    ensures
      var p := Proposal(s, m, aim, old(Point(blue.x, blue.y)), old(Point(blue.px, blue.py)));
      var moved := p.Some? && InsideField(p.value.field.x, p.value.field.y)
                   && old(FreeAt(p.value.field.x, p.value.field.y, blue, all, MinDist));
      && (moved ==> blue.x == p.value.field.x && blue.y == p.value.field.y
                    && blue.px == p.value.scene.x && blue.py == p.value.scene.y)
      && (!moved ==> blue.x == old(blue.x) && blue.y == old(blue.y) && blue.px == old(blue.px) && blue.py == old(blue.py))
    ensures blue.theta == old(blue.theta)
    ensures old(Placed(s, blue)) ==> Placed(s, blue)
  {
    // `Proposal` applies the arrive-distance test, takes the step toward
    // the aim in the scene and converts the new scene point to the field.
    var p := Proposal(s, m, aim, Point(blue.x, blue.y), Point(blue.px, blue.py));
    if p.Some? {
      var xm, ym := p.value.field.x, p.value.field.y;
      if InsideField(xm, ym) {
        var free := IsPositionFree(xm, ym, blue, all, MinDist);
        if free {
          blue.px, blue.py := p.value.scene.x, p.value.scene.y;
          blue.x, blue.y := xm, ym;
          SceneFieldInverse(s, 0.0, 0.0, blue.px, 11.0);
          SceneFieldInverse(s, 0.0, 0.0, blue.py, 7.0);
        }
      }
    }
  }

  /** The rotation rule of one pass of the loop of `update`: the heading
      error is taken from the position `from` the robot had before its move. */
  method TurnBlue(m: MathOps, aim: Point, from: Point, blue: FieldRobot)
    modifies blue
    ensures blue.theta == NewHeading(m, aim, from, old(blue.theta))
    ensures blue.x == old(blue.x) && blue.y == old(blue.y) && blue.px == old(blue.px) && blue.py == old(blue.py)
    ensures 0.0 <= old(blue.theta) < 360.0 ==> 0.0 <= blue.theta < 360.0
  {
    NewHeadingSpec(m, aim, from, blue.theta);
    var dx := aim.x - from.x;
    var dy := aim.y - from.y;
    var desired := FloatMod(Degrees(m.atan2(dy, dx)), 360.0);
    var current := blue.theta;
    var dtheta := HeadingError(desired, current);
    if Abs(dtheta) > TurnDeadband {
      var delta := RotationDelta(dtheta, RotateSpeed * Dt);
      blue.theta := FloatMod(current + delta, 360.0);
    }
  }

  /** One pass of the `for i in range(assigned)` loop of `update`, for the
      pair `red`, `blue`: aim at the intercept point, move, then turn. */
  method StepBlue(s: Strategy, m: MathOps, red: FieldRobot, blue: FieldRobot, all: seq<FieldRobot>)
    requires s.scale != 0.0
    modifies blue
    ensures
      var aim := InterceptPoint(s.target, old(Point(red.x, red.y)), old(Point(blue.x, blue.y)));
      var p := Proposal(s, m, aim, old(Point(blue.x, blue.y)), old(Point(blue.px, blue.py)));
      var moved := p.Some? && InsideField(p.value.field.x, p.value.field.y)
                   && old(FreeAt(p.value.field.x, p.value.field.y, blue, all, MinDist));
      && (moved ==> blue.x == p.value.field.x && blue.y == p.value.field.y
                    && blue.px == p.value.scene.x && blue.py == p.value.scene.y)
      && (!moved ==> blue.x == old(blue.x) && blue.y == old(blue.y) && blue.px == old(blue.px) && blue.py == old(blue.py))
      && blue.theta == NewHeading(m, aim, old(Point(blue.x, blue.y)), old(blue.theta))
    ensures old(Placed(s, blue)) ==> Placed(s, blue)
  {
    var redPos := Point(red.x, red.y);
    var bluePos := Point(blue.x, blue.y);
    var aim := InterceptPoint(s.target, redPos, bluePos);
    MoveBlue(s, m, aim, blue, all);
    TurnBlue(m, aim, bluePos, blue);
  }

  /** `update`: the `i`-th blue robot chases the `i`-th red one, for the
      first `min(len(red), len(blue))` pairs, in order; every step sees the
      moves made before it. The red robots and the unpaired blue robots
      stay where they are, consistent blue robots stay consistent, and
      when no two robots were closer than `MinDist` none are afterwards. */
  method Update(s: Strategy, m: MathOps, reds: seq<FieldRobot>, blues: seq<FieldRobot>)
    requires s.scale != 0.0
    requires DistinctRobots(blues + reds)
    modifies blues
    ensures forall k :: 0 <= k < |reds| ==> unchanged(reds[k])
    ensures forall k :: |reds| <= k < |blues| ==> unchanged(blues[k])
    ensures forall k :: 0 <= k < |blues| ==> old(Placed(s, blues[k])) ==> Placed(s, blues[k])
    ensures old(Apart(Positions(blues + reds), MinDist)) ==> Apart(Positions(blues + reds), MinDist)
  {
    var all := blues + reds;
    DistinctParts(blues, reds);
    var pairs := if |reds| <= |blues| then |reds| else |blues|;
    for i := 0 to pairs
      invariant forall k :: 0 <= k < |reds| ==> unchanged(reds[k])
      invariant forall k :: i <= k < |blues| ==> unchanged(blues[k])
      invariant forall k :: 0 <= k < |blues| ==> old(Placed(s, blues[k])) ==> Placed(s, blues[k])
      invariant old(Apart(Positions(all), MinDist)) ==> Apart(Positions(all), MinDist)
    {
      assert all[i] == blues[i] && all[|blues| + i] == reds[i];
      StepAt(s, m, reds[i], all, i);
      assert forall k :: 0 <= k < |reds| ==> reds[k] == all[|blues| + k];
    }
  }

  /** `StepBlue` for the robot at index `j` of `all`: it touches no other
      robot, keeps that robot consistent and keeps all robots apart. */
  method StepAt(s: Strategy, m: MathOps, red: FieldRobot, all: seq<FieldRobot>, j: int)
    requires s.scale != 0.0 && DistinctRobots(all) && 0 <= j < |all|
    modifies all[j]
    ensures forall k :: 0 <= k < |all| && k != j ==> unchanged(all[k])
    ensures old(Placed(s, all[j])) ==> Placed(s, all[j])
    ensures old(Apart(Positions(all), MinDist)) ==> Apart(Positions(all), MinDist)
  {
    var blue := all[j];
    ghost var before := Positions(all);
    ghost var aim := InterceptPoint(s.target, Point(red.x, red.y), Point(blue.x, blue.y));
    ghost var p := Proposal(s, m, aim, Point(blue.x, blue.y), Point(blue.px, blue.py));
    ghost var moved := p.Some? && InsideField(p.value.field.x, p.value.field.y)
                       && FreeAt(p.value.field.x, p.value.field.y, blue, all, MinDist);
    if p.Some? {
      FreeAtIsClear(p.value.field.x, p.value.field.y, all, j, MinDist);
    }
    StepBlue(s, m, red, blue, all);
    forall k | 0 <= k < |all| && k != j
      ensures all[k] != blue
    {
      if k < j { assert all[k] != all[j]; } else { assert all[j] != all[k]; }
    }
    assert Positions(all) == before[j := Point(blue.x, blue.y)];
    if moved {
      if Apart(before, MinDist) {
        assert Point(blue.x, blue.y) == p.value.field;
        MoveKeepsApart(before, j, p.value.field, MinDist);
      }
    } else {
      assert Positions(all) == before;
    }
  }

  /** Distinct robots in `blues + reds`: no blue robot is a red one, and
      the blue robots are distinct among themselves. */
  lemma DistinctParts(blues: seq<FieldRobot>, reds: seq<FieldRobot>)
    requires DistinctRobots(blues + reds)
    ensures forall a, k :: 0 <= a < |blues| && 0 <= k < |reds| ==> blues[a] != reds[k]
    ensures DistinctRobots(blues)
  {
    var all := blues + reds;
    forall a, k | 0 <= a < |blues| && 0 <= k < |reds|
      ensures blues[a] != reds[k]
    {
      assert all[a] == blues[a] && all[|blues| + k] == reds[k];
    }
    forall a, b | 0 <= a < b < |blues|
      ensures blues[a] != blues[b]
    {
      assert all[a] == blues[a] && all[b] == blues[b];
    }
  }
}
