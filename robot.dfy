/** `models/robot.py`: a robot's pose (metres and degrees) and velocity,
    advanced by explicit Euler steps. */
module Robots {
  import opened Common

  /** One full turn in degrees. */
  const FullTurn: real := 360.0

  class Robot {
    var x: real
    var y: real
    var theta: real
    var vx: real
    var vy: real
    var vtheta: real

    /** The constructor stores the heading as given (it does not wrap it)
        and starts at rest. */
    constructor (x0: real, y0: real, theta0: real)
      ensures x == x0 && y == y0 && theta == theta0
      ensures vx == 0.0 && vy == 0.0 && vtheta == 0.0
    {
      x, y, theta := x0, y0, theta0;
      vx, vy, vtheta := 0.0, 0.0, 0.0;
    }

    /** `update(dt)`: move by the velocity times `dt`, turn by the angular
        velocity times `dt`, and wrap the heading into [0, 360). */
    method Update(dt: real)
      modifies this
      ensures x == old(x) + old(vx) * dt && y == old(y) + old(vy) * dt
      ensures theta == FloatMod(old(theta) + old(vtheta) * dt, FullTurn)
      ensures 0.0 <= theta < FullTurn
      ensures exists k: int :: old(theta) + old(vtheta) * dt == theta + Turns(k, FullTurn)
      ensures vx == old(vx) && vy == old(vy) && vtheta == old(vtheta)
    {
      x := x + vx * dt;
      y := y + vy * dt;
      var turned := theta + vtheta * dt;
      assert turned == old(theta) + old(vtheta) * dt;
      theta := FloatMod(turned, FullTurn);
    }

    /** `set_pose`: the position as given, the heading wrapped into
        [0, 360); velocities untouched. */
    method SetPose(x0: real, y0: real, theta0: real)
      modifies this
      ensures x == x0 && y == y0 && theta == FloatMod(theta0, FullTurn)
      ensures 0.0 <= theta < FullTurn
      ensures 0.0 <= theta0 < FullTurn ==> theta == theta0
      ensures vx == old(vx) && vy == old(vy) && vtheta == old(vtheta)
    {
      x, y := x0, y0;
      theta := FloatMod(theta0, FullTurn);
    }

    /** `set_velocity`: the three velocities as given; pose untouched. */
    method SetVelocity(vx0: real, vy0: real, vtheta0: real)
      modifies this
      ensures vx == vx0 && vy == vy0 && vtheta == vtheta0
      ensures x == old(x) && y == old(y) && theta == old(theta)
    {
      vx, vy, vtheta := vx0, vy0, vtheta0;
    }

    /** `get_pose`: the current pose fields. */
    method GetPose() returns (px: real, py: real, ptheta: real)
      ensures px == x && py == y && ptheta == theta
    {
      return x, y, theta;
    }

    /** `get_velocity`: the current velocity fields. */
    method GetVelocity() returns (pvx: real, pvy: real, pvtheta: real)
      ensures pvx == vx && pvy == vy && pvtheta == vtheta
    {
      return vx, vy, vtheta;
    }
  }

  /** With zero velocity, `update` leaves the position where it was and
      only wraps the heading; on a wrapped heading it changes nothing. */
  method UpdateAtRest(r: Robot, dt: real)
    requires r.vx == 0.0 && r.vy == 0.0 && r.vtheta == 0.0 && 0.0 <= r.theta < FullTurn
    modifies r
    ensures r.x == old(r.x) && r.y == old(r.y) && r.theta == old(r.theta)
  {
    r.Update(dt);
  }

  /** Two updates with no velocity change in between land where one update
      over the summed time step would, the heading up to whole turns. */
  method UpdateTwice(r: Robot, dt1: real, dt2: real)
    modifies r
    ensures r.x == old(r.x) + old(r.vx) * (dt1 + dt2) && r.y == old(r.y) + old(r.vy) * (dt1 + dt2)
    ensures 0.0 <= r.theta < FullTurn
    ensures exists k: int :: old(r.theta) + old(r.vtheta) * (dt1 + dt2) == r.theta + Turns(k, FullTurn)
  {
    ghost var t0, v := r.theta, r.vtheta;
    Distribute(r.vx, dt1, dt2);
    Distribute(r.vy, dt1, dt2);
    r.Update(dt1);
    ghost var t1 := r.theta;
    ghost var k1: int :| t0 + v * dt1 == t1 + Turns(k1, FullTurn);
    r.Update(dt2);
    ghost var k2: int :| t1 + v * dt2 == r.theta + Turns(k2, FullTurn);
    TurnsAdd(t0, t1, r.theta, v, dt1, dt2, k1, k2);
  }

  lemma Distribute(v: real, d1: real, d2: real)
    ensures v * (d1 + d2) == v * d1 + v * d2
  {
  }

  /** Two turns, each equal to its wrapped heading up to whole turns, add
      up to their sum wrapped, up to the sum of those whole turns. */
  lemma TurnsAdd(t0: real, t1: real, t2: real, v: real, d1: real, d2: real, k1: int, k2: int)
    requires t0 + v * d1 == t1 + Turns(k1, FullTurn)
    requires t1 + v * d2 == t2 + Turns(k2, FullTurn)
    ensures t0 + v * (d1 + d2) == t2 + Turns(k1 + k2, FullTurn)
  {
    Distribute(v, d1, d2);
    assert Turns(k1, FullTurn) + Turns(k2, FullTurn) == Turns(k1 + k2, FullTurn);
  }
}
