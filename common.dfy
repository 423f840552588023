/** Shared vocabulary of the model: options, points and poses, the distance
    tests of the source written without square roots, Python's float `%`,
    and the bundle of transcendental functions the model keeps opaque. */
module Common {

  datatype Option<T> = None | Some(value: T)

  /** A 2D position in metres. */
  datatype Point = Point(x: real, y: real)

  /** A pose (x, y, heading); the heading unit depends on the component. */
  datatype Pose = Pose(x: real, y: real, theta: real) {
    function Position(): Point { Point(x, y) }
  }

  /** The value of `math.pi` (its shortest decimal representation). */
  const Pi: real := 3.141592653589793

  /** The functions of Python's `math` module (and `round`) that the model
      leaves uninterpreted. Every member of the model that needs one of them
      takes the bundle as a parameter, so every proof holds for any choice.
      `roundDiv(a, b)` stands for `round(a / b)`, the quantisation of a
      coordinate by a resolution; the model never needs the quotient itself. */
  datatype MathOps = MathOps(
    cos: real -> real,
    sin: real -> real,
    atan2: (real, real) -> real,
    hypot: (real, real) -> real,
    roundDiv: (real, real) -> int)

  function Abs(a: real): real { if a < 0.0 then -a else a }

  function Min(a: real, b: real): real { if a <= b then a else b }

  function Max(a: real, b: real): real { if a >= b then a else b }

  /** `math.hypot(dx, dy) < bound`, stated on the squared distance. */
  predicate HypotLess(dx: real, dy: real, bound: real) {
    0.0 < bound && dx * dx + dy * dy < bound * bound
  }

  /** `math.hypot(dx, dy) <= bound`, stated on the squared distance. */
  predicate HypotAtMost(dx: real, dy: real, bound: real) {
    0.0 <= bound && dx * dx + dy * dy <= bound * bound
  }

  /** The squared-distance tests agree with the comparisons of any
      non-negative square root `h` of dx*dx + dy*dy. */
  lemma HypotTestsSound(dx: real, dy: real, h: real, bound: real)
    requires 0.0 <= h && h * h == dx * dx + dy * dy
    ensures h < bound <==> HypotLess(dx, dy, bound)
    ensures h <= bound <==> HypotAtMost(dx, dy, bound)
  {
    if 0.0 <= bound {
      SquareMonotone(h, bound);
      SquareMonotone(bound, h);
    }
  }

  /** Squaring is monotone on the non-negative reals. */
  lemma SquareMonotone(a: real, b: real)
    requires 0.0 <= a
    ensures a < b ==> a * a < b * b
    ensures a <= b ==> a * a <= b * b
  {
    if a <= b {
      var d, e := b - a, b + a;
      assert b * b - a * a == d * e;
      ProductNonNegative(d, e);
      if a < b {
        ProductPositive(d, e);
      }
    }
  }

  lemma ProductNonNegative(a: real, b: real)
    requires 0.0 <= a && 0.0 <= b
    ensures 0.0 <= a * b
  {}

  lemma ProductPositive(a: real, b: real)
    requires 0.0 < a && 0.0 < b
    ensures 0.0 < a * b
  {}

  /** A full turn in radians. */
  const TwoPi: real := 2.0 * Pi

  /** `k` whole multiples of `m`. */
  function Turns(k: int, m: real): real { (k as real) * m }

  /** Python's float remainder `a % m` for a positive modulus: the result
      has the sign of the modulus. */
  function FloatMod(a: real, m: real): (r: real)
    requires 0.0 < m
    ensures 0.0 <= r < m
    ensures exists k: int :: a == r + Turns(k, m)
    ensures 0.0 <= a < m ==> r == a
  {
    var k := (a / m).Floor;
    FloorDivision(a, m);
    assert a == (a - Turns(k, m)) + Turns(k, m);
    a - Turns(k, m)
  }

  /** The whole multiples of `m` below `a`, as Python's float `%` uses them. */
  lemma FloorDivision(a: real, m: real)
    requires 0.0 < m
    ensures Turns((a / m).Floor, m) <= a < Turns((a / m).Floor, m) + m
    ensures 0.0 <= a < m ==> (a / m).Floor == 0
  {
    var k := (a / m).Floor;
    var q := a / m;
    assert q * m == a;
    assert (k as real) <= q < (k as real) + 1.0;
    MulMonotone(k as real, q, m);
    MulMonotone(q, (k as real) + 1.0, m);
    assert ((k as real) + 1.0) * m == (k as real) * m + m;
    if 0.0 <= a < m {
      MulMonotone(a, m, 1.0 / m);
      assert a * (1.0 / m) == q && m * (1.0 / m) == 1.0;
      MulMonotone(0.0, a, 1.0 / m);
    }
  }

  lemma MulMonotone(a: real, b: real, m: real)
    requires 0.0 < m
    ensures a <= b ==> a * m <= b * m
    ensures a < b ==> a * m < b * m
  {}

  /** The playing field shared by the defence strategy and the game window:
      the closed box [-12, 12] x [-8, 8]. */
  predicate InsideField(x: real, y: real) {
    -12.0 <= x <= 12.0 && -8.0 <= y <= 8.0
  }
}
