/** The target zones of `zones/target_zone.py`: the base class has no
    membership rule of its own, so the zones form the closed family of its
    four subclasses, modelled as one datatype. */
module TargetZone {
  import opened Common

  /** `CircleZone`, `RectangleZone`, `DiamondZone` and `SemiCircleZone`
      with their constructor fields; a semicircle keeps its direction
      string. */
  datatype Zone =
    | Circle(cx: real, cy: real, radius: real)
    | Rectangle(cx: real, cy: real, w: real, h: real)
    | Diamond(cx: real, cy: real, w: real, h: real)
    | SemiCircle(cx: real, cy: real, radius: real, direction: string)

  /** The zone used by the playing field: a semicircle of radius 2 at
      (11, 0), open to the left. */
  const FieldZone: Zone := SemiCircle(11.0, 0.0, 2.0, "left")

  /** `DiamondZone.contains` divides by half the width and half the height,
      which raises for a zero width or height. */
  predicate Defined(z: Zone) {
    z.Diamond? ==> z.w != 0.0 && z.h != 0.0
  }

  /** `contains(x, y)` of each zone. */
  function Contains(z: Zone, x: real, y: real): bool
    requires Defined(z)
  {
    match z
    case Circle(cx, cy, r) => HypotAtMost(cx - x, cy - y, r)
    case Rectangle(cx, cy, w, h) => cx - w / 2.0 <= x <= cx + w / 2.0 && cy - h / 2.0 <= y <= cy + h / 2.0
    case Diamond(cx, cy, w, h) => Abs(x - cx) / (w / 2.0) + Abs(y - cy) / (h / 2.0) <= 1.0
    case SemiCircle(cx, cy, r, d) =>
      if !HypotAtMost(cx - x, cy - y, r) then false
      else if d == "right" then x >= cx
      else if d == "left" then x <= cx
      else if d == "up" then y >= cy
      else if d == "down" then y <= cy
      else false
  }

  /** The closed half-plane a direction string opens towards; no point for
      any other string. */
  predicate OpenSide(d: string, cx: real, cy: real, x: real, y: real) {
    || (d == "right" && x >= cx)
    || (d == "left" && x <= cx)
    || (d == "up" && y >= cy)
    || (d == "down" && y <= cy)
  }

  /** The circle test agrees with `math.hypot(cx - x, cy - y) <= radius`
      for the true distance `dist`: the boundary is inside. */
  lemma CircleIsDistanceTest(cx: real, cy: real, r: real, x: real, y: real, dist: real)
    requires 0.0 <= dist && dist * dist == (cx - x) * (cx - x) + (cy - y) * (cy - y)
    ensures Contains(Circle(cx, cy, r), x, y) <==> dist <= r
  {
    HypotTestsSound(cx - x, cy - y, dist, r);
  }

  /** A semicircle is its circle intersected with the closed half-plane of
      its direction; so it lies inside the circle, and an unknown direction
      gives the empty zone. */
  lemma SemiCircleIsHalfDisc(cx: real, cy: real, r: real, d: string, x: real, y: real)
    ensures Contains(SemiCircle(cx, cy, r, d), x, y) <==> Contains(Circle(cx, cy, r), x, y) && OpenSide(d, cx, cy, x, y)
    ensures Contains(SemiCircle(cx, cy, r, d), x, y) ==> Contains(Circle(cx, cy, r), x, y)
    ensures d != "right" && d != "left" && d != "up" && d != "down" ==> !Contains(SemiCircle(cx, cy, r, d), x, y)
  {
  }

  /** The rectangle bounds are inclusive: a point is inside exactly when it
      is within half the width and half the height of the centre. */
  lemma RectangleIsBox(cx: real, cy: real, w: real, h: real, x: real, y: real)
    ensures Contains(Rectangle(cx, cy, w, h), x, y) <==> Abs(x - cx) <= w / 2.0 && Abs(y - cy) <= h / 2.0
    ensures 0.0 <= w && 0.0 <= h ==> Contains(Rectangle(cx, cy, w, h), cx + w / 2.0, cy + h / 2.0)
  {
  }

  /** For a positive width and height a diamond holds its centre and its
      four corners, and lies inside the rectangle with the same centre and
      size. */
  lemma DiamondInRectangle(cx: real, cy: real, w: real, h: real, x: real, y: real)
    requires 0.0 < w && 0.0 < h
    ensures Contains(Diamond(cx, cy, w, h), cx, cy)
    ensures Contains(Diamond(cx, cy, w, h), cx + w / 2.0, cy) && Contains(Diamond(cx, cy, w, h), cx - w / 2.0, cy)
    ensures Contains(Diamond(cx, cy, w, h), cx, cy + h / 2.0) && Contains(Diamond(cx, cy, w, h), cx, cy - h / 2.0)
    ensures Contains(Diamond(cx, cy, w, h), x, y) ==> Contains(Rectangle(cx, cy, w, h), x, y)
  {
    RatioAtMostOne(Abs(x - cx), w / 2.0);
    RatioAtMostOne(Abs(y - cy), h / 2.0);
    RatioAtMostOne(w / 2.0, w / 2.0);
    RatioAtMostOne(h / 2.0, h / 2.0);
    assert Abs(cx + w / 2.0 - cx) == w / 2.0 && Abs(cy - h / 2.0 - cy) == h / 2.0;
    assert Abs(cx - w / 2.0 - cx) == w / 2.0 && Abs(cy + h / 2.0 - cy) == h / 2.0;
    RectangleIsBox(cx, cy, w, h, x, y);
  }

  lemma RatioAtMostOne(v: real, s: real)
    requires 0.0 <= v && 0.0 < s
    ensures 0.0 <= v / s
    ensures v / s <= 1.0 <==> v <= s
    ensures v == s ==> v / s == 1.0
  {
    var q := v / s;
    assert q * s == v;
    if q <= 1.0 {
      MulMonotone(q, 1.0, s);
      assert q * s <= 1.0 * s;
    } else {
      MulMonotone(1.0, q, s);
      assert 1.0 * s < q * s;
    }
  }
}
