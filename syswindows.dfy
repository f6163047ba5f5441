/** The desktop build of the round dial: touches outside a circle of
    radius 120 around the display centre act as the encoder (upper half)
    or as the three buttons (left, middle, right), and the push buttons
    are read from the button library's pressed and released queries. */
module SysWindows {
  import opened CArith
  import opened Effects

  const Radius := 120

  /** `outside_of_circle`: the point relative to the display centre, and
      whether it lies strictly outside the circle. */
  function OutsideOfCircle(width: nat, height: nat, x: int, y: int): (r: (bool, int, int))
    ensures r.1 == x - width / 2 && r.2 == y - height / 2
    ensures r.0 <==> r.1 * r.1 + r.2 * r.2 > Radius * Radius
  {
    var dx := x - width / 2;
    var dy := y - height / 2;
    (dx * dx + dy * dy > Radius * Radius, dx, dy)
  }

  /** Points within 84 of the centre along both axes are inside the circle,
      points more than 120 away along either axis are outside. */
  lemma CircleBounds(dx: int, dy: int)
    ensures Abs(dx) <= 84 && Abs(dy) <= 84 ==> dx * dx + dy * dy <= Radius * Radius
    ensures Abs(dx) > Radius || Abs(dy) > Radius ==> dx * dx + dy * dy > Radius * Radius
  {
    SquareMono(Abs(dx), 84);
    SquareMono(Abs(dy), 84);
    SquareMono(Radius + 1, Abs(dx));
    SquareMono(Radius + 1, Abs(dy));
    assert Abs(dx) * Abs(dx) == dx * dx;
    assert Abs(dy) * Abs(dy) == dy * dy;
  }

  lemma SquareMono(a: nat, b: nat)
    ensures a <= b ==> a * a <= b * b
  {
    if a <= b {
      MulLeR(a, b, a);
      MulLeR(a, b, b);
    }
  }

  /** The delta's size from the tangent `|dy * 100 / dx|`: steeper touches
      move the encoder by less. */
  function Magnitude(dx: int, dy: int): (m: int)
    requires dx != 0
    ensures 1 <= m <= 4
  {
    var t := Abs(TDiv(dy * 100, dx));
    if t > 172 then 1 else if t > 100 then 2 else if t > 58 then 3 else 4
  }

  /** `screen_encoder`: None inside the circle or in the lower half (the
      relative `y` not negative); otherwise the delta, whose size is
      `Magnitude` and whose sign is that of the relative `x`. The source
      divides by the relative `x`, so a touch straight above the centre
      and outside the circle is excluded. */
  function ScreenEncoder(width: nat, height: nat, x: int, y: int): (r: Option<int>)
    requires var c := OutsideOfCircle(width, height, x, y); !(c.0 && c.2 < 0 && c.1 == 0)
    ensures var c := OutsideOfCircle(width, height, x, y);
            r.Some? <==> c.0 && c.2 < 0
    ensures var c := OutsideOfCircle(width, height, x, y);
            r.Some? ==> Abs(r.value) == Magnitude(c.1, c.2) && (r.value < 0 <==> c.1 < 0)
  {
    var c := OutsideOfCircle(width, height, x, y);
    if !c.0 then None
    else if c.2 >= 0 then None
    else
      var m := Magnitude(c.1, c.2);
      Some(if c.1 < 0 then -m else m)
  }

  /** On the 240×240 display every on-screen touch avoids the division by
      zero: straight above the centre the screen ends inside the circle. */
  lemma OnScreenEncoderDefined(x: int, y: int)
    requires 0 <= x < 240 && 0 <= y < 240
    ensures var c := OutsideOfCircle(240, 240, x, y); !(c.0 && c.2 < 0 && c.1 == 0)
  {
    var dy := y - 120;
    if x == 120 && dy < 0 {
      SquareMono(Abs(dy), Radius);
      assert Abs(dy) * Abs(dy) == dy * dy;
    }
  }

  /** A truncated quotient exceeds `k` exactly when the dividend reaches
      `(k + 1)` divisors. */
  lemma DivExceeds(a: nat, b: nat, k: nat)
    requires b > 0
    ensures a / b > k <==> a >= (k + 1) * b
  {
    EuclidNat(a, b);
    var q := a / b;
    if q > k {
      MulLeR(k + 1, q, b);
    } else {
      MulLeR(q + 1, k + 1, b);
      MulSucc(q, b);
    }
  }

  /** `Magnitude` without division: the sector boundaries are the lines
      whose slopes are 1.73, 1.01 and 0.59. */
  function SectorByCrossMultiplication(dx: int, dy: int): int
  {
    var ay, ax := 100 * Abs(dy), Abs(dx);
    if ay >= 173 * ax then 1 else if ay >= 101 * ax then 2 else if ay >= 59 * ax then 3 else 4
  }

  lemma MagnitudeBySectors(dx: int, dy: int)
    requires dx != 0
    ensures Magnitude(dx, dy) == SectorByCrossMultiplication(dx, dy)
  {
    assert Abs(TDiv(dy * 100, dx)) == Abs(dy * 100) / Abs(dx);
    assert Abs(dy * 100) == 100 * Abs(dy);
    DivExceeds(100 * Abs(dy), Abs(dx), 172);
    DivExceeds(100 * Abs(dy), Abs(dx), 100);
    DivExceeds(100 * Abs(dy), Abs(dx), 58);
  }

  /** Mirroring a touch across the vertical axis keeps the delta's size;
      its sign follows the relative `x`, so the delta is negated. */
  lemma EncoderMirror(dx: int, dy: int)
    requires dx != 0
    ensures Magnitude(-dx, dy) == Magnitude(dx, dy)
  {
    MagnitudeBySectors(dx, dy);
    MagnitudeBySectors(-dx, dy);
  }

  /** The button zone of a touch outside the circle, by its relative `x`. */
  function Zone(dx: int): (b: int)
    ensures b == 0 <==> dx <= -90
    ensures b == 2 <==> dx >= 90
    ensures b == 1 <==> -90 < dx < 90
  {
    if dx <= -90 then 0 else if dx >= 90 then 2 else 1
  }

  /** The zones mirror each other across the vertical axis. */
  lemma ZoneMirror(dx: int)
    ensures Zone(-dx) == 2 - Zone(dx)
  {
  }

  /** `screen_button_touched`: None inside the circle; otherwise the zone
      of the touch, whether pressed or released (no debounce here). */
  function ScreenButtonTouched(width: nat, height: nat, x: int, y: int): (r: Option<int>)
    ensures var c := OutsideOfCircle(width, height, x, y);
            (r.Some? <==> c.0) && (r.Some? ==> r.value == Zone(c.1))
  {
    var c := OutsideOfCircle(width, height, x, y);
    if !c.0 then None else Some(Zone(c.1))
  }

  /** What the button library reports for each push button this tick. */
  datatype ButtonQuery = ButtonQuery(wasPressed: bool, wasReleased: bool)

  /** `switch_button_touched`: at most one event, the first of red press,
      red release, dial press, dial release, green press, green release. */
  function SwitchButtonTouched(red: ButtonQuery, dial: ButtonQuery, green: ButtonQuery): (r: Option<(bool, int)>)
    ensures r.None? <==> !red.wasPressed && !red.wasReleased && !dial.wasPressed
                         && !dial.wasReleased && !green.wasPressed && !green.wasReleased
    ensures r == Some((true, 0)) <==> red.wasPressed
    ensures r == Some((false, 0)) <==> !red.wasPressed && red.wasReleased
    ensures r == Some((true, 1)) <==> !red.wasPressed && !red.wasReleased && dial.wasPressed
    ensures r == Some((false, 1)) <==> !red.wasPressed && !red.wasReleased && !dial.wasPressed && dial.wasReleased
    ensures r == Some((true, 2))
            <==> !red.wasPressed && !red.wasReleased && !dial.wasPressed && !dial.wasReleased && green.wasPressed
    ensures r == Some((false, 2))
            <==> !red.wasPressed && !red.wasReleased && !dial.wasPressed && !dial.wasReleased
                 && !green.wasPressed && green.wasReleased
  {
    if red.wasPressed then Some((true, 0))
    else if red.wasReleased then Some((false, 0))
    else if dial.wasPressed then Some((true, 1))
    else if dial.wasReleased then Some((false, 1))
    else if green.wasPressed then Some((true, 2))
    else if green.wasReleased then Some((false, 2))
    else None
  }
}
