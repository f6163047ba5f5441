/** Points and the square display's two coordinate systems: screen
    coordinates (origin top left, y down) and centred coordinates
    (origin at the centre of the short side, y up). */
module Points {

  datatype Point = Point(x: int, y: int)

  function Add(p: Point, q: Point): Point { Point(p.x + q.x, p.y + q.y) }

  function Sub(p: Point, q: Point): Point { Point(p.x - q.x, p.y - q.y) }

  /** `display_short_side() / 2`; the side is never negative, so C++'s
      division and Dafny's agree. */
  function Center(shortSide: nat): nat { shortSide / 2 }

  /** `Point::to_display`: centred to screen coordinates. */
  function ToDisplay(p: Point, shortSide: nat): (q: Point)
    ensures q.x - Center(shortSide) == p.x
    ensures Center(shortSide) - q.y == p.y
  {
    var c := Center(shortSide);
    Point(c + p.x, c - p.y)
  }

  /** `Point::from_display`: screen to centred coordinates, the inverse
      of `ToDisplay`. */
  function FromDisplay(q: Point, shortSide: nat): (p: Point)
    ensures ToDisplay(p, shortSide) == q
  {
    var c := Center(shortSide);
    Point(q.x - c, c - q.y)
  }

  lemma FromToDisplay(p: Point, shortSide: nat)
    ensures FromDisplay(ToDisplay(p, shortSide), shortSide) == p
  {
  }
}
