/** A rectangular drawing area placed on the display: its coordinate
    transforms, point containment, the centre-to-corner conversion of
    `drawRect`, and the text fitting of `auto_text`. */
module Areas {
  import opened CArith
  import opened Points

  /** `_x`, `_y` place the area on the display; `_w`, `_h` are its size. */
  datatype Area = Area(x: int, y: int, w: int, h: int)

  /** Font numbers: TINY = 0, SMALL = 1, MEDIUM = 2, LARGE = 3, MEDIUM_MONO = 4. */
  type FontNum = f: int | 0 <= f <= 4

  const TINY: FontNum := 0
  const SMALL: FontNum := 1
  const MEDIUM: FontNum := 2
  const LARGE: FontNum := 3
  const MEDIUM_MONO: FontNum := 4

  /** `Area::to_display`: area-local to display coordinates. */
  function ToDisplay(a: Area, p: Point): (q: Point)
    ensures Sub(q, p) == Point(a.x, a.y)
  {
    Point(a.x + p.x, a.y + p.y)
  }

  /** `Area::centered`: a point relative to the area's centre, y up, to
      area-local coordinates, y down. */
  function Centered(a: Area, p: Point): (q: Point)
    ensures q.x - p.x == TDiv(a.w, 2) && q.y + p.y == TDiv(a.h, 2)
  {
    Point(TDiv(a.w, 2) + p.x, TDiv(a.h, 2) - p.y)
  }

  /** `Area::from_display` as the source writes it: it subtracts `_y`
      where undoing `to_display` would add it back. */
  function FromDisplayAsWritten(a: Area, p: Point): Point
  {
    Point(p.x - TDiv(a.w, 2) - a.x, TDiv(a.h, 2) - p.y - a.y)
  }

  /** What `from_display` evidently intends: display coordinates back to
      centred ones. */
  function FromDisplay(a: Area, p: Point): (q: Point)
    ensures ToDisplay(a, Centered(a, q)) == p
  {
    Point(p.x - TDiv(a.w, 2) - a.x, TDiv(a.h, 2) - p.y + a.y)
  }

  /** The written `from_display` recovers x always, and y exactly when the
      area sits at the top of the display. */
  lemma {:induction false} FromDisplayAsWrittenRoundTrip(a: Area, p: Point)
    ensures FromDisplayAsWritten(a, ToDisplay(a, Centered(a, p))).x == p.x
    ensures FromDisplayAsWritten(a, ToDisplay(a, Centered(a, p))).y == p.y <==> a.y == 0
  {
    var q := ToDisplay(a, Centered(a, p));
    assert q.y == a.y + TDiv(a.h, 2) - p.y;
    assert FromDisplayAsWritten(a, q).y == p.y - 2 * a.y;
  }

  /** A concrete area where the written `from_display` misses: the second
      area row of the seven-inch layout. */
  lemma FromDisplayAsWrittenMisses()
    ensures FromDisplayAsWritten(Area(80, 240, 240, 240), ToDisplay(Area(80, 240, 240, 240), Centered(Area(80, 240, 240, 240), Point(0, 0)))) == Point(0, -480)
  {
  }

  /** `Area::is_inside`: whether a display point lies in the area (left
      and top edges included, right and bottom excluded), and the local
      point, which is written only on success. */
  function IsInside(a: Area, screen: Point, local: Point): (r: (bool, Point))
    ensures r.0 <==> a.x <= screen.x < a.x + a.w && a.y <= screen.y < a.y + a.h
    ensures r.0 ==> r.1 == Sub(screen, Point(a.x, a.y))
    ensures !r.0 ==> r.1 == local
  {
    if screen.x < a.x || screen.y < a.y then (false, local)
    else
      var off := Point(screen.x - a.x, screen.y - a.y);
      if off.x >= a.w || off.y >= a.h then (false, local) else (true, off)
  }

  /** The top-left corner `drawRect(Point xy, w, h, ...)` draws at: the
      centred point `xy` moved by `(w/2, -h/2)` before centring, i.e. half
      the size left of and above the centre's area-local position. */
  function DrawRectCorner(a: Area, center: Point, width: int, height: int): (corner: Point)
    ensures corner.x == Centered(a, center).x - TDiv(width, 2)
    ensures corner.y == Centered(a, center).y - TDiv(height, 2)
  {
    var offset := Point(TDiv(width, 2), -TDiv(height, 2));
    Centered(a, Sub(center, offset))
  }

  /** `txt` with `k` characters taken off its end, or off its start. */
  function Trimmed(txt: string, k: nat, trimleft: bool): (s: string)
    requires k <= |txt|
    ensures |s| == |txt| - k
  {
    if trimleft then txt[k..] else txt[..|txt| - k]
  }

  /** The ellipsis `auto_text` puts where it cut. */
  function Dressed(s: string, trimleft: bool): string
  {
    if trimleft then "... " + s else s + " ..."
  }

  predicate TrimFits(txt: string, k: nat, trimleft: bool, w: int, plainWidth: string -> int, dotsWidth: int)
    requires k <= |txt|
  {
    plainWidth(Trimmed(txt, k, trimleft)) + dotsWidth <= w
  }

  /** `Area::auto_text` without the drawing: the text and the font it is
      drawn in. `width(s, f)` is the sprite's width of `s` in font `f`;
      `plainWidth` measures in the sprite's current font, as the source's
      one-argument `textWidth` calls do. */
  method AutoText(txt: string, w: int, fontnum: FontNum, tryfonts: bool, trimleft: bool,
                  width: (string, FontNum) -> int, plainWidth: string -> int)
    returns (s: string, font: FontNum)
    // fonts are tried from the requested one down, and only the requested one without tryfonts
    ensures font <= fontnum && (!tryfonts ==> font == fontnum)
    ensures forall f: FontNum :: font < f <= fontnum ==> width(txt, f) > w
    // the text is unchanged iff it fits in the font reached
    ensures width(txt, font) <= w ==> s == txt
    ensures width(txt, font) > w ==> font == TINY || !tryfonts
    // when nothing fits: the first cut that fits with its ellipsis, else four characters
    ensures width(txt, font) > w ==>
      var dots := plainWidth(" ...");
      if exists k :: 1 <= k <= |txt| - 4 && TrimFits(txt, k, trimleft, w, plainWidth, dots) then
        exists k :: 1 <= k <= |txt| - 4 && TrimFits(txt, k, trimleft, w, plainWidth, dots)
          && (forall j :: 1 <= j < k ==> !TrimFits(txt, j, trimleft, w, plainWidth, dots))
          && s == Dressed(Trimmed(txt, k, trimleft), trimleft)
      else
        s == if |txt| > 4 then Trimmed(txt, |txt| - 4, trimleft) else txt
    ensures |s| >= |txt| || |s| >= 4
  {
    var doesNotFit := true;
    font := fontnum;
    while true
      invariant font <= fontnum && (!tryfonts ==> font == fontnum)
      invariant forall f: FontNum :: font < f <= fontnum ==> width(txt, f) > w
      invariant !doesNotFit ==> width(txt, font) <= w
      decreases font, doesNotFit
    {
      if width(txt, font) <= w {
        doesNotFit := false;
        break;
      }
      if font != TINY && tryfonts {
        font := font - 1;
      } else {
        break;
      }
    }

    s := txt;
    if doesNotFit {
      var dots := plainWidth(" ...");
      ghost var k: nat := 0;
      while |s| > 4
        invariant k <= |txt| && s == Trimmed(txt, k, trimleft)
        invariant forall j :: 1 <= j <= k ==> !TrimFits(txt, j, trimleft, w, plainWidth, dots)
        invariant k > 0 ==> |s| >= 4
        decreases |s|
      {
        s := if trimleft then s[1..] else s[..|s| - 1];
        k := k + 1;
        assert trimleft ==> s == txt[k..];
        assert !trimleft ==> s == txt[..|txt| - k];
        if plainWidth(s) + dots <= w {
          assert TrimFits(txt, k, trimleft, w, plainWidth, dots);
          s := Dressed(s, trimleft);
          return;
        }
      }
      assert k == if |txt| > 4 then |txt| - 4 else 0;
    }
  }
}
