/** The 2432 board: a 240×240 sprite with a stripe of three 80×80
    touch buttons beside it, eight layouts placing the stripe, push
    buttons read on active-low pins, a lockout pin, and a debounce that
    ignores the touch screen for 100 ms after a button is released. */
module Hw2432 {
  import opened CArith
  import opened Effects
  import opened Points
  import Areas

  const ButtonCount := 3
  const ButtonW := 80
  const ButtonH := 80
  const SpriteWH := 240
  const DebounceMs := 100

  /** `in_rect`: the rectangle at `xy` of size `wh`, with its left and top
      edges in it and its right and bottom edges not. */
  predicate InRect(test: Point, xy: Point, wh: Point)
  {
    test.x >= xy.x && test.x < xy.x + wh.x && test.y >= xy.y && test.y < xy.y + wh.y
  }

  /** Moving the point and the rectangle together changes nothing. */
  lemma InRectShift(test: Point, xy: Point, wh: Point)
    ensures InRect(test, xy, wh) <==> InRect(Sub(test, xy), Point(0, 0), wh)
  {
  }

  /** `in_rect` and `Area::is_inside` test the same rectangle. */
  lemma InRectIsInside(test: Point, a: Areas.Area, local: Point)
    ensures InRect(test, Point(a.x, a.y), Point(a.w, a.h)) <==> Areas.IsInside(a, test, local).0
  {
  }

  /** A layout: the display rotation, where the sprite goes, and where the
      first button goes. */
  datatype Layout = Layout(rotation: nat, spritePosition: Point, buttonsXY: Point)

  /** Odd rotations stand the stripe on end. */
  predicate Vertical(l: Layout)
  {
    l.rotation % 2 == 1
  }

  /** The size of the button stripe. */
  function ButtonsWH(l: Layout): (wh: Point)
    ensures Vertical(l) ==> wh == Point(ButtonW, SpriteWH)
    ensures !Vertical(l) ==> wh == Point(SpriteWH, ButtonH)
  {
    if l.rotation % 2 == 1 then Point(ButtonW, SpriteWH) else Point(SpriteWH, ButtonH)
  }

  /** `Layout::buttonOffset`: button `n` within the stripe. */
  function ButtonOffset(l: Layout, n: int): (p: Point)
    ensures Vertical(l) ==> p == Point(0, n * ButtonH)
    ensures !Vertical(l) ==> p == Point(n * ButtonW, 0)
  {
    if l.rotation % 2 == 1 then Point(0, n * ButtonH) else Point(n * ButtonW, 0)
  }

  /** The eight layouts: buttons below, above, right, left, in the four
      rotations. */
  const Layouts: seq<Layout> := [
    Layout(0, Point(0, 0), Point(0, SpriteWH)),
    Layout(0, Point(0, ButtonH), Point(0, 0)),
    Layout(1, Point(0, 0), Point(SpriteWH, 0)),
    Layout(1, Point(ButtonW, 0), Point(0, 0)),
    Layout(2, Point(0, 0), Point(0, SpriteWH)),
    Layout(2, Point(0, ButtonH), Point(0, 0)),
    Layout(3, Point(ButtonW, 0), Point(0, 0)),
    Layout(3, Point(0, 0), Point(SpriteWH, 0))]

  /** The first button whose cell holds the stripe-relative point `xy`. */
  function CellOf(l: Layout, xy: Point, from: nat): (r: Option<int>)
    requires from <= ButtonCount
    ensures r.Some? ==> from <= r.value < ButtonCount && InRect(xy, ButtonOffset(l, r.value), Point(ButtonW, ButtonH))
    ensures r.Some? ==> forall j :: from <= j < r.value ==> !InRect(xy, ButtonOffset(l, j), Point(ButtonW, ButtonH))
    ensures r.None? ==> forall j :: from <= j < ButtonCount ==> !InRect(xy, ButtonOffset(l, j), Point(ButtonW, ButtonH))
    decreases ButtonCount - from
  {
    if from == ButtonCount then None
    else if InRect(xy, ButtonOffset(l, from), Point(ButtonW, ButtonH)) then Some(from)
    else CellOf(l, xy, from + 1)
  }

  /** The three cells cover the stripe: every point of the stripe is in a
      cell, the one its position along the stripe divided by 80 names. */
  lemma CellsCoverStripe(l: Layout, xy: Point)
    requires InRect(xy, Point(0, 0), ButtonsWH(l))
    ensures CellOf(l, xy, 0) == Some(if Vertical(l) then xy.y / ButtonH else xy.x / ButtonW)
  {
    var k := if Vertical(l) then xy.y / ButtonH else xy.x / ButtonW;
    assert 0 <= k < ButtonCount;
    assert InRect(xy, ButtonOffset(l, k), Point(ButtonW, ButtonH));
    forall j | 0 <= j < k
      ensures !InRect(xy, ButtonOffset(l, j), Point(ButtonW, ButtonH))
    {
    }
  }

  /** The push buttons' pins in the order they are checked, -1 for a
      pin the board does not have. */
  datatype Pins = Pins(red: int, dial: int, green: int)

  /** The levels the pins read now. */
  datatype Levels = Levels(red: bool, dial: bool, green: bool)

  /** The last level seen on each pin, -1 before the first read. */
  datatype Seen = Seen(red: int, dial: int, green: int)

  function Level(b: bool): int { if b then 1 else 0 }

  /** `switch_button_touched`: the first present pin, in the order red,
      dial, green, whose level is not the one last seen, is reported as
      pressed when low, and only its last level is updated. */
  function SwitchStep(pins: Pins, levels: Levels, seen: Seen): (r: (Option<(bool, int)>, Seen))
    ensures r.0.Some? ==> r.0.value.1 in {0, 1, 2}
    ensures r.0 == Some((!levels.red, 0)) <==> pins.red != -1 && Level(levels.red) != seen.red
    ensures r.0.None? ==> r.1 == seen
    ensures r.0 == Some((!levels.red, 0)) ==> r.1 == seen.(red := Level(levels.red))
    ensures r.0.Some? && r.0.value.1 == 1 ==> r.1 == seen.(dial := Level(levels.dial)) && !r.0.value.0 == levels.dial
    ensures r.0.Some? && r.0.value.1 == 2 ==> r.1 == seen.(green := Level(levels.green)) && !r.0.value.0 == levels.green
  {
    if pins.red != -1 && Level(levels.red) != seen.red then (Some((!levels.red, 0)), seen.(red := Level(levels.red)))
    else if pins.dial != -1 && Level(levels.dial) != seen.dial then (Some((!levels.dial, 1)), seen.(dial := Level(levels.dial)))
    else if pins.green != -1 && Level(levels.green) != seen.green then (Some((!levels.green, 2)), seen.(green := Level(levels.green)))
    else (None, seen)
  }

  /** With every last level unknown, the first calls report each present
      pin once, in order, and then nothing while the levels hold. */
  lemma SwitchStartup(levels: Levels)
    ensures var pins := Pins(25, 26, 27);
            var s0 := Seen(-1, -1, -1);
            var r1 := SwitchStep(pins, levels, s0);
            var r2 := SwitchStep(pins, levels, r1.1);
            var r3 := SwitchStep(pins, levels, r2.1);
            var r4 := SwitchStep(pins, levels, r3.1);
            r1.0 == Some((!levels.red, 0)) && r2.0 == Some((!levels.dial, 1))
            && r3.0 == Some((!levels.green, 2)) && r4.0.None?
  {
  }

  /** A pin the board does not have is never reported. */
  lemma AbsentPinSilent(pins: Pins, levels: Levels, seen: Seen)
    ensures var r := SwitchStep(pins, levels, seen).0;
            r.Some? ==> (r.value.1 == 0 ==> pins.red != -1)
                        && (r.value.1 == 1 ==> pins.dial != -1)
                        && (r.value.1 == 2 ==> pins.green != -1)
  {
  }

  /** `update_events` as written tests `(ms - touch_timeout) < 0` with `ms`
      the `unsigned long` that `lgfx::millis()` returns, so the difference
      is unsigned and the test never holds (`PendingUnsigned`). A button
      released at 1000 ms arms the debounce until 1100 ms, yet at 1050 ms
      the touch screen is updated, where the signed test that
      `UpdateEvents` uses holds it off. */
  lemma DebounceAsWrittenMisses()
    ensures !PendingUnsigned(1050, 1000 + DebounceMs)
    ensures Pending(1050, 1000 + DebounceMs)
  {
  }

  /** The board's input state: the layout in use, the touch debounce, the
      last levels of the push buttons and of the lockout pin, the layout
      saved as a preference, and how often the buttons were redrawn. */
  class Board {
    var layoutNum: int
    var touchDebounce: bool
    var touchTimeout: int
    var seen: Seen
    var lastLocked: int
    var savedLayout: int
    var redraws: nat

    predicate Valid()
      reads this
    {
      0 <= layoutNum < |Layouts|
    }

    constructor ()
      ensures Valid() && layoutNum == 0 && !touchDebounce && touchTimeout == 0
      ensures seen == Seen(-1, -1, -1) && lastLocked == -1 && redraws == 0
    {
      layoutNum := 0;
      touchDebounce := false;
      touchTimeout := 0;
      seen := Seen(-1, -1, -1);
      lastLocked := -1;
      savedLayout := 0;
      redraws := 0;
    }

    function CurrentLayout(): Layout
      reads this
      requires Valid()
    {
      Layouts[layoutNum]
    }

    /** `next_layout`: the layout number moves by `delta` around the eight
      layouts; the new one is saved and the buttons redrawn. */
    method NextLayout(delta: int)
      modifies this`layoutNum, this`savedLayout, this`redraws
      ensures Valid()
      ensures layoutNum == (old(layoutNum) + delta) % |Layouts|
      ensures savedLayout == layoutNum && redraws == old(redraws) + 1
    {
      var n := |Layouts|;
      layoutNum := layoutNum + delta;
      ghost var x := layoutNum;
      ghost var q := 0;
      while layoutNum >= n
        invariant layoutNum == x - q * n && q >= 0 && redraws == old(redraws)
        decreases layoutNum
      {
        layoutNum := layoutNum - n;
        q := q + 1;
      }
      while layoutNum < 0
        invariant layoutNum == x - q * n && layoutNum < n && redraws == old(redraws)
        decreases -layoutNum
      {
        layoutNum := layoutNum + n;
        q := q - 1;
      }
      assert x == q * n + layoutNum;
      assert x % n == layoutNum;
      savedLayout := layoutNum;
      redraws := redraws + 1;
    }

    /** `screen_button_touched`: false outside the button stripe; inside,
      the index of the cell touched. A release, not a press, starts the
      100 ms debounce from `now`. */
    method ScreenButtonTouched(pressed: bool, x: int, y: int, now: int) returns (hit: bool, button: Option<int>)
      requires Valid()
      modifies this`touchDebounce, this`touchTimeout
      ensures var l := CurrentLayout();
              hit <==> InRect(Point(x, y), l.buttonsXY, ButtonsWH(l))
      ensures hit ==> button == CellOf(CurrentLayout(), Sub(Point(x, y), CurrentLayout().buttonsXY), 0)
      ensures !hit ==> button.None?
      ensures hit && !pressed ==> touchDebounce && touchTimeout == now + DebounceMs
      ensures !(hit && !pressed) ==> touchDebounce == old(touchDebounce) && touchTimeout == old(touchTimeout)
    {
      var l := Layouts[layoutNum];
      var xy := Point(x, y);
      if !InRect(xy, l.buttonsXY, ButtonsWH(l)) {
        return false, None;
      }
      xy := Sub(xy, l.buttonsXY);
      InRectShift(Point(x, y), l.buttonsXY, ButtonsWH(l));
      CellsCoverStripe(l, xy);
      var i := 0;
      while i < ButtonCount
        invariant 0 <= i <= ButtonCount
        invariant CellOf(l, xy, 0) == CellOf(l, xy, i)
      {
        if InRect(xy, ButtonOffset(l, i), Point(ButtonW, ButtonH)) {
          if !pressed {
            touchDebounce := true;
            touchTimeout := now + DebounceMs;
          }
          return true, Some(i);
        }
        i := i + 1;
      }
      assert false;
    }

    /** `update_events`: while the debounce runs and its time has not come,
      the touch screen is not updated; after that the debounce is over.
      The result says whether the touch screen was updated. The time test
      is taken as a signed difference (see `DebounceAsWrittenMisses`). */
    method UpdateEvents(ms: int, touchEnabled: bool) returns (updated: bool)
      modifies this`touchDebounce
      ensures updated <==> touchEnabled && !(old(touchDebounce) && ms < touchTimeout)
      ensures touchDebounce == (old(touchDebounce) && !(touchEnabled && ms >= touchTimeout))
    {
      if touchEnabled {
        if touchDebounce {
          if Pending(ms, touchTimeout) {
            return false;
          }
          touchDebounce := false;
        }
        return true;
      }
      return false;
    }

    /** `switch_button_touched` on the board's pins. */
    method SwitchButtonTouched(pins: Pins, levels: Levels) returns (event: Option<(bool, int)>)
      modifies this`seen
      ensures (event, seen) == SwitchStep(pins, levels, old(seen))
    {
      if pins.red != -1 && Level(levels.red) != seen.red {
        seen := seen.(red := Level(levels.red));
        return Some((!levels.red, 0));
      }
      if pins.dial != -1 && Level(levels.dial) != seen.dial {
        seen := seen.(dial := Level(levels.dial));
        return Some((!levels.dial, 1));
      }
      if pins.green != -1 && Level(levels.green) != seen.green {
        seen := seen.(green := Level(levels.green));
        return Some((!levels.green, 2));
      }
      return None;
    }

    /** `ui_locked`: the lockout pin's level, with the buttons redrawn only
      when it changed. */
    method UiLocked(level: bool) returns (locked: bool)
      modifies this`lastLocked, this`redraws
      ensures locked == level && lastLocked == Level(level)
      ensures redraws == old(redraws) + (if Level(level) != old(lastLocked) then 1 else 0)
    {
      locked := level;
      if Level(locked) != lastLocked {
        lastLocked := Level(locked);
        redraws := redraws + 1;
      }
    }
  }
}
