/** The seven-inch desktop build: an 800×480 display with a column of
    three 160×160 touch buttons at its right edge, a release debounce of
    100 ms, no encoder and no push buttons, and the vertical menu as its
    auxiliary touch area. */
module Win7Inch {
  import opened CArith
  import opened Effects
  import opened Points
  import Areas
  import VMenus

  const ButtonCount := 3
  const ButtonW := 160
  const ButtonH := 160
  const ButtonX := 800 - ButtonW
  const DebounceMs := 100

  /** `button_areas`: the three buttons stacked from the top at `ButtonX`. */
  const ButtonAreas: seq<Areas.Area> := [
    Areas.Area(ButtonX, 0 * ButtonH, ButtonW, ButtonH),
    Areas.Area(ButtonX, 1 * ButtonH, ButtonW, ButtonH),
    Areas.Area(ButtonX, 2 * ButtonH, ButtonW, ButtonH)]

  /** `hit`: whether button `n`'s area holds the point. */
  predicate Hit(n: nat, x: int, y: int)
    requires n < ButtonCount
  {
    Areas.IsInside(ButtonAreas[n], Point(x, y), Point(0, 0)).0
  }

  /** The first button at or after `from` whose area holds the point. */
  function FirstHit(x: int, y: int, from: nat): (r: Option<nat>)
    requires from <= ButtonCount
    ensures r.Some? ==> from <= r.value < ButtonCount && Hit(r.value, x, y)
    ensures r.None? ==> forall j :: from <= j < ButtonCount ==> !Hit(j, x, y)
    decreases ButtonCount - from
  {
    if from == ButtonCount then None
    else if Hit(from, x, y) then Some(from)
    else FirstHit(x, y, from + 1)
  }

  /** A button is hit exactly in the right-hand column of the display, and
      the one hit is the row the point's height falls in. */
  lemma ButtonColumn(x: int, y: int)
    ensures FirstHit(x, y, 0).Some? <==> ButtonX <= x < 800 && 0 <= y < ButtonCount * ButtonH
    ensures FirstHit(x, y, 0).Some? ==> FirstHit(x, y, 0).value == y / ButtonH
  {
    if ButtonX <= x < 800 && 0 <= y < ButtonCount * ButtonH {
      var k := y / ButtonH;
      assert Hit(k, x, y);
      forall j | 0 <= j < k
        ensures !Hit(j, x, y)
      {
      }
    }
  }

  /** The buttons do not overlap: a point is in at most one of them. */
  lemma ButtonsDisjoint(i: nat, j: nat, x: int, y: int)
    requires i < ButtonCount && j < ButtonCount
    requires Hit(i, x, y) && Hit(j, x, y)
    ensures i == j
  {
  }

  /** `screen_encoder`: this build has no encoder on the screen. */
  function ScreenEncoder(x: int, y: int): Option<int>
  {
    None
  }

  /** `switch_button_touched`: this build has no push buttons. */
  function SwitchButtonTouched(): Option<(bool, int)>
  {
    None
  }

  /** Whatever the touch, neither stub reports an event. */
  lemma NoEncoderNorSwitches(x: int, y: int)
    ensures ScreenEncoder(x, y).None? && SwitchButtonTouched().None?
  {
  }

  /** `update_events` as written tests `(ms - touch_timeout) < 0` with `ms`
      the `unsigned long` that `lgfx::millis()` returns, so the difference
      is unsigned and the test never holds (`PendingUnsigned`). A button
      released at 1000 ms arms the debounce until 1100 ms, yet at 1050 ms
      the touch screen is updated, where the signed test that
      `UpdateEvents` uses holds it off. */
  lemma DebounceAsWrittenMisses()
    ensures !PendingUnsigned(1050, 1000 + DebounceMs)
    ensures Pending(1050, 1000 + DebounceMs)
  {
  }

  /** The touch debounce of this build. */
  class Touch {
    var touchDebounce: bool
    var touchTimeout: int

    constructor ()
      ensures !touchDebounce && touchTimeout == 0
    {
      touchDebounce := false;
      touchTimeout := 0;
    }

    /** `screen_button_touched`: the first button hit, if any; a release
      on a button starts the debounce from `now`, a press does not. */
    method ScreenButtonTouched(pressed: bool, x: int, y: int, now: int) returns (hit: bool, button: Option<nat>)
      modifies this`touchDebounce, this`touchTimeout
      ensures button == FirstHit(x, y, 0) && (hit <==> button.Some?)
      ensures hit && !pressed ==> touchDebounce && touchTimeout == now + DebounceMs
      ensures !(hit && !pressed) ==> touchDebounce == old(touchDebounce) && touchTimeout == old(touchTimeout)
    {
      var i: nat := 0;
      while i < ButtonCount
        invariant i <= ButtonCount
        invariant FirstHit(x, y, 0) == FirstHit(x, y, i)
      {
        if Hit(i, x, y) {
          if !pressed {
            touchDebounce := true;
            touchTimeout := now + DebounceMs;
          }
          return true, Some(i);
        }
        i := i + 1;
      }
      return false, None;
    }

    /** `update_events`: while the debounce runs and its time has not come
      the touch screen is not updated; after that the debounce is over.
      The result says whether the touch screen was updated. The time test
      is taken as a signed difference (see `DebounceAsWrittenMisses`). */
    method UpdateEvents(ms: int, touchEnabled: bool) returns (updated: bool)
      modifies this`touchDebounce
      ensures updated <==> touchEnabled && !(old(touchDebounce) && ms < touchTimeout)
      ensures touchDebounce == (old(touchDebounce) && !(touchEnabled && ms >= touchTimeout))
    {
      if touchEnabled {
        if touchDebounce {
          if Pending(ms, touchTimeout) {
            return false;
          }
          touchDebounce := false;
        }
        return true;
      }
      return false;
    }
  }

  /** `auxiliary_touch`: the vertical menu's own hit test. */
  method AuxiliaryTouch(vmenu: VMenus.VMenu, x: int, y: int) returns (touched: bool)
    requires vmenu.Valid() && |vmenu.items| > 0 && vmenu.area.h >= |vmenu.items|
    requires vmenu.area.h % |vmenu.items| == 0 && vmenu.itemHeight == vmenu.area.h / |vmenu.items|
    modifies vmenu`invoked
    ensures touched <==> Areas.IsInside(vmenu.area, Point(x, y), Point(0, 0)).0
    ensures !touched ==> vmenu.invoked == old(vmenu.invoked)
    ensures touched ==> vmenu.invoked == old(vmenu.invoked) + [VMenus.TouchedItem(y - vmenu.area.y, vmenu.itemHeight)]
  {
    touched := vmenu.IsTouched(x, y);
  }
}
