/** The macro menu: a `Menu` of macros read from the controller, with a
    clamped selection, the macro's path shown under its name, and a dot
    on an arc showing where the selection is in the list. */
module MacroMenus {
  import opened CArith
  import opened Effects
  import Menus

  /** A macro: the name shown and the file or command it stands for. */
  datatype MacroItem = MacroItem(name: string, filename: string)

  /** `MacroItem::invoke`: with the argument `"Run"` the macro's file is run
      on the controller; with anything else it is opened in the preview. */
  function Invoke(item: MacroItem, arg: Arg): (e: Effect)
    ensures arg == Str("Run") ==> e == Send(Line("$Localfs/Run=" + item.filename))
    ensures arg != Str("Run") ==> e == Push(FilePreviewSceneId, Str(item.filename))
  {
    if arg.Str? && arg.text == "Run" then Send(Line("$Localfs/Run=" + item.filename))
    else Push(FilePreviewSceneId, Str(item.filename))
  }

  /** The path `MacroItem::show` prints under the name: a leading
      `/localfs`, or failing that a leading `cmd:`, is removed. */
  function ShowExtra(filename: string): (extra: string)
    ensures "/localfs" <= filename ==> filename == "/localfs" + extra
    ensures !("/localfs" <= filename) && "cmd:" <= filename ==> filename == "cmd:" + extra
    ensures !("/localfs" <= filename) && !("cmd:" <= filename) ==> extra == filename
  {
    if "/localfs" <= filename then filename[|"/localfs"|..]
    else if "cmd:" <= filename then filename[|"cmd:"|..]
    else filename
  }

  /** Only one prefix is ever removed: what is shown is the file name
      without its first prefix, never more. */
  lemma ShowExtraSuffix(filename: string)
    ensures var e := ShowExtra(filename);
            |e| <= |filename| && filename[|filename| - |e|..] == e
            && (|e| == |filename| || |e| == |filename| - 8 || |e| == |filename| - 4)
  {
  }

  /** `x` moved into `[lo, hi]`: the two `if`s of `MacroMenu::rotate`. */
  function Clamp(x: int, lo: int, hi: int): (r: int)
    requires lo <= hi
    ensures lo <= r <= hi
    ensures lo <= x <= hi ==> r == x
    ensures x < lo ==> r == lo
    ensures x > hi ==> r == hi
  {
    if x < lo then lo else if x > hi then hi else x
  }

  /** The item indices `reDisplay` shows with their vertical offsets: the
      selection and up to two neighbours on each side, as far as the
      guards let them into `[0, n)`, in order from the top. */
  function ShownItems(sel: int, n: int): (shown: seq<(int, int)>)
    requires 0 <= sel < n
    ensures var lo, hi := if sel >= 2 then sel - 2 else 0, if sel + 2 <= n - 1 then sel + 2 else n - 1;
            |shown| == hi - lo + 1
            && forall k :: 0 <= k < |shown| ==> shown[k] == (lo + k, OffsetOf(lo + k - sel))
  {
    (if sel > 1 then [(sel - 2, 80)] else [])
    + (if sel > 0 then [(sel - 1, 45)] else [])
    + [(sel, 0)]
    + (if sel < n - 1 then [(sel + 1, -45)] else [])
    + (if sel < n - 2 then [(sel + 2, -80)] else [])
  }

  /** Every item `reDisplay` shows exists. */
  lemma ShownItemsInRange(sel: int, n: int, k: int)
    requires 0 <= sel < n && 0 <= k < |ShownItems(sel, n)|
    ensures 0 <= ShownItems(sel, n)[k].0 < n
  {
  }

  /** The vertical offset of the item `d` places after the selection. */
  function OffsetOf(d: int): int
  {
    if d == -2 then 80 else if d == -1 then 45 else if d == 0 then 0 else if d == 1 then -45 else -80
  }

  /** The angle of the selection dot in `menuBackground`: 50 degrees for
      the first item down to -50 for the last. */
  function DotAngle(sel: int, n: int): (theta: int)
    requires n > 1 && 0 <= sel < n
    ensures -50 <= theta <= 50
    ensures sel == 0 ==> theta == 50
    ensures sel == n - 1 ==> theta == -50
  {
    var dtheta := TDiv(100 * sel, n - 1);
    DotBounds(sel, n);
    50 - dtheta
  }

  lemma DotBounds(sel: int, n: int)
    requires n > 1 && 0 <= sel < n
    ensures 0 <= TDiv(100 * sel, n - 1) <= 100
    ensures sel == n - 1 ==> TDiv(100 * sel, n - 1) == 100
  {
    var m, x := n - 1, 100 * sel;
    assert TDiv(x, m) == x / m;
    DivBounded(x, m, 100);
    if sel == m {
      ModUnique(x, 100, 0, m);
    }
  }

  /** As the selection moves forward, the dot moves down the arc. */
  lemma DotAngleMonotone(a: int, b: int, n: int)
    requires n > 1 && 0 <= a <= b < n
    ensures DotAngle(b, n) <= DotAngle(a, n)
  {
    var m := n - 1;
    assert TDiv(100 * a, m) == (100 * a) / m;
    assert TDiv(100 * b, m) == (100 * b) / m;
    DivMono(100 * a, 100 * b, m);
  }

  /** `MacroMenu`: the items of the underlying `Menu`, whether the list is
      still being read, the last error reported, and the effects of its
      handlers in order. */
  class MacroMenu {
    var items: seq<MacroItem>
    var highlighted: seq<bool>
    var selected: int
    var reading: bool
    var errorString: string
    var log: seq<Effect>

    predicate Valid()
      reads this
    {
      |highlighted| == |items|
    }

    /** An empty macro menu that is waiting for its list. The source's
      initial selection is taken to be -1. */
    constructor ()
      ensures Valid() && items == [] && selected == -1 && reading && errorString == "" && log == []
    {
      items := [];
      highlighted := [];
      selected := -1;
      reading := true;
      errorString := "";
      log := [];
    }

    /** An item arriving from the controller's list of macros. */
    method AddItem(item: MacroItem)
      requires Valid()
      modifies this`items, this`highlighted
      ensures Valid() && items == old(items) + [item] && highlighted == old(highlighted) + [false]
    {
      items := items + [item];
      highlighted := highlighted + [false];
    }

    /** `refreshMacros` (also the red button): the list is emptied and
      asked for again. */
    method RefreshMacros()
      modifies this`items, this`highlighted, this`reading, this`log
      ensures Valid() && items == [] && reading
      ensures log == old(log) + [Send(RequestMacros)]
    {
      items := [];
      highlighted := [];
      reading := true;
      log := log + [Send(RequestMacros)];
    }

    /** `onFilesList`: the list is complete; the error is cleared and the
      first item, if any, selected and highlighted. */
    method OnFilesList()
      requires Valid()
      modifies this`errorString, this`reading, this`selected, this`highlighted, this`log
      ensures Valid() && errorString == "" && !reading
      ensures items != [] ==> selected == 0 && highlighted == old(highlighted)[0 := true]
      ensures items == [] ==> selected == old(selected) && highlighted == old(highlighted)
      ensures log == old(log) + [ReDisplay]
    {
      errorString := "";
      reading := false;
      if |items| > 0 {
        selected := 0;
        highlighted := highlighted[0 := true];
      }
      log := log + [ReDisplay];
    }

    /** `onError`: the message is kept for display and reading stops. */
    method OnError(err: string)
      modifies this`errorString, this`reading, this`log
      ensures errorString == err && !reading && log == old(log) + [ReDisplay]
    {
      errorString := err;
      reading := false;
      log := log + [ReDisplay];
    }

    /** `onEntry`: the list is asked for only when it is empty. */
    method OnEntry(arg: Arg)
      requires Valid()
      modifies this`items, this`highlighted, this`reading, this`log
      ensures Valid()
      ensures old(items) == [] ==> reading && log == old(log) + [Send(RequestMacros)]
      ensures old(items) != [] ==> items == old(items) && reading == old(reading) && log == old(log)
    {
      if |items| == 0 {
        RefreshMacros();
      }
    }

    /** The dial runs the selected macro. */
    method OnDialButtonPress()
      requires items != [] ==> 0 <= selected < |items|
      modifies this`log
      ensures items != [] ==> log == old(log) + [Invoke(items[selected], Str("Run"))]
      ensures items == [] ==> log == old(log)
    {
      if |items| > 0 {
        log := log + [Invoke(items[selected], Str("Run"))];
      }
    }

    /** The green button (and a touch click) opens the selected macro, in
      `Idle` only. */
    method OnGreenButtonPress(state: State)
      requires items != [] ==> 0 <= selected < |items|
      modifies this`log
      ensures state == Idle && items != [] ==> log == old(log) + [Invoke(items[selected], NoArg)]
      ensures !(state == Idle && items != []) ==> log == old(log)
    {
      if state != Idle {
        return;
      }
      if |items| > 0 {
        log := log + [Invoke(items[selected], NoArg)];
      }
    }

    method OnTouchClick(state: State)
      requires items != [] ==> 0 <= selected < |items|
      modifies this`log
      ensures state == Idle && items != [] ==> log == old(log) + [Invoke(items[selected], NoArg)]
      ensures !(state == Idle && items != []) ==> log == old(log)
    {
      OnGreenButtonPress(state);
    }

    /** `MacroMenu::rotate`: nothing at the start of the list when turning
      back, nor when the selection equals the item count and turning on;
      otherwise the selection moves by `delta`, clamped to the list. */
    method Rotate(delta: int)
      requires Valid()
      requires (selected == 0 && delta <= 0) || (selected == |items| && delta >= 0)
               || (|items| > 0 && -1 <= selected < |items|)
      modifies this`selected, this`highlighted, this`log
      ensures Valid()
      ensures (old(selected) == 0 && delta <= 0) || (old(selected) == |items| && delta >= 0) ==>
                selected == old(selected) && highlighted == old(highlighted) && log == old(log)
      ensures !((old(selected) == 0 && delta <= 0) || (old(selected) == |items| && delta >= 0)) ==>
                selected == Clamp(old(selected) + delta, 0, |items| - 1)
                && highlighted == Menus.Unhighlight(old(highlighted), old(selected))[selected := true]
                && log == old(log) + [ReDisplay]
    {
      if selected == 0 && delta <= 0 {
        return;
      }
      if selected == |items| && delta >= 0 {
        return;
      }
      if selected != -1 {
        highlighted := highlighted[selected := false];
      }
      selected := selected + delta;
      if selected < 0 {
        selected := 0;
      }
      if selected >= |items| {
        selected := |items| - 1;
      }
      highlighted := highlighted[selected := true];
      log := log + [ReDisplay];
    }

    /** Starting a job shows the status scene. */
    method OnStateChange(state: State)
      modifies this`log
      ensures log == old(log) + (if state == Cycle then [Push(StatusSceneId, NoArg)] else [])
    {
      if state == Cycle {
        log := log + [Push(StatusSceneId, NoArg)];
      }
    }
  }
}
