/** The scene navigator and the per-tick input dispatcher: the current
    scene, the history of scenes to return to, and the hooks each input
    raises on the current scene. A hook is recorded in `trace`, in the
    order it is raised, rather than run. */
module Navigation {
  import opened CArith
  import opened Effects
  import opened Points
  import Areas

  /** An encoder scale: a scene divides raw encoder ticks by it. */
  type Scale = k: int | k >= 1 witness 1

  /** The virtual hooks of `Scene` that the dispatcher raises. */
  datatype Hook =
    | RedPress | RedRelease | DialPress | DialRelease | GreenPress | GreenRelease
    | TouchPress | TouchRelease | TouchClick | TouchHold
    | UpFlick | DownFlick | LeftFlick | RightFlick | TouchFlick
    | Encoder(delta: int)

  /** The touch library's `touch_state_t`; a zero-initialised state is `TsNone`. */
  datatype TouchState =
    | TsNone | TsTouch | TsTouchEnd | TsTouchBegin
    | TsHold | TsHoldEnd | TsHoldBegin
    | TsFlick | TsFlickEnd | TsFlickBegin
    | TsDrag | TsDragEnd | TsDragBegin

  /** What `touch.getDetail()` reports: the library's own gesture
      detection (`wasClicked`, `wasHold`, the flick distances) is input. */
  datatype TouchSample = TouchSample(state: TouchState, x: int, y: int,
                                     clicked: bool, held: bool,
                                     distanceX: int, distanceY: int)

  /** What the platform's `screen_encoder` and `screen_button_touched`
      answer for the sample's point. */
  datatype ZoneHits = ZoneHits(encoder: Option<int>, button: Option<int>)

  /** The inputs of one tick of `dispatch_events`. */
  datatype Tick = Tick(encoder: int, button: Option<(bool, int)>, touch: TouchSample,
                       zone: ZoneHits, spriteOffset: Point, connected: bool)

  /** A deferred action, named by a number. */
  type ActionId = nat

  /** One entry of the navigator's trace. */
  datatype Event =
    | Exit(scene: Scene)
    | Entry(scene: Scene, arg: Arg)
    | Redisplay(scene: Scene)
    | Call(scene: Scene, hook: Hook)
    | DisconnectedStateSet
    | RunAction(action: ActionId)

  /** Whether the entry is a hook on some scene. */
  predicate OnScene(e: Event)
  {
    e.Exit? || e.Entry? || e.Redisplay? || e.Call?
  }

  /** A screen: its id, its encoder scale, its accumulator of ticks not
      yet passed on, and the drawing area it may set for itself. */
  class Scene {
    const id: SceneId
    const scale: Scale
    var accum: int
    var area: Option<Areas.Area>

    /** The encoder scale defaults to 1; the accumulator starts at 0. */
    constructor (id: SceneId, scale: Scale := 1)
      ensures this.id == id && this.scale == scale
      ensures accum == 0 && area == None
    {
      this.id := id;
      this.scale := scale;
      accum := 0;
      area := None;
    }

    predicate Valid()
      reads this
    {
      Abs(accum) < scale
    }

    /** `Scene::area()`: the scene's own area if set, else the global one. */
    function ActiveArea(sceneArea: Areas.Area): (r: Areas.Area)
      reads this
      ensures area.Some? ==> r == area.value
      ensures area.None? ==> r == sceneArea
    {
      if area.Some? then area.value else sceneArea
    }

    method SetArea(a: Areas.Area)
      modifies this`area
      ensures area == Some(a)
    {
      area := Some(a);
    }

    /** `Scene::scale_encoder`: whole steps out, the truncated remainder
      kept for the next call. */
    method ScaleEncoder(delta: int) returns (res: int)
      modifies this`accum
      ensures (res, accum) == ScaleStep(old(accum), delta, scale)
      ensures old(accum) + delta == res * scale + accum
      ensures Valid()
    {
      accum := accum + delta;
      res := TDiv(accum, scale);
      accum := TMod(accum, scale);
    }
  }

  /** One `scale_encoder` call on values: the steps passed on and the new
      accumulator. No tick is lost, the remainder is smaller than the
      scale and has the sign of the sum, as C++'s `%` gives it. */
  function ScaleStep(accum: int, delta: int, scale: Scale): (r: (int, int))
    ensures accum + delta == r.0 * scale + r.1
    ensures Abs(r.1) < scale
    ensures r.1 == 0 || ((r.1 > 0) <==> (accum + delta > 0))
    ensures Abs(r.0) <= Abs(accum + delta)
  {
    var q := TDiv(accum + delta, scale);
    assert Abs(q) <= scale * Abs(q);
    (q, TMod(accum + delta, scale))
  }

  function Sum(s: seq<int>): int
  {
    if s == [] then 0 else s[0] + Sum(s[1..])
  }

  /** A run of `scale_encoder` calls: the steps passed on in total and the
      final accumulator. */
  function ScaleRun(accum: int, deltas: seq<int>, scale: Scale): (int, int)
    decreases |deltas|
  {
    if deltas == [] then (0, accum)
    else
      var step := ScaleStep(accum, deltas[0], scale);
      var rest := ScaleRun(step.1, deltas[1..], scale);
      (step.0 + rest.0, rest.1)
  }

  /** However the ticks arrive, every one of them is either passed on in
      a step or still in the accumulator, which stays below the scale. */
  lemma {:induction false} EncoderConservation(accum: int, deltas: seq<int>, scale: Scale)
    requires Abs(accum) < scale
    ensures var r := ScaleRun(accum, deltas, scale);
            accum + Sum(deltas) == r.0 * scale + r.1 && Abs(r.1) < scale
    decreases |deltas|
  {
    if deltas != [] {
      var step := ScaleStep(accum, deltas[0], scale);
      EncoderConservation(step.1, deltas[1..], scale);
      var rest := ScaleRun(step.1, deltas[1..], scale);
      assert Sum(deltas) == deltas[0] + Sum(deltas[1..]);
      Distribute(step.0, rest.0, scale);
    }
  }

  lemma Distribute(a: int, b: int, k: int)
    ensures (a + b) * k == a * k + b * k
  {
  }

  /** With the accumulator below the scale, the steps of a 16-bit delta
      fit the `int16_t` the dispatcher stores them in. */
  lemma ScaledFitsInt16(accum: int, delta: int, scale: Scale)
    requires Abs(accum) < scale && IsInt16(delta)
    ensures IsInt16(ScaleStep(accum, delta, scale).0)
  {
    var q := ScaleStep(accum, delta, scale).0;
    assert q == TDiv(accum + delta, scale);
    assert scale * Abs(q) <= Abs(accum + delta);
    if q > INT16_MAX {
      assert accum + delta > 0;
      MulGrows(scale, q, INT16_MAX);
      assert false;
    } else if q < INT16_MIN {
      assert accum + delta < 0;
      MulGrows(scale, -q, -INT16_MIN);
      assert false;
    }
  }

  lemma MulGrows(k: int, m: int, b: int)
    requires k >= 1 && b >= 0 && m >= b + 1
    ensures k * m >= k + b
  {
    MulSucc(m - 1, k);
    MulLeR(1, k, m - 1);
  }

  /** `rotateNumberLoop` on integers: the value after adding `increment`;
      a result above `mx` becomes `mn`, one below `mn` becomes `mx`, so an
      overshoot lands on the opposite end, not wrapped around. */
  function RotateNumberLoop(cur: int, increment: int, mn: int, mx: int): (r: int)
    ensures mn <= cur + increment <= mx ==> r == cur + increment
    ensures cur + increment > mx ==> r == mn
    ensures cur + increment < mn && cur + increment <= mx ==> r == mx
    ensures mn <= mx ==> mn <= r <= mx
  {
    var v := cur + increment;
    var v1 := if v > mx then mn else v;
    if v1 < mn then mx else v1
  }

  /** Starting anywhere in the range, any number of rotations stays in it. */
  lemma {:induction false} RotateNumberLoopStays(cur: int, incs: seq<int>, mn: int, mx: int)
    requires mn <= cur <= mx
    ensures mn <= RotateAll(cur, incs, mn, mx) <= mx
    decreases |incs|
  {
    if incs != [] {
      RotateNumberLoopStays(RotateNumberLoop(cur, incs[0], mn, mx), incs[1..], mn, mx);
    }
  }

  function RotateAll(cur: int, incs: seq<int>, mn: int, mx: int): int
    decreases |incs|
  {
    if incs == [] then cur else RotateAll(RotateNumberLoop(cur, incs[0], mn, mx), incs[1..], mn, mx)
  }

  /** The hook `dispatch_button` raises: buttons 0, 1, 2 are red, dial and
      green; any other number raises nothing. */
  function ButtonHook(pressed: bool, button: int): (h: Option<Hook>)
    ensures h.Some? <==> 0 <= button <= 2
  {
    match button
    case 0 => Some(if pressed then RedPress else RedRelease)
    case 1 => Some(if pressed then DialPress else DialRelease)
    case 2 => Some(if pressed then GreenPress else GreenRelease)
    case _ => None
  }

  /** The button and edge a button hook stands for. */
  function ButtonOf(h: Hook): Option<(bool, int)>
  {
    match h
    case RedPress => Some((true, 0))
    case RedRelease => Some((false, 0))
    case DialPress => Some((true, 1))
    case DialRelease => Some((false, 1))
    case GreenPress => Some((true, 2))
    case GreenRelease => Some((false, 2))
    case _ => None
  }

  /** Each valid button and edge raises its own hook, and no two raise the same. */
  lemma ButtonHookInverse(pressed: bool, button: int, h: Hook)
    ensures ButtonHook(pressed, button) == Some(h) <==> ButtonOf(h) == Some((pressed, button))
  {
  }

  function OptHook(h: Option<Hook>): seq<Hook>
  {
    if h.Some? then [h.value] else []
  }

  /** The flick test of `dispatch_touch`: vertical when the vertical
      distance is over 60 and the horizontal one under twice it, checked
      first; then horizontal by the same rule with the axes swapped;
      else a generic flick. */
  function ClassifyFlick(dx: int, dy: int): (h: Hook)
    ensures h in {UpFlick, DownFlick, LeftFlick, RightFlick, TouchFlick}
    ensures h in {UpFlick, DownFlick} <==> Abs(dy) > 60 && Abs(dx) < 2 * Abs(dy)
    ensures h == DownFlick <==> Abs(dy) > 60 && Abs(dx) < 2 * Abs(dy) && dy > 0
    ensures h in {LeftFlick, RightFlick} <==>
              !(Abs(dy) > 60 && Abs(dx) < 2 * Abs(dy)) && Abs(dx) > 60 && Abs(dy) < 2 * Abs(dx)
    ensures h == RightFlick ==> dx > 0
    ensures h == LeftFlick ==> dx < 0
  {
    var absX, absY := Abs(dx), Abs(dy);
    if absY > 60 && absX < absY * 2 then
      (if dy > 0 then DownFlick else UpFlick)
    else if absX > 60 && absY < absX * 2 then
      (if dx > 0 then RightFlick else LeftFlick)
    else TouchFlick
  }

  /** The boundary cases: 61 is a flick and 60 is not, a diagonal goes to
      the dominant axis, and a square diagonal counts as vertical. */
  lemma FlickExamples()
    ensures ClassifyFlick(61, 0) == RightFlick
    ensures ClassifyFlick(60, 0) == TouchFlick
    ensures ClassifyFlick(59, 0) == TouchFlick
    ensures ClassifyFlick(70, 40) == RightFlick
    ensures ClassifyFlick(40, 70) == DownFlick
    ensures ClassifyFlick(0, -61) == UpFlick
    ensures ClassifyFlick(-100, 100) == DownFlick
  {
  }

  function MirrorX(h: Hook): Hook
  {
    match h
    case LeftFlick => RightFlick
    case RightFlick => LeftFlick
    case _ => h
  }

  function MirrorY(h: Hook): Hook
  {
    match h
    case UpFlick => DownFlick
    case DownFlick => UpFlick
    case _ => h
  }

  /** Mirroring a flick left to right swaps left and right and nothing else. */
  lemma FlickMirrorX(dx: int, dy: int)
    ensures ClassifyFlick(-dx, dy) == MirrorX(ClassifyFlick(dx, dy))
  {
  }

  /** Mirroring a flick top to bottom swaps up and down and nothing else. */
  lemma FlickMirrorY(dx: int, dy: int)
    ensures ClassifyFlick(dx, -dy) == MirrorY(ClassifyFlick(dx, dy))
  {
  }

  predicate IsFlick(h: Hook)
  {
    h in {UpFlick, DownFlick, LeftFlick, RightFlick, TouchFlick}
  }

  /** Whether `dispatch_touch` reaches its flick branch for a changed
      sample (where it also stores the flick distances). */
  predicate ReachesFlick(t: TouchSample, zone: ZoneHits, touchX: int)
  {
    !(zone.encoder.Some? && t.state == TsTouch) && zone.button.None? && touchX >= 0
      && !t.clicked && !t.held && t.state == TsFlickEnd
  }

  /** The hooks `dispatch_touch` raises, in order, for a sample whose state
      differs from the last one; `touchX` is the sample's x less the
      sprite offset. The encoder zone counts only on a touch, a button
      zone raises only that button's edge, a point left of the sprite
      raises nothing, and the rest is a press or release followed by at
      most one gesture. */
  function TouchHooks(t: TouchSample, zone: ZoneHits, touchX: int): (hs: seq<Hook>)
    ensures |hs| <= 2
    ensures zone.encoder.Some? && t.state == TsTouch ==> hs == [Encoder(zone.encoder.value)]
    ensures forall i :: 0 <= i < |hs| && hs[i].Encoder? ==> zone.encoder.Some? && t.state == TsTouch
    ensures !(zone.encoder.Some? && t.state == TsTouch) && zone.button.Some? ==>
              hs == (if t.state == TsTouch then OptHook(ButtonHook(true, zone.button.value))
                     else if t.state == TsNone then OptHook(ButtonHook(false, zone.button.value))
                     else [])
    ensures forall i :: 0 <= i < |hs| && ButtonOf(hs[i]).Some? ==>
              zone.button == Some(ButtonOf(hs[i]).value.1) && (ButtonOf(hs[i]).value.0 <==> t.state == TsTouch)
    ensures !(zone.encoder.Some? && t.state == TsTouch) && zone.button.None? && touchX < 0 ==> hs == []
    ensures TouchPress in hs ==> t.state == TsTouch && hs[0] == TouchPress
    ensures TouchRelease in hs ==> t.state == TsNone && hs[0] == TouchRelease
    ensures TouchClick in hs ==> t.clicked
    ensures TouchHold in hs ==> t.held && !t.clicked
    ensures forall i :: 0 <= i < |hs| && IsFlick(hs[i]) ==>
              ReachesFlick(t, zone, touchX) && hs[i] == ClassifyFlick(t.distanceX, t.distanceY)
    ensures ReachesFlick(t, zone, touchX) ==> |hs| > 0 && hs[|hs| - 1] == ClassifyFlick(t.distanceX, t.distanceY)
  {
    if zone.encoder.Some? && t.state == TsTouch then [Encoder(zone.encoder.value)]
    else if zone.button.Some? then
      if t.state == TsTouch then OptHook(ButtonHook(true, zone.button.value))
      else if t.state == TsNone then OptHook(ButtonHook(false, zone.button.value))
      else []
    else if touchX < 0 then []
    else GestureHooks(t)
  }

  /** The hooks of a touch on the scene's own part of the screen: a press
      or release edge, then at most one gesture. */
  function GestureHooks(t: TouchSample): (hs: seq<Hook>)
    ensures |hs| <= 2
    ensures forall i :: 0 <= i < |hs| ==> !hs[i].Encoder? && ButtonOf(hs[i]).None?
    ensures TouchPress in hs ==> t.state == TsTouch && hs[0] == TouchPress
    ensures TouchRelease in hs ==> t.state == TsNone && hs[0] == TouchRelease
    ensures TouchClick in hs ==> t.clicked
    ensures TouchHold in hs ==> t.held && !t.clicked
    ensures forall i :: 0 <= i < |hs| && IsFlick(hs[i]) ==>
              !t.clicked && !t.held && t.state == TsFlickEnd && hs[i] == ClassifyFlick(t.distanceX, t.distanceY)
    ensures !t.clicked && !t.held && t.state == TsFlickEnd ==>
              |hs| > 0 && hs[|hs| - 1] == ClassifyFlick(t.distanceX, t.distanceY)
  {
    var edge := if t.state == TsTouch then [TouchPress]
                else if t.state == TsNone then [TouchRelease] else [];
    var gesture := if t.clicked then [TouchClick]
                   else if t.held then [TouchHold]
                   else if t.state == TsFlickEnd then [ClassifyFlick(t.distanceX, t.distanceY)]
                   else [];
    edge + gesture
  }

  /** The trace entries for hooks raised, in order, on one scene. */
  function Calls(s: Scene, hs: seq<Hook>): (es: seq<Event>)
    ensures |es| == |hs|
    ensures forall i :: 0 <= i < |hs| ==> es[i] == Call(s, hs[i])
  {
    seq(|hs|, i requires 0 <= i < |hs| => Call(s, hs[i]))
  }

  lemma CallsAppend(s: Scene, a: seq<Hook>, b: seq<Hook>)
    ensures Calls(s, a + b) == Calls(s, a) + Calls(s, b)
  {
  }

  /** What `activate_scene` does to the trace: `onExit` on the scene left,
      when there was one, then `onEntry(arg)` and `reDisplay` on the new
      one; no other scene sees a hook. */
  function Activation(prev: Scene?, s: Scene, arg: Arg): (es: seq<Event>)
    ensures |es| == (if prev == null then 2 else 3)
    ensures es[|es| - 2] == Entry(s, arg) && es[|es| - 1] == Redisplay(s)
    ensures prev != null ==> es[0] == Exit(prev)
    ensures forall i :: 0 <= i < |es| && OnScene(es[i]) ==> es[i].scene == s || es[i].scene == prev
  {
    (if prev != null then [Exit(prev)] else []) + [Entry(s, arg), Redisplay(s)]
  }

  /** The trace entries of the encoder part of a tick: a hook only when
      the scaled step, stored in an `int16_t`, is non-zero. */
  function EncoderEvents(s: Scene, delta: int, steps: int): (es: seq<Event>)
    ensures es != [] <==> delta != 0 && Wrap16(steps) != 0
    ensures es != [] ==> es == [Call(s, Encoder(Wrap16(steps)))]
  {
    if delta != 0 && Wrap16(steps) != 0 then [Call(s, Encoder(Wrap16(steps)))] else []
  }

  /** The navigator's globals: `current_scene`, `scene_stack`, the
      dispatcher's statics `oldEncoder` and `last_touch_state`, the
      touch globals, the deferred `action`, and the controller state
      the disconnect check reads and sets. */
  class Navigator {
    var current: Scene?
    var history: seq<Scene>
    var trace: seq<Event>
    const menuScene: Scene
    var oldEncoder: int
    var lastTouch: TouchState
    var touchX: int
    var touchY: int
    var touchDeltaX: int
    var touchDeltaY: int
    var action: Option<ActionId>
    var state: State

    constructor (menuScene: Scene, state: State)
      ensures this.menuScene == menuScene && this.state == state
      ensures current == null && history == [] && trace == []
      ensures oldEncoder == 0 && lastTouch == TsNone && action == None
      ensures touchX == 0 && touchY == 0 && touchDeltaX == 0 && touchDeltaY == 0
    {
      this.menuScene := menuScene;
      this.state := state;
      current := null;
      history := [];
      trace := [];
      oldEncoder := 0;
      lastTouch := TsNone;
      touchX, touchY, touchDeltaX, touchDeltaY := 0, 0, 0, 0;
      action := None;
    }

    /** `activate_scene`. */
    method ActivateScene(s: Scene, arg: Arg)
      modifies this`current, this`trace
      ensures current == s
      ensures trace == old(trace) + Activation(old(current), s, arg)
    {
      if current != null {
        trace := trace + [Exit(current)];
      }
      current := s;
      trace := trace + [Entry(s, arg), Redisplay(s)];
    }

    /** `push_scene`: the current scene is remembered, then `s` activated.
      The source stores whatever is current, so this needs a current scene. */
    method PushScene(s: Scene, arg: Arg)
      requires current != null
      modifies this`current, this`history, this`trace
      ensures history == old(history) + [old(current)]
      ensures current == s
      ensures trace == old(trace) + Activation(old(current), s, arg)
    {
      history := history + [current];
      ActivateScene(s, arg);
    }

    /** `pop_scene`: back to the last remembered scene; with nothing
      remembered, nothing happens and no hook runs. */
    method PopScene(arg: Arg)
      modifies this`current, this`history, this`trace
      ensures old(history) == [] ==>
                current == old(current) && history == [] && trace == old(trace)
      ensures old(history) != [] ==>
                history == old(history)[..|old(history)| - 1]
                && current == old(history)[|old(history)| - 1]
                && trace == old(trace) + Activation(old(current), current, arg)
    {
      if |history| > 0 {
        var last := history[|history| - 1];
        history := history[..|history| - 1];
        ActivateScene(last, arg);
      }
    }

    /** `activate_at_top_level`: the history is forgotten. */
    method ActivateAtTopLevel(s: Scene, arg: Arg)
      modifies this`current, this`history, this`trace
      ensures history == [] && current == s
      ensures trace == old(trace) + Activation(old(current), s, arg)
    {
      history := [];
      ActivateScene(s, arg);
    }

    /** `parent_scene`: the scene a pop would return to, or null. */
    function ParentScene(): (p: Scene?)
      reads this
      ensures p == null <==> history == []
      ensures p != null ==> p == history[|history| - 1]
    {
      if |history| > 0 then history[|history| - 1] else null
    }

    /** A push followed by a pop restores the scene and the history; the
      restored scene is entered with the pop's argument. */
    method PushThenPop(s: Scene, a: Arg, b: Arg)
      requires current != null
      modifies this`current, this`history, this`trace
      ensures current == old(current) && history == old(history)
      ensures trace == old(trace) + Activation(old(current), s, a) + Activation(s, old(current), b)
    {
      PushScene(s, a);
      assert ParentScene() == old(current);
      PopScene(b);
    }

    /** `schedule_action`: the slot holds the latest action scheduled. */
    method ScheduleAction(a: ActionId)
      modifies this`action
      ensures action == Some(a)
    {
      action := Some(a);
    }

    /** `dispatch_button`. */
    method DispatchButton(pressed: bool, button: int)
      requires current != null
      modifies this`trace
      ensures trace == old(trace) + Calls(current, OptHook(ButtonHook(pressed, button)))
    {
      var h := ButtonHook(pressed, button);
      if h.Some? {
        trace := trace + [Call(current, h.value)];
      }
    }

    /** `dispatch_touch`: nothing unless the touch state changed; then the
      touch point is stored relative to the sprite and the hooks of
      `TouchHooks` are raised. The flick distances are stored only when
      the flick branch is reached. */
    method DispatchTouch(t: TouchSample, zone: ZoneHits, offset: Point)
      requires current != null
      modifies this`lastTouch, this`touchX, this`touchY, this`touchDeltaX, this`touchDeltaY, this`trace
      ensures t.state == old(lastTouch) ==>
                trace == old(trace) && touchX == old(touchX) && touchY == old(touchY)
                && touchDeltaX == old(touchDeltaX) && touchDeltaY == old(touchDeltaY)
      ensures lastTouch == t.state
      ensures t.state != old(lastTouch) ==>
                touchX == t.x - offset.x && touchY == t.y - offset.y
                && trace == old(trace) + Calls(current, TouchHooks(t, zone, touchX))
      ensures t.state != old(lastTouch) && ReachesFlick(t, zone, t.x - offset.x) ==>
                touchDeltaX == t.distanceX && touchDeltaY == t.distanceY
      ensures !(t.state != old(lastTouch) && ReachesFlick(t, zone, t.x - offset.x)) ==>
                touchDeltaX == old(touchDeltaX) && touchDeltaY == old(touchDeltaY)
    {
      if t.state == lastTouch {
        return;
      }
      lastTouch := t.state;
      touchX := t.x - offset.x;
      touchY := t.y - offset.y;
      if zone.encoder.Some? && t.state == TsTouch {
        trace := trace + [Call(current, Encoder(zone.encoder.value))];
        return;
      }
      if zone.button.Some? {
        if t.state == TsTouch {
          DispatchButton(true, zone.button.value);
        } else if t.state == TsNone {
          DispatchButton(false, zone.button.value);
        }
        return;
      }
      if touchX >= 0 {
        DispatchGesture(t);
      }
    }

    /** The end of `dispatch_touch` for a touch on the scene's own part of
      the screen: the edge hook, then a click, a hold, or a flick, whose
      distances are stored. */
    method DispatchGesture(t: TouchSample)
      requires current != null
      modifies this`trace, this`touchDeltaX, this`touchDeltaY
      ensures trace == old(trace) + Calls(current, GestureHooks(t))
      ensures !t.clicked && !t.held && t.state == TsFlickEnd ==>
                touchDeltaX == t.distanceX && touchDeltaY == t.distanceY
      ensures !(!t.clicked && !t.held && t.state == TsFlickEnd) ==>
                touchDeltaX == old(touchDeltaX) && touchDeltaY == old(touchDeltaY)
    {
      ghost var edge: seq<Hook> := if t.state == TsTouch then [TouchPress]
                                   else if t.state == TsNone then [TouchRelease] else [];
      ghost var gesture: seq<Hook> := if t.clicked then [TouchClick]
                                      else if t.held then [TouchHold]
                                      else if t.state == TsFlickEnd then [ClassifyFlick(t.distanceX, t.distanceY)]
                                      else [];
      if t.state == TsTouch {
        trace := trace + [Call(current, TouchPress)];
      } else if t.state == TsNone {
        trace := trace + [Call(current, TouchRelease)];
      }
      assert trace == old(trace) + Calls(current, edge);
      ghost var tr1 := trace;
      if t.clicked {
        trace := trace + [Call(current, TouchClick)];
      } else if t.held {
        trace := trace + [Call(current, TouchHold)];
      } else if t.state == TsFlickEnd {
        touchDeltaX := t.distanceX;
        touchDeltaY := t.distanceY;
        trace := trace + [Call(current, ClassifyFlick(touchDeltaX, touchDeltaY))];
      }
      assert trace == tr1 + Calls(current, gesture);
      CallsAppend(current, edge, gesture);
    }

    /** The encoder part of `dispatch_events`: the int16 difference from
      the last reading; `oldEncoder` moves only when it is non-zero, and
      the scene's hook is raised only for a non-zero scaled step. */
    method DispatchEncoder(newEncoder: int)
      requires current != null && IsInt16(newEncoder)
      modifies this`oldEncoder, this`trace, current`accum
      ensures var delta := Wrap16(newEncoder - old(oldEncoder));
              var step := ScaleStep(old(current.accum), delta, current.scale);
              oldEncoder == (if delta != 0 then newEncoder else old(oldEncoder))
              && current.accum == (if delta != 0 then step.1 else old(current.accum))
              && trace == old(trace) + EncoderEvents(current, delta, step.0)
    {
      var delta := Wrap16(newEncoder - oldEncoder);
      if delta != 0 {
        oldEncoder := newEncoder;
        var res := current.ScaleEncoder(delta);
        var scaled := Wrap16(res);
        if scaled != 0 {
          trace := trace + [Call(current, Encoder(scaled))];
        }
      }
    }

    /** The connection check of `dispatch_events`: on a lost connection,
      unless already disconnected, the disconnected state is set and the
      menu activated at top level. */
    method CheckConnection(connected: bool)
      modifies this`state, this`trace, this`current, this`history
      ensures var drop := !connected && old(state) != Disconnected;
              (drop ==> state == Disconnected && current == menuScene && history == []
                        && trace == old(trace) + [DisconnectedStateSet] + Activation(old(current), menuScene, NoArg))
              && (!drop ==> state == old(state) && current == old(current) && history == old(history)
                            && trace == old(trace))
    {
      if !connected && state != Disconnected {
        state := Disconnected;
        trace := trace + [DisconnectedStateSet];
        ActivateAtTopLevel(menuScene, NoArg);
      }
    }

    /** The end of `dispatch_events`: the scheduled action, if any, runs
      once and the slot is cleared. */
    method RunScheduledAction()
      modifies this`action, this`trace
      ensures action == None
      ensures trace == old(trace) + (if old(action).Some? then [RunAction(old(action).value)] else [])
    {
      if action.Some? {
        trace := trace + [RunAction(action.value)];
        action := None;
      }
    }

    /** The input part of `dispatch_events`: the encoder, then a switch
      button edge, then the touch, all raised on the current scene. */
    method DispatchInputs(tick: Tick)
      requires current != null && IsInt16(tick.encoder)
      modifies this`oldEncoder, this`trace, this`lastTouch, this`touchX, this`touchY,
               this`touchDeltaX, this`touchDeltaY, current`accum
      ensures lastTouch == tick.touch.state
      ensures var delta := Wrap16(tick.encoder - old(oldEncoder));
              oldEncoder == (if delta != 0 then tick.encoder else old(oldEncoder))
              && current.accum
                   == (if delta != 0 then ScaleStep(old(current.accum), delta, current.scale).1
                       else old(current.accum))
      ensures var delta := Wrap16(tick.encoder - old(oldEncoder));
              var t := tick.touch;
              trace == old(trace)
                + EncoderEvents(current, delta, ScaleStep(old(current.accum), delta, current.scale).0)
                + (if tick.button.Some? then Calls(current, OptHook(ButtonHook(tick.button.value.0, tick.button.value.1))) else [])
                + (if t.state != old(lastTouch) then Calls(current, TouchHooks(t, tick.zone, t.x - tick.spriteOffset.x)) else [])
    {
      ghost var t0 := trace;
      ghost var t := tick.touch;
      ghost var h := if t.state != lastTouch then Calls(current, TouchHooks(t, tick.zone, t.x - tick.spriteOffset.x)) else [];
      ghost var cur := current;
      ghost var b := if tick.button.Some? then Calls(current, OptHook(ButtonHook(tick.button.value.0, tick.button.value.1))) else [];
      DispatchEncoder(tick.encoder);
      ghost var t1 := trace;
      ghost var acc, oe := cur.accum, oldEncoder;
      if tick.button.Some? {
        DispatchButton(tick.button.value.0, tick.button.value.1);
      }
      assert trace == t1 + b;
      ghost var t2 := trace;
      DispatchTouch(tick.touch, tick.zone, tick.spriteOffset);
      assert trace == t2 + h;
      assert current == cur && cur.accum == acc && oldEncoder == oe;
    }

    /** `dispatch_events`, one tick: the encoder, a switch button edge, the
      touch, the forced return to the menu on a lost connection, and the
      deferred action, in that order. Hooks are raised on the scene that
      was current when the tick began. */
    method DispatchEvents(tick: Tick)
      requires current != null && IsInt16(tick.encoder)
      modifies this`oldEncoder, this`trace, this`lastTouch, this`touchX, this`touchY,
               this`touchDeltaX, this`touchDeltaY, this`state, this`current, this`history,
               this`action, current`accum
      ensures lastTouch == tick.touch.state && action == None
      ensures var delta := Wrap16(tick.encoder - old(oldEncoder));
              oldEncoder == (if delta != 0 then tick.encoder else old(oldEncoder))
              && old(current).accum
                   == (if delta != 0 then ScaleStep(old(current.accum), delta, old(current).scale).1
                       else old(current.accum))
      ensures var drop := !tick.connected && old(state) != Disconnected;
              (drop ==> state == Disconnected && current == menuScene && history == [])
              && (!drop ==> state == old(state) && current == old(current) && history == old(history))
      ensures var cur := old(current);
              var delta := Wrap16(tick.encoder - old(oldEncoder));
              var t := tick.touch;
              trace == old(trace)
                + EncoderEvents(cur, delta, ScaleStep(old(current.accum), delta, cur.scale).0)
                + (if tick.button.Some? then Calls(cur, OptHook(ButtonHook(tick.button.value.0, tick.button.value.1))) else [])
                + (if t.state != old(lastTouch) then Calls(cur, TouchHooks(t, tick.zone, t.x - tick.spriteOffset.x)) else [])
                + (if !tick.connected && old(state) != Disconnected
                   then [DisconnectedStateSet] + Activation(cur, menuScene, NoArg) else [])
                + (if old(action).Some? then [RunAction(old(action).value)] else [])
    {
      ghost var cur := current;
      ghost var drop := !tick.connected && state != Disconnected;
      ghost var act := if action.Some? then [RunAction(action.value)] else [];
      DispatchInputs(tick);
      ghost var tr1 := trace;
      ghost var acc1 := cur.accum;
      CheckConnection(tick.connected);
      assert cur.accum == acc1;
      assert trace == tr1 + (if drop then [DisconnectedStateSet] + Activation(cur, menuScene, NoArg) else []);
      RunScheduledAction();
    }

    /** The hooks `Scene` does not leave empty: a left flick pops the
      scene, a right, up or down flick raises the scene's `onTouchFlick`,
      and every other hook does nothing. */
    method DefaultHook(h: Hook)
      requires current != null
      modifies this`current, this`history, this`trace
      ensures h == LeftFlick ==>
                (old(history) == [] ==> current == old(current) && history == [] && trace == old(trace))
                && (old(history) != [] ==>
                      history == old(history)[..|old(history)| - 1]
                      && current == old(history)[|old(history)| - 1]
                      && trace == old(trace) + Activation(old(current), current, NoArg))
      ensures h in {RightFlick, UpFlick, DownFlick} ==>
                current == old(current) && history == old(history)
                && trace == old(trace) + [Call(old(current), TouchFlick)]
      ensures h !in {LeftFlick, RightFlick, UpFlick, DownFlick} ==>
                current == old(current) && history == old(history) && trace == old(trace)
    {
      if h == LeftFlick {
        PopScene(NoArg);
      } else if h in {RightFlick, UpFlick, DownFlick} {
        trace := trace + [Call(current, TouchFlick)];
      }
    }
  }

  /** `touchIsCenter`: whether the touch point, moved to centred
      coordinates, is within a sixth of the short side of the centre. */
  function TouchIsCenter(touchX: int, touchY: int, shortSide: nat): (r: bool)
    ensures var c := FromDisplay(Point(touchX, touchY), shortSide);
            r ==> Abs(c.x) < shortSide / 6 && Abs(c.y) < shortSide / 6
    ensures var c := FromDisplay(Point(touchX, touchY), shortSide);
            Abs(c.x) + Abs(c.y) < shortSide / 6 ==> r
    ensures touchX == Center(shortSide) && touchY == Center(shortSide) ==> (r <==> shortSide >= 6)
  {
    var ctr := FromDisplay(Point(touchX, touchY), shortSide);
    var radius := shortSide / 6;
    InCircle(ctr.x, ctr.y, radius);
    InCircle(ctr.y, ctr.x, radius);
    SquareSum(ctr.x, ctr.y, radius);
    ctr.x * ctr.x + ctr.y * ctr.y < radius * radius
  }

  /** A point strictly inside the circle of radius `r` is inside its
      bounding square, and the centre is inside exactly when `r > 0`. */
  lemma InCircle(x: int, y: int, r: nat)
    ensures x * x + y * y < r * r ==> Abs(x) < r
    ensures x == 0 && y == 0 ==> (x * x + y * y < r * r <==> r > 0)
  {
    if x == 0 && y == 0 && r > 0 {
      MulMono(1, r);
    }
    if x * x + y * y < r * r && Abs(x) >= r {
      assert y * y >= 0;
      assert Abs(x) * Abs(x) == x * x;
      MulMono(r, Abs(x));
      assert false;
    }
  }

  /** The diamond `|x| + |y| < r` lies inside the circle of radius `r`. */
  lemma SquareSum(x: int, y: int, r: int)
    ensures Abs(x) + Abs(y) < r ==> x * x + y * y < r * r
  {
    if Abs(x) + Abs(y) < r {
      var a, b := Abs(x), Abs(y);
      var s := a + b;
      assert a * a == x * x && b * b == y * y;
      assert s * s == a * a + 2 * (a * b) + b * b;
      assert 0 <= a * b;
      assert s * s <= s * r;
      assert s * r < r * r;
    }
  }

  lemma MulMono(r: nat, a: nat)
    requires r <= a
    ensures r * r <= a * a
  {
    assert r * r <= r * a;
    assert r * a <= a * a;
  }
}
