/** The about scene: controller information on entry and on a touch, and
    a brightness counter with a floor, kept in the scene's preferences. */
module About {
  import opened Effects
  import opened Prefs
  import Power
  import Navigation

  /** The dimmest the about scene lets the display go. */
  const MinBrightness := 8

  /** What a touch asks of the controller: a status report, and its modes
      and build information when idle. */
  function TouchClickEffects(state: State): (es: seq<Effect>)
    ensures |es| >= 1 && es[0] == Send(Rt(StatusReport))
    ensures |es| == 3 <==> state == Idle
    ensures |es| == 1 <==> state != Idle
    ensures state == Idle ==> es[1..] == [Send(Line("$G")), Send(Line("$I"))]
  {
    [Send(Rt(StatusReport))] + (if state == Idle then [Send(Line("$G")), Send(Line("$I"))] else [])
  }

  /** `AboutScene`: the brightness, the scene's preferences and the effects
      of its handlers. */
  class AboutScene {
    var brightness: int
    const prefs: Preferences
    var log: seq<Effect>
    /** Raw encoder ticks per step the scene sees. */
    const scale: Navigation.Scale

    /** The scene as constructed, with an encoder scale of 4. */
    constructor (prefs: Preferences)
      ensures brightness == 255 && this.prefs == prefs && log == [] && scale == 4
    {
      scale := 4;
      brightness := 255;
      this.prefs := prefs;
      log := [];
    }

    /** `getBrightness`: the stored brightness is read only on the call
      that opens the preferences. */
    method GetBrightness(storeOpens: bool) returns (b: int)
      modifies this`brightness, prefs`isOpen
      ensures b == brightness
      ensures old(prefs.isOpen) ==> brightness == old(brightness) && prefs.isOpen
      ensures !old(prefs.isOpen) ==>
                prefs.isOpen == storeOpens && brightness == Read(storeOpens, prefs.store, "brightness", old(brightness))
    {
      var newlyOpen := prefs.InitPrefs(storeOpens);
      if newlyOpen {
        brightness := prefs.GetPref("brightness", brightness);
      }
      b := brightness;
    }

    /** `onEntry`: the brightness is loaded as `getBrightness` does, and
      the controller's modes and build information are asked for. */
    method OnEntry(arg: Arg, storeOpens: bool)
      modifies this`brightness, prefs`isOpen, this`log
      ensures old(prefs.isOpen) ==> brightness == old(brightness)
      ensures !old(prefs.isOpen) ==> brightness == Read(storeOpens, prefs.store, "brightness", old(brightness))
      ensures log == old(log) + [Send(Line("$G")), Send(Line("$I"))]
    {
      var _ := GetBrightness(storeOpens);
      log := log + [Send(Line("$G"))];
      log := log + [Send(Line("$I"))];
    }

    /** The dial goes to the main menu by activating it, not by going back. */
    method OnDialButtonPress()
      modifies this`log
      ensures log == old(log) + [Activate(MenuSceneId, NoArg)]
    {
      log := log + [Activate(MenuSceneId, NoArg)];
    }

    /** Sleep: the controller link is marked down first. */
    method OnRedButtonPress()
      modifies this`log
      ensures log == old(log) + [SetDisconnectedState]
    {
      log := log + [SetDisconnectedState];
    }

    method OnTouchClick(state: State)
      modifies this`log
      ensures log == old(log) + TouchClickEffects(state)
    {
      log := log + [Send(Rt(StatusReport))];
      if state == Idle {
        log := log + [Send(Line("$G"))];
        log := log + [Send(Line("$I"))];
      }
    }

    /** `onEncoder`: one step of brightness between `MinBrightness` and 255,
      shown and stored on every change. */
    method OnEncoder(delta: int)
      modifies this`brightness, this`log, prefs`store
      ensures brightness == Power.BrightnessStep(old(brightness), delta, MinBrightness)
      ensures log == old(log) + Power.BrightnessEffects(old(brightness), brightness)
      ensures prefs.store == (if brightness != old(brightness)
                              then Written(prefs.isOpen, old(prefs.store), "brightness", brightness)
                              else old(prefs.store))
    {
      if delta > 0 && brightness < 255 {
        brightness := brightness + 1;
        log := log + [SetBrightness(brightness)];
        prefs.SetPref("brightness", brightness);
      }
      if delta < 0 && brightness > MinBrightness {
        brightness := brightness - 1;
        log := log + [SetBrightness(brightness)];
        prefs.SetPref("brightness", brightness);
      }
      log := log + [ReDisplay];
    }

    method OnStateChange(oldState: State)
      modifies this`log
      ensures log == old(log) + [ReDisplay]
    {
      log := log + [ReDisplay];
    }
  }
}
