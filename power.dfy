/** The power scene: a brightness counter kept in the scene's
    preferences, and the buttons that put the pendant to sleep or restart it. */
module Power {
  import opened Effects
  import opened Prefs

  /** One turn of the encoder moves the brightness by one step toward
      `delta`'s sign, never past `lo` nor past 255; the size of `delta`
      does not matter. */
  function BrightnessStep(b: int, delta: int, lo: int): (nb: int)
    ensures nb == b + 1 <==> delta > 0 && b < 255
    ensures nb == b - 1 <==> delta < 0 && b > lo
    ensures nb == b || nb == b + 1 || nb == b - 1
    ensures lo <= b <= 255 ==> lo <= nb <= 255
  {
    if delta > 0 && b < 255 then b + 1
    else if delta < 0 && b > lo then b - 1
    else b
  }

  /** However the encoder is turned, a brightness in `[lo, 255]` stays
      there. */
  lemma {:induction false} BrightnessStays(b: int, deltas: seq<int>, lo: int)
    requires lo <= b <= 255
    ensures lo <= BrightnessAfter(b, deltas, lo) <= 255
    decreases |deltas|
  {
    if deltas != [] {
      BrightnessStays(BrightnessStep(b, deltas[0], lo), deltas[1..], lo);
    }
  }

  function BrightnessAfter(b: int, deltas: seq<int>, lo: int): int
    decreases |deltas|
  {
    if deltas == [] then b else BrightnessAfter(BrightnessStep(b, deltas[0], lo), deltas[1..], lo)
  }

  /** The effects of one encoder step: the new level shown and stored when
      it changed, then a redisplay. */
  function BrightnessEffects(b: int, nb: int): (es: seq<Effect>)
    ensures |es| >= 1 && es[|es| - 1] == ReDisplay
    ensures b != nb <==> SetBrightness(nb) in es
  {
    (if nb != b then [SetBrightness(nb)] else []) + [ReDisplay]
  }

  /** `PowerScene`: the brightness, the scene's preferences and the effects
      of its handlers. */
  class PowerScene {
    var brightness: int
    const prefs: Preferences
    var log: seq<Effect>

    constructor (prefs: Preferences)
      ensures brightness == 255 && this.prefs == prefs && log == []
    {
      brightness := 255;
      this.prefs := prefs;
      log := [];
    }

    /** `onEntry`: the stored brightness is loaded only when this entry is
      the one that opens the preferences. */
    method OnEntry(arg: Arg, storeOpens: bool)
      modifies this`brightness, prefs`isOpen
      ensures old(prefs.isOpen) ==> brightness == old(brightness) && prefs.isOpen
      ensures !old(prefs.isOpen) ==>
                prefs.isOpen == storeOpens && brightness == Read(storeOpens, prefs.store, "brightness", old(brightness))
    {
      var newlyOpen := prefs.InitPrefs(storeOpens);
      if newlyOpen {
        brightness := prefs.GetPref("brightness", brightness);
      }
    }

    /** Sleep: the controller link is marked down before the pendant sleeps. */
    method OnRedButtonPress()
      modifies this`log
      ensures log == old(log) + [SetDisconnectedState]
    {
      log := log + [SetDisconnectedState];
    }

    /** Restart: the link is marked down before the pendant restarts. */
    method OnGreenButtonPress()
      modifies this`log
      ensures log == old(log) + [SetDisconnectedState]
    {
      log := log + [SetDisconnectedState];
    }

    method OnDialButtonPress()
      modifies this`log
      ensures log == old(log) + [Pop(NoArg)]
    {
      log := log + [Pop(NoArg)];
    }

    /** `onEncoder`: one step of brightness between 0 and 255, shown and
      stored on every change. */
    method OnEncoder(delta: int)
      modifies this`brightness, this`log, prefs`store
      ensures brightness == BrightnessStep(old(brightness), delta, 0)
      ensures log == old(log) + BrightnessEffects(old(brightness), brightness)
      ensures prefs.store == (if brightness != old(brightness)
                              then Written(prefs.isOpen, old(prefs.store), "brightness", brightness)
                              else old(prefs.store))
    {
      if delta > 0 && brightness < 255 {
        brightness := brightness + 1;
        log := log + [SetBrightness(brightness)];
        prefs.SetPref("brightness", brightness);
      }
      if delta < 0 && brightness > 0 {
        brightness := brightness - 1;
        log := log + [SetBrightness(brightness)];
        prefs.SetPref("brightness", brightness);
      }
      log := log + [ReDisplay];
    }
  }
}
