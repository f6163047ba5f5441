/** The status scene: what the buttons, the dial, the encoder and a touch
    do with the machine, depending on its state and its last alarm, and
    the override read-out that a touch cycles. */
module Status {
  import opened Effects

  /** What the bottom line of the scene shows while a job runs. */
  datatype Override = Fro | Sro | RtFeedSpeed

  /** Alarms that need a hard reset: hard limit, soft limit, spindle
      control and hard stop. */
  predicate AlarmIsCritical(lastAlarm: int)
  {
    lastAlarm == 1 || lastAlarm == 2 || lastAlarm == 10 || lastAlarm == 13
  }

  /** Alarms raised by homing, which green answers with a new homing
      cycle. */
  predicate AlarmIsHoming(lastAlarm: int)
  {
    lastAlarm == 14 || (lastAlarm >= 6 && lastAlarm <= 9)
  }

  /** No alarm is both: red's hard reset and green's homing never apply
      to the same alarm. */
  lemma AlarmKindsDisjoint(lastAlarm: int)
    ensures !(AlarmIsCritical(lastAlarm) && AlarmIsHoming(lastAlarm))
  {
  }

  /** A touch on the lower part of the scene moves the read-out on. */
  function NextOverride(o: Override): (n: Override)
    ensures n != o
  {
    match o
    case Fro => Sro
    case Sro => RtFeedSpeed
    case RtFeedSpeed => Fro
  }

  /** Three touches bring the read-out back, and each of the three is shown
      on the way. */
  lemma OverrideCycle(o: Override)
    ensures NextOverride(NextOverride(NextOverride(o))) == o
    ensures {o, NextOverride(o), NextOverride(NextOverride(o))} == {Fro, Sro, RtFeedSpeed}
  {
  }

  /** `onRedButtonPress`: in an alarm, a reset or an unlock depending on the
      alarm; while homing, running, held or with the door closed, a reset;
      nothing otherwise. */
  function RedEffects(state: State, lastAlarm: int): (es: seq<Effect>)
    ensures |es| <= 1
    ensures es != [] <==> state in {Alarm, Cycle, Homing, Hold, DoorClosed}
    ensures state == Alarm ==> es == [if AlarmIsCritical(lastAlarm) then Send(Rt(Reset)) else Send(Line("$X"))]
    ensures state != Alarm && es != [] ==> es == [Send(Rt(Reset))]
  {
    match state
    case Alarm => if AlarmIsCritical(lastAlarm) then [Send(Rt(Reset))] else [Send(Line("$X"))]
    case Cycle => [Send(Rt(Reset))]
    case Homing => [Send(Rt(Reset))]
    case Hold => [Send(Rt(Reset))]
    case DoorClosed => [Send(Rt(Reset))]
    case _ => []
  }

  /** `onGreenButtonPress`: hold a running job, resume a held one, home
      after a homing alarm; a status report is asked for in every case. */
  function GreenEffects(state: State, lastAlarm: int): (es: seq<Effect>)
    ensures |es| >= 1 && es[|es| - 1] == Send(Rt(StatusReport))
    ensures |es| == 2 <==> state in {Cycle, Hold, DoorClosed} || (state == Alarm && AlarmIsHoming(lastAlarm))
    ensures |es| <= 2
    ensures state == Cycle ==> es[0] == Send(Rt(FeedHold))
    ensures state == Hold || state == DoorClosed ==> es[0] == Send(Rt(CycleStart))
    ensures state == Alarm && AlarmIsHoming(lastAlarm) ==> es[0] == Send(Line("$H"))
  {
    var action :=
      match state
      case Cycle => [Send(Rt(FeedHold))]
      case Hold => [Send(Rt(CycleStart))]
      case DoorClosed => [Send(Rt(CycleStart))]
      case Alarm => if AlarmIsHoming(lastAlarm) then [Send(Line("$H"))] else []
      case _ => [];
    action + [Send(Rt(StatusReport))]
  }

  /** `onDialButtonPress`: while running or held it resets the override
      shown (none for the feed and speed read-out); otherwise it goes back. */
  function DialEffects(state: State, o: Override): (es: seq<Effect>)
    ensures state != Cycle && state != Hold <==> es == [Pop(NoArg)]
    ensures (state == Cycle || state == Hold) && o == Fro ==> es == [Send(Rt(FeedOvrReset))]
    ensures (state == Cycle || state == Hold) && o == Sro ==> es == [Send(Rt(SpindleOvrReset))]
    ensures (state == Cycle || state == Hold) && o == RtFeedSpeed ==> es == []
  {
    if state == Cycle || state == Hold then
      (if o == Fro then [Send(Rt(FeedOvrReset))] else if o == Sro then [Send(Rt(SpindleOvrReset))] else [])
    else [Pop(NoArg)]
  }

  /** `onEncoder` while a job runs: one fine step of the override shown,
      up only below 200 % and down only above 10 %; on the feed and speed
      read-out the encoder brings back the feed override instead. */
  function EncoderStep(o: Override, delta: int, myFro: int, mySro: int): (r: (seq<Effect>, Override))
    ensures o != RtFeedSpeed ==> r.1 == o
    ensures o == RtFeedSpeed ==> r == ([], Fro)
    ensures |r.0| <= 1
    ensures o == Fro ==> (r.0 == [Send(Rt(FeedOvrFinePlus))] <==> delta > 0 && myFro < 200)
    ensures o == Fro ==> (r.0 == [Send(Rt(FeedOvrFineMinus))] <==> delta < 0 && myFro > 10)
    ensures o == Sro ==> (r.0 == [Send(Rt(SpindleOvrFinePlus))] <==> delta > 0 && mySro < 200)
    ensures o == Sro ==> (r.0 == [Send(Rt(SpindleOvrFineMinus))] <==> delta < 0 && mySro > 10)
  {
    match o
    case Fro =>
      if delta > 0 && myFro < 200 then ([Send(Rt(FeedOvrFinePlus))], o)
      else if delta < 0 && myFro > 10 then ([Send(Rt(FeedOvrFineMinus))], o)
      else ([], o)
    case Sro =>
      if delta > 0 && mySro < 200 then ([Send(Rt(SpindleOvrFinePlus))], o)
      else if delta < 0 && mySro > 10 then ([Send(Rt(SpindleOvrFineMinus))], o)
      else ([], o)
    case RtFeedSpeed => ([], Fro)
  }

  /** A fine step never pushes an override that is already in `[10, 200]`
      out of it, taking each fine step as 1 %. */
  lemma EncoderKeepsOverrideInRange(o: Override, delta: int, myFro: int, mySro: int)
    requires 10 <= myFro <= 200 && 10 <= mySro <= 200
    ensures var r := EncoderStep(o, delta, myFro, mySro);
            (r.0 == [Send(Rt(FeedOvrFinePlus))] ==> myFro + 1 <= 200)
            && (r.0 == [Send(Rt(FeedOvrFineMinus))] ==> myFro - 1 >= 10)
            && (r.0 == [Send(Rt(SpindleOvrFinePlus))] ==> mySro + 1 <= 200)
            && (r.0 == [Send(Rt(SpindleOvrFineMinus))] ==> mySro - 1 >= 10)
  {
  }

  /** The label `reDisplay` puts over the red button. */
  function RedLegend(state: State, lastAlarm: int): string
  {
    match state
    case Alarm => if AlarmIsCritical(lastAlarm) then "Reset" else "Unlock"
    case Homing => "Reset"
    case Cycle => "E-Stop"
    case Hold => "Quit"
    case DoorClosed => "Quit"
    case Jog => "Jog Cancel"
    case _ => ""
  }

  /** The label `reDisplay` puts over the green button. */
  function GreenLegend(state: State, lastAlarm: int): string
  {
    match state
    case Alarm => if AlarmIsHoming(lastAlarm) then "Home All" else ""
    case Cycle => "Hold"
    case Hold => "Resume"
    case DoorClosed => "Resume"
    case _ => ""
  }

  /** The label `reDisplay` puts over the dial. */
  function DialLegend(state: State): string
  {
    if state in {Cycle, Hold, DoorClosed} then "Rst Ovr" else "Back"
  }

  /** The red label and the red button agree everywhere except while
      jogging, where "Jog Cancel" is shown but red sends nothing. */
  lemma RedLegendMatchesAction(state: State, lastAlarm: int)
    ensures state != Jog ==> (RedLegend(state, lastAlarm) != "" <==> RedEffects(state, lastAlarm) != [])
    ensures state == Jog ==> RedLegend(state, lastAlarm) != "" && RedEffects(state, lastAlarm) == []
  {
  }

  /** Green does more than ask for a report exactly when it has a label. */
  lemma GreenLegendMatchesAction(state: State, lastAlarm: int)
    ensures GreenLegend(state, lastAlarm) != "" <==> |GreenEffects(state, lastAlarm)| == 2
  {
  }

  /** The dial goes back exactly when its label says so, except with the
      door closed, where "Rst Ovr" is shown but the dial goes back. */
  lemma DialLegendMatchesAction(state: State, o: Override)
    ensures state != DoorClosed ==> (DialLegend(state) == "Back" <==> DialEffects(state, o) == [Pop(NoArg)])
    ensures state == DoorClosed ==> DialLegend(state) == "Rst Ovr" && DialEffects(state, o) == [Pop(NoArg)]
  {
  }

  /** `StatusScene`: the override read-out and the effects of its
      handlers. Machine state, the last alarm and the overrides are
      inputs from the controller's reports. */
  class StatusScene {
    var overdDisplay: Override
    var log: seq<Effect>

    constructor ()
      ensures overdDisplay == Fro && log == []
    {
      overdDisplay := Fro;
      log := [];
    }

    method OnDialButtonPress(state: State)
      modifies this`log
      ensures log == old(log) + DialEffects(state, overdDisplay)
    {
      if state == Cycle || state == Hold {
        if overdDisplay == Fro {
          log := log + [Send(Rt(FeedOvrReset))];
        } else if overdDisplay == Sro {
          log := log + [Send(Rt(SpindleOvrReset))];
        }
      } else {
        log := log + [Pop(NoArg)];
      }
    }

    /** A job that ends goes back to where it was started from, unless that
      was the main menu. Whether the parent scene is the main menu is an
      input. */
    method OnStateChange(oldState: State, state: State, parentIsMenu: bool)
      modifies this`log
      ensures log == old(log) + (if oldState == Cycle && state == Idle && !parentIsMenu then [Pop(NoArg)] else [])
    {
      if oldState == Cycle && state == Idle && !parentIsMenu {
        log := log + [Pop(NoArg)];
      }
    }

    /** A touch below `y = 150` while running or held moves the read-out
      on; every touch asks for a status report. */
    method OnTouchClick(state: State, touchY: int)
      modifies this`overdDisplay, this`log
      ensures touchY > 150 && (state == Cycle || state == Hold) ==>
                overdDisplay == NextOverride(old(overdDisplay)) && log == old(log) + [ReDisplay, Send(Rt(StatusReport))]
      ensures !(touchY > 150 && (state == Cycle || state == Hold)) ==>
                overdDisplay == old(overdDisplay) && log == old(log) + [Send(Rt(StatusReport))]
    {
      if touchY > 150 && (state == Cycle || state == Hold) {
        match overdDisplay {
          case Fro => overdDisplay := Sro;
          case Sro => overdDisplay := RtFeedSpeed;
          case RtFeedSpeed => overdDisplay := Fro;
        }
        log := log + [ReDisplay];
      }
      log := log + [Send(Rt(StatusReport))];
    }

    method OnRedButtonPress(state: State, lastAlarm: int)
      modifies this`log
      ensures log == old(log) + RedEffects(state, lastAlarm)
    {
      match state {
        case Alarm =>
          if AlarmIsCritical(lastAlarm) {
            log := log + [Send(Rt(Reset))];
          } else {
            log := log + [Send(Line("$X"))];
          }
        case Cycle => log := log + [Send(Rt(Reset))];
        case Homing => log := log + [Send(Rt(Reset))];
        case Hold => log := log + [Send(Rt(Reset))];
        case DoorClosed => log := log + [Send(Rt(Reset))];
        case _ =>
      }
    }

    method OnGreenButtonPress(state: State, lastAlarm: int)
      modifies this`log
      ensures log == old(log) + GreenEffects(state, lastAlarm)
    {
      match state {
        case Cycle => log := log + [Send(Rt(FeedHold))];
        case Hold => log := log + [Send(Rt(CycleStart))];
        case DoorClosed => log := log + [Send(Rt(CycleStart))];
        case Alarm =>
          if AlarmIsHoming(lastAlarm) {
            log := log + [Send(Line("$H"))];
          }
        case _ =>
      }
      log := log + [Send(Rt(StatusReport))];
    }

    /** The encoder acts only while a job runs, and then always redisplays. */
    method OnEncoder(state: State, delta: int, myFro: int, mySro: int)
      modifies this`overdDisplay, this`log
      ensures state != Cycle ==> overdDisplay == old(overdDisplay) && log == old(log)
      ensures state == Cycle ==>
                var r := EncoderStep(old(overdDisplay), delta, myFro, mySro);
                overdDisplay == r.1 && log == old(log) + r.0 + [ReDisplay]
    {
      if state == Cycle {
        match overdDisplay {
          case Fro =>
            if delta > 0 && myFro < 200 {
              log := log + [Send(Rt(FeedOvrFinePlus))];
            } else if delta < 0 && myFro > 10 {
              log := log + [Send(Rt(FeedOvrFineMinus))];
            }
          case Sro =>
            if delta > 0 && mySro < 200 {
              log := log + [Send(Rt(SpindleOvrFinePlus))];
            } else if delta < 0 && mySro > 10 {
              log := log + [Send(Rt(SpindleOvrFineMinus))];
            }
          case RtFeedSpeed =>
            overdDisplay := Fro;
        }
        log := log + [ReDisplay];
      }
    }

    method OnDroChange()
      modifies this`log
      ensures log == old(log) + [ReDisplay]
    {
      log := log + [ReDisplay];
    }
  }
}
