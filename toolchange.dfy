/** The tool change scene: a tool number chosen with the encoder, rolling
    over within `[0, 255]`, and the buttons that load or select it. */
module ToolChange {
  import opened Effects
  import opened Text
  import Navigation

  /** The highest tool number the encoder reaches. */
  const MaxTool := 255

  /** `onRedButtonPress`: select the chosen tool when idle; reset when
      running or held; nothing otherwise. */
  function RedEffects(state: State, newTool: int): (es: seq<Effect>)
    ensures state == Idle ==> es == [Send(Line("T" + IntToDecimal(newTool)))]
    ensures state == Hold || state == Cycle ==> es == [Send(Rt(Reset))]
    ensures es == [] <==> state !in {Idle, Hold, Cycle}
  {
    match state
    case Idle => [Send(Line("T" + IntToDecimal(newTool)))]
    case Hold => [Send(Rt(Reset))]
    case Cycle => [Send(Rt(Reset))]
    case _ => []
  }

  /** `onGreenButtonPress`: change tool when idle, resume when held, hold
      when running; nothing otherwise. */
  function GreenEffects(state: State): (es: seq<Effect>)
    ensures state == Idle ==> es == [Send(Line("M6"))]
    ensures state == Hold ==> es == [Send(Rt(CycleStart))]
    ensures state == Cycle ==> es == [Send(Rt(FeedHold))]
    ensures es == [] <==> state !in {Idle, Hold, Cycle}
  {
    match state
    case Idle => [Send(Line("M6"))]
    case Hold => [Send(Rt(CycleStart))]
    case Cycle => [Send(Rt(FeedHold))]
    case _ => []
  }

  /** Red and green never send the same thing when the machine is not idle:
      red stops the job, green holds or resumes it. */
  lemma RedGreenDiffer(state: State, newTool: int)
    requires state != Idle && RedEffects(state, newTool) != []
    ensures GreenEffects(state) != [] && RedEffects(state, newTool) != GreenEffects(state)
  {
  }

  class ToolChangeScene {
    var newTool: int
    var log: seq<Effect>
    /** Raw encoder ticks per step the scene sees. */
    const scale: Navigation.Scale

    predicate Valid()
      reads this
    {
      0 <= newTool <= MaxTool
    }

    /** The scene as constructed, with an encoder scale of 4. */
    constructor ()
      ensures Valid() && newTool == 0 && log == [] && scale == 4
    {
      scale := 4;
      newTool := 0;
      log := [];
    }

    method OnDialButtonPress()
      modifies this`log
      ensures log == old(log) + [Pop(NoArg)]
    {
      log := log + [Pop(NoArg)];
    }

    method OnRedButtonPress(state: State)
      modifies this`log
      ensures log == old(log) + RedEffects(state, newTool)
    {
      match state {
        case Idle => log := log + [Send(Line("T" + IntToDecimal(newTool)))];
        case Hold => log := log + [Send(Rt(Reset))];
        case Cycle => log := log + [Send(Rt(Reset))];
        case _ =>
      }
    }

    method OnGreenButtonPress(state: State)
      modifies this`log
      ensures log == old(log) + GreenEffects(state)
    {
      match state {
        case Idle => log := log + [Send(Line("M6"))];
        case Hold => log := log + [Send(Rt(CycleStart))];
        case Cycle => log := log + [Send(Rt(FeedHold))];
        case _ =>
      }
    }

    /** A touch sets the chosen tool as the current one, when idle. */
    method OnTouchClick(state: State)
      modifies this`log
      ensures log == old(log) + (if state == Idle then [Send(Line("M61Q" + IntToDecimal(newTool)))] else [])
    {
      if state == Idle {
        log := log + [Send(Line("M61Q" + IntToDecimal(newTool)))];
      }
    }

    /** `onEncoder`: a non-zero step rolls the tool number over within
      `[0, 255]` and redisplays; a zero step does nothing. */
    method OnEncoder(delta: int)
      requires Valid()
      modifies this`newTool, this`log
      ensures Valid()
      ensures delta == 0 ==> newTool == old(newTool) && log == old(log)
      ensures delta != 0 ==> newTool == Navigation.RotateNumberLoop(old(newTool), delta, 0, MaxTool)
                             && log == old(log) + [ReDisplay]
    {
      if delta != 0 {
        newTool := Navigation.RotateNumberLoop(newTool, delta, 0, MaxTool);
        log := log + [ReDisplay];
      }
    }

    method OnStateChange(oldState: State)
      modifies this`log
      ensures log == old(log) + [ReDisplay]
    {
      log := log + [ReDisplay];
    }
  }
}
