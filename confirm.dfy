/** The confirm scene: a question shown until one of the buttons answers
    it by going back with the answer as the argument. */
module Confirm {
  import opened Effects

  /** The argument each answer goes back with: only green confirms. */
  function Answer(green: bool): (a: Arg)
    ensures a.Str? <==> green
    ensures green ==> a == Str("Confirmed")
  {
    if green then Str("Confirmed") else NoArg
  }

  class ConfirmScene {
    var msg: string
    var log: seq<Effect>

    constructor ()
      ensures msg == "" && log == []
    {
      msg := "";
      log := [];
    }

    /** `onEntry`: the question to show is the argument. A missing argument
      is not constructed by any caller and is not modelled. */
    method OnEntry(arg: Arg)
      requires arg.Str?
      modifies this`msg
      ensures msg == arg.text
    {
      msg := arg.text;
    }

    method OnRedButtonPress()
      modifies this`log
      ensures log == old(log) + [Pop(Answer(false))]
    {
      log := log + [Pop(NoArg)];
    }

    method OnGreenButtonPress()
      modifies this`log
      ensures log == old(log) + [Pop(Answer(true))]
    {
      log := log + [Pop(Str("Confirmed"))];
    }

    method OnDialButtonPress()
      modifies this`log
      ensures log == old(log) + [Pop(Answer(false))]
    {
      log := log + [Pop(NoArg)];
    }
  }
}
