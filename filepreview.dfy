/** The file preview: a window of seven lines of a file on the
    controller, paged by the encoder, with the lines that arrived kept in a
    map from line number to text. */
module FilePreview {
  import opened Effects
  import Navigation

  /** How many lines one request asks for. */
  const NLines := 7

  /** Where `scroll` moves the first line, or None when it stays: a zero
      step, or a step that would go above the top of the file. */
  function PageTarget(first: int, updown: int): (r: Option<int>)
    ensures r.Some? <==> updown != 0 && first + updown >= 0
    ensures r.Some? ==> r.value == first + updown && r.value >= 0
  {
    if updown == 0 then None
    else if first + updown >= 0 then Some(first + updown)
    else None
  }

  /** The lines of one answer keyed by their line numbers, the first one
      numbered `first`. */
  function LinesFrom(first: int, ls: seq<string>): (m: map<int, string>)
    ensures forall k :: k in m <==> first <= k < first + |ls|
    ensures forall k :: first <= k < first + |ls| ==> m[k] == ls[k - first]
    decreases |ls|
  {
    if ls == [] then map[]
    else LinesFrom(first, ls[..|ls| - 1])[first + |ls| - 1 := ls[|ls| - 1]]
  }

  /** Paging down and back up by the same step returns to the same first
      line, as long as the first step was taken. */
  lemma PageBack(first: int, updown: int)
    requires first >= 0 && PageTarget(first, updown).Some?
    ensures PageTarget(PageTarget(first, updown).value, -updown) == Some(first)
  {
  }

  /** `FilePreviewScene`: the last error, the file shown, whether lines are
      awaited, the first line shown, the lines received, and the effects
      of its handlers. */
  class FilePreviewScene {
    var errorString: string
    var filename: string
    var needLines: bool
    var firstLine: int
    var lines: map<int, string>
    var log: seq<Effect>
    /** Raw encoder ticks per step the scene sees. */
    const scale: Navigation.Scale

    /** The first line shown is never above the top of the file. */
    predicate Valid()
      reads this
    {
      firstLine >= 0
    }

    /** The scene as constructed, with an encoder scale of 4. */
    constructor ()
      ensures Valid() && errorString == "" && filename == "" && !needLines
      ensures firstLine == 0 && lines == map[] && log == [] && scale == 4
    {
      scale := 4;
      errorString := "";
      filename := "";
      needLines := false;
      firstLine := 0;
      lines := map[];
      log := [];
    }

    /** `get_lines`: the window starting at the first line is requested. */
    method GetLines()
      modifies this`needLines, this`log
      ensures needLines
      ensures log == old(log) + [Send(RequestFilePreview(filename, firstLine, NLines))]
    {
      needLines := true;
      log := log + [Send(RequestFilePreview(filename, firstLine, NLines))];
    }

    /** `onEntry`: a file name argument selects the file and requests its
      lines; without one nothing is awaited. */
    method OnEntry(arg: Arg)
      modifies this`filename, this`needLines, this`log
      ensures arg.Str? ==> filename == arg.text && needLines
                           && log == old(log) + [Send(RequestFilePreview(arg.text, firstLine, NLines))]
      ensures arg.NoArg? ==> filename == old(filename) && !needLines && log == old(log)
    {
      if arg.Str? {
        filename := arg.text;
        GetLines();
      } else {
        needLines := false;
      }
    }

    /** `onFileLines`: the map is replaced by the arriving lines, numbered
      from `first`; the error is cleared and nothing is awaited. */
    method OnFileLines(first: int, ls: seq<string>)
      modifies this`errorString, this`needLines, this`lines, this`log
      ensures errorString == "" && !needLines
      ensures lines == LinesFrom(first, ls)
      ensures log == old(log) + [ReDisplay]
    {
      errorString := "";
      needLines := false;
      var m: map<int, string> := map[];
      var line := first;
      var i := 0;
      while i < |ls|
        invariant 0 <= i <= |ls| && line == first + i
        invariant m == LinesFrom(first, ls[..i])
      {
        assert ls[..i + 1][..i] == ls[..i];
        m := m[line := ls[i]];
        line := line + 1;
        i := i + 1;
      }
      assert ls[..i] == ls;
      lines := m;
      log := log + [ReDisplay];
    }

    method OnError(err: string)
      modifies this`errorString, this`log
      ensures errorString == err && log == old(log) + [ReDisplay]
    {
      errorString := err;
      log := log + [ReDisplay];
    }

    /** `scroll` (the encoder): the first line moves and the new window is
      requested exactly when `PageTarget` allows the move. */
    method Scroll(updown: int)
      requires Valid()
      modifies this`firstLine, this`needLines, this`log
      ensures Valid()
      ensures var t := PageTarget(old(firstLine), updown);
              (t.None? ==> firstLine == old(firstLine) && needLines == old(needLines) && log == old(log))
              && (t.Some? ==> firstLine == t.value && needLines
                              && log == old(log) + [Send(RequestFilePreview(filename, t.value, NLines))])
    {
      if updown == 0 {
        return;
      }
      var fl := firstLine;
      fl := fl + updown;
      if fl >= 0 {
        firstLine := fl;
        GetLines();
      }
    }

    method OnDialButtonPress()
      modifies this`log
      ensures log == old(log) + [Pop(NoArg)]
    {
      log := log + [Pop(NoArg)];
    }

    /** Red goes back, in `Idle` only. */
    method OnRedButtonPress(state: State)
      modifies this`log
      ensures log == old(log) + (if state == Idle then [Pop(NoArg), Beep] else [])
    {
      if state == Idle {
        log := log + [Pop(NoArg)];
        log := log + [Beep];
      }
    }

    /** Green runs the file from the SD card, in `Idle` only. */
    method OnGreenButtonPress(state: State)
      modifies this`log
      ensures log == old(log) + (if state == Idle then [Send(Line("$SD/Run=" + filename)), Beep] else [])
    {
      if state == Idle {
        log := log + [Send(Line("$SD/Run=" + filename))];
        log := log + [Beep];
      }
    }

    method OnDroChange()
      modifies this`log
      ensures log == old(log) + [ReDisplay]
    {
      log := log + [ReDisplay];
    }

    /** Starting a job shows the status scene. */
    method OnStateChange(state: State)
      modifies this`log
      ensures log == old(log) + (if state == Cycle then [Push(StatusSceneId, NoArg)] else [])
    {
      if state == Cycle {
        log := log + [Push(StatusSceneId, NoArg)];
      }
    }
  }
}
