/** The file browser: a selection that scrolls through the controller's
    file list, and a directory stack made of the path, its depth and the
    selection remembered at each level. */
module FileSelect {
  import opened CArith
  import opened Effects
  import opened Text
  import Navigation

  /** One entry of the file list the controller sent. */
  datatype FileInfo = FileInfo(fileName: string, fileSize: nat, isDir: bool)

  /** `format_size`: megabytes with three decimals from a million bytes
      on, kilobytes with three decimals above a thousand, else bytes. */
  function FormatSize(size: nat): (s: string)
    ensures size >= 1000000 <==> EndsWith(s, " MB")
    ensures 1000 < size < 1000000 <==> EndsWith(s, " KB")
    ensures size <= 1000 <==> EndsWith(s, " bytes")
  {
    if size >= 1000000 then
      NatToDecimal(size / 1000000) + "." + ZeroPad3(size % 1000000 / 1000) + " MB"
    else if size > 1000 then
      NatToDecimal(size / 1000) + "." + ZeroPad3(size % 1000) + " KB"
    else
      var s := NatToDecimal(size) + " bytes";
      assert s[|s| - 3..] == "tes";
      s
  }

  predicate EndsWith(s: string, suffix: string)
  {
    |suffix| <= |s| && s[|s| - |suffix|..] == suffix
  }

  /** Reads back a `<digits>.<three digits>` number as thousandths. */
  function ReadThousandths(s: string): Option<nat>
  {
    if |s| >= 5 && s[|s| - 4] == '.' && AllDigits(s[..|s| - 4]) && AllDigits(s[|s| - 3..]) then
      Some(DecimalValue(s[..|s| - 4]) * 1000 + DecimalValue(s[|s| - 3..]))
    else None
  }

  /** Reads a displayed size back as a number of bytes. */
  function ReadSize(s: string): Option<nat>
  {
    if EndsWith(s, " bytes") && |s| > 6 && AllDigits(s[..|s| - 6]) then Some(DecimalValue(s[..|s| - 6]))
    else if EndsWith(s, " KB") then ReadThousandths(s[..|s| - 3])
    else if EndsWith(s, " MB") then
      var v := ReadThousandths(s[..|s| - 3]);
      if v.Some? then Some(v.value * 1000) else None
    else None
  }

  lemma ReadNumber(whole: nat, frac: nat)
    requires frac < 1000
    ensures ReadThousandths(NatToDecimal(whole) + "." + ZeroPad3(frac)) == Some(whole * 1000 + frac)
  {
    var w, f := NatToDecimal(whole), ZeroPad3(frac);
    var s := w + "." + f;
    assert s[..|s| - 4] == w;
    assert s[|s| - 3..] == f;
    DecimalRoundTrip(whole);
  }

  /** What `format_size` shows is the size, exactly below a million bytes
      and cut to whole thousands from there on. */
  lemma FormatSizeReadsBack(size: nat)
    ensures ReadSize(FormatSize(size)) == Some(if size >= 1000000 then size - size % 1000 else size)
  {
    if size >= 1000000 {
      MegabytesReadBack(size);
    } else if size > 1000 {
      KilobytesReadBack(size);
    } else {
      var s := FormatSize(size);
      assert s[..|s| - 6] == NatToDecimal(size);
      DecimalRoundTrip(size);
    }
  }

  lemma MegabytesReadBack(size: nat)
    requires size >= 1000000
    ensures ReadSize(FormatSize(size)) == Some(size - size % 1000)
  {
    var s := FormatSize(size);
    var t := NatToDecimal(size / 1000000) + "." + ZeroPad3(size % 1000000 / 1000);
    assert s[..|s| - 3] == t;
    ReadNumber(size / 1000000, size % 1000000 / 1000);
    MegaThousands(size);
  }

  lemma KilobytesReadBack(size: nat)
    requires 1000 < size < 1000000
    ensures ReadSize(FormatSize(size)) == Some(size)
  {
    var s := FormatSize(size);
    var t := NatToDecimal(size / 1000) + "." + ZeroPad3(size % 1000);
    assert s[..|s| - 3] == t;
    assert !EndsWith(s, " bytes");
    ReadNumber(size / 1000, size % 1000);
  }

  /** Whole megabytes and the thousands below them make whole thousands. */
  lemma MegaThousands(size: nat)
    ensures (size / 1000000 * 1000 + size % 1000000 / 1000) * 1000 == size - size % 1000
  {
    var a, r := size / 1000000, size % 1000000;
    EuclidNat(size, 1000000);
    var b, c := r / 1000, r % 1000;
    EuclidNat(r, 1000);
    assert size == (a * 1000 + b) * 1000 + c;
    ModUnique(size, a * 1000 + b, c, 1000);
  }

  /** The boundaries: exactly a thousand bytes is still shown in bytes,
      one byte more is shown in kilobytes, a million bytes in megabytes. */
  lemma FormatSizeThousand()
    ensures FormatSize(1000) == "1000 bytes"
  {
    ThousandDigits();
  }

  lemma FormatSizeAboveThousand()
    ensures FormatSize(1001) == "1.001 KB"
  {
    assert NatToDecimal(1) == "1";
    OneDigits();
  }

  lemma FormatSizeMillion()
    ensures FormatSize(1000000) == "1.000 MB"
  {
    assert NatToDecimal(1) == "1";
    ZeroDigits();
  }

  lemma ThousandDigits()
    ensures NatToDecimal(1000) == "1000"
  {
    assert NatToDecimal(1) == "1";
    assert NatToDecimal(10) == "10";
    assert NatToDecimal(100) == "100";
  }

  lemma OneDigits()
    ensures ZeroPad3(1) == "001"
  {
    assert DigitChar(0) == '0' && DigitChar(1) == '1';
  }

  lemma ZeroDigits()
    ensures ZeroPad3(0) == "000"
  {
    assert DigitChar(0) == '0';
  }

  /** Where `scroll` moves the selection in a list of `n` files, or None
      when it refuses to move. */
  function ScrollTarget(sel: int, updown: int, n: nat): (r: Option<int>)
    ensures n < 3 ==> (r.Some? <==> 0 <= sel + updown < n)
    ensures n >= 3 ==> r.Some?
    ensures r.Some? ==> 0 <= r.value < n
    ensures 0 <= sel + updown < n ==> r == Some(sel + updown)
    ensures n >= 3 && sel + updown < 0 ==> r == Some(n - 1)
    ensures n >= 3 && sel + updown >= n ==> r == Some(0)
  {
    var next := sel + updown;
    if n < 3 then
      if next < 0 || next > n - 1 then None else Some(next)
    else if next < 0 then Some(n - 1)
    else if next > n - 1 then Some(0)
    else Some(next)
  }

  /** The position of the last `/` in `s`, if any. */
  function LastSlash(s: string): (r: Option<nat>)
    ensures r.Some? ==> r.value < |s| && s[r.value] == '/' && '/' !in s[r.value + 1..]
    ensures r.None? ==> '/' !in s
  {
    if s == [] then None
    else if s[|s| - 1] == '/' then Some(|s| - 1)
    else
      var r := LastSlash(s[..|s| - 1]);
      assert s == s[..|s| - 1] + [s[|s| - 1]];
      r
  }

  /** The directory above `dir`: `dirName` cut at its last `/`. */
  function Parent(dir: string): string
  {
    var p := LastSlash(dir);
    if p.Some? then dir[..p.value] else dir
  }

  /** Going into a folder and back out restores the path when the folder's
      name holds no `/`. */
  lemma {:induction false} ParentOfChild(dir: string, name: string)
    requires '/' !in name
    ensures Parent(dir + "/" + name) == dir
  {
    var s := dir + "/" + name;
    LastSlashAfter(dir + "/", name);
    assert LastSlash(dir + "/") == Some(|dir|);
    assert s[..|dir|] == dir;
  }

  lemma {:induction false} LastSlashAfter(s: string, name: string)
    requires '/' !in name
    ensures LastSlash(s + name) == LastSlash(s)
    decreases |name|
  {
    if name != [] {
      var t := s + name;
      assert t[..|t| - 1] == s + name[..|name| - 1];
      assert t[|t| - 1] == name[|name| - 1];
      LastSlashAfter(s, name[..|name| - 1]);
    } else {
      assert s + name == s;
    }
  }

  /** `FileSelectScene`: the selected entry, the selection remembered at
      each directory level, the path and its depth, whether a touch began
      here, and the effects of its handlers. */
  class FileSelectScene {
    var selectedFile: int
    var prevSelect: seq<int>
    var dirName: string
    var dirLevel: int
    var selectingFile: bool
    var log: seq<Effect>
    /** Raw encoder ticks per step the scene sees. */
    const scale: Navigation.Scale

    /** One remembered selection per level, the root's included. */
    predicate Valid()
      reads this
    {
      dirLevel >= 0 && |prevSelect| == dirLevel + 1
    }

    /** The scene as constructed, before its first entry, with an encoder
      scale of 4. */
    constructor ()
      ensures selectedFile == 0 && prevSelect == [] && dirName == "/sd" && dirLevel == 0
      ensures !selectingFile && log == [] && scale == 4
    {
      scale := 4;
      selectedFile := 0;
      prevSelect := [];
      dirName := "/sd";
      dirLevel := 0;
      selectingFile := false;
      log := [];
    }

    /** `onEntry`: the root's remembered selection is created on the first
      entry only. */
    method OnEntry(arg: Arg)
      requires Valid() || (prevSelect == [] && dirLevel == 0)
      modifies this`prevSelect
      ensures Valid()
      ensures old(prevSelect) == [] ==> prevSelect == [0]
      ensures old(prevSelect) != [] ==> prevSelect == old(prevSelect)
    {
      if |prevSelect| == 0 {
        prevSelect := prevSelect + [0];
      }
    }

    method OnDialButtonPress()
      modifies this`log
      ensures log == old(log) + [Pop(NoArg)]
    {
      log := log + [Pop(NoArg)];
    }

    /** `onGreenButtonPress`, in `Idle` only: the selection is remembered
      at the current level; a folder is entered and its list requested,
      a file is opened in the preview with its full path. */
    method OnGreenButtonPress(state: State, files: seq<FileInfo>)
      requires Valid() && (files != [] ==> 0 <= selectedFile < |files|)
      modifies this`prevSelect, this`dirName, this`dirLevel, this`log
      ensures Valid()
      ensures state != Idle ==> prevSelect == old(prevSelect) && dirName == old(dirName)
                                && dirLevel == old(dirLevel) && log == old(log)
      ensures state == Idle && files == [] ==>
                prevSelect == old(prevSelect) && dirName == old(dirName) && dirLevel == old(dirLevel)
                && log == old(log) + [Beep]
      ensures state == Idle && files != [] && files[selectedFile].isDir ==>
                prevSelect == old(prevSelect)[|old(prevSelect)| - 1 := selectedFile] + [0]
                && dirName == old(dirName) + "/" + files[selectedFile].fileName
                && dirLevel == old(dirLevel) + 1
                && log == old(log) + [Send(RequestFileList(dirName)), Beep]
      ensures state == Idle && files != [] && !files[selectedFile].isDir ==>
                prevSelect == old(prevSelect)[|old(prevSelect)| - 1 := selectedFile]
                && dirName == old(dirName) && dirLevel == old(dirLevel)
                && log == old(log) + [Push(FilePreviewSceneId, Str(dirName + "/" + files[selectedFile].fileName)), Beep]
    {
      if state != Idle {
        return;
      }
      if |files| > 0 {
        var info := files[selectedFile];
        prevSelect := prevSelect[|prevSelect| - 1 := selectedFile];
        if info.isDir {
          prevSelect := prevSelect + [0];
          dirName := dirName + "/";
          dirName := dirName + info.fileName;
          dirLevel := dirLevel + 1;
          log := log + [Send(RequestFileList(dirName))];
        } else {
          var path := dirName;
          path := path + "/";
          path := path + info.fileName;
          log := log + [Push(FilePreviewSceneId, Str(path))];
        }
      }
      log := log + [Beep];
    }

    /** `onRedButtonPress`, in `Idle` only: below the root, up one level
      and its list requested; at the root, the remembered selections are
      reset and the root list asked for again. */
    method OnRedButtonPress(state: State)
      requires Valid()
      modifies this`prevSelect, this`dirName, this`dirLevel, this`log
      ensures Valid()
      ensures state != Idle ==> prevSelect == old(prevSelect) && dirName == old(dirName)
                                && dirLevel == old(dirLevel) && log == old(log)
      ensures state == Idle && old(dirLevel) != 0 ==>
                prevSelect == old(prevSelect)[..|old(prevSelect)| - 1]
                && dirName == Parent(old(dirName)) && dirLevel == old(dirLevel) - 1
                && log == old(log) + [Send(RequestFileList(dirName)), Beep]
      ensures state == Idle && old(dirLevel) == 0 ==>
                prevSelect == [0] && dirName == old(dirName) && dirLevel == 0
                && log == old(log) + [Send(InitFileList), Beep]
    {
      if state != Idle {
        return;
      }
      if dirLevel != 0 {
        prevSelect := prevSelect[..|prevSelect| - 1];
        var pos := LastSlash(dirName);
        dirName := if pos.Some? then dirName[..pos.value] else dirName;
        dirLevel := dirLevel - 1;
        log := log + [Send(RequestFileList(dirName))];
      } else {
        prevSelect := [];
        prevSelect := prevSelect + [0];
        log := log + [Send(InitFileList)];
      }
      log := log + [Beep];
    }

    method OnTouchPress()
      modifies this`selectingFile
      ensures selectingFile
    {
      selectingFile := true;
    }

    /** A touch release acts as the green button only after a touch press
      on this scene. */
    method OnTouchRelease(state: State, files: seq<FileInfo>)
      requires Valid() && (files != [] ==> 0 <= selectedFile < |files|)
      modifies this`selectingFile, this`prevSelect, this`dirName, this`dirLevel, this`log
      ensures Valid() && !selectingFile
      ensures !old(selectingFile) ==> prevSelect == old(prevSelect) && dirName == old(dirName)
                                      && dirLevel == old(dirLevel) && log == old(log)
      ensures old(selectingFile) && state != Idle ==>
                prevSelect == old(prevSelect) && dirName == old(dirName) && dirLevel == old(dirLevel) && log == old(log)
      ensures old(selectingFile) && state == Idle && files == [] ==>
                prevSelect == old(prevSelect) && dirName == old(dirName) && dirLevel == old(dirLevel)
                && log == old(log) + [Beep]
      ensures old(selectingFile) && state == Idle && files != [] && files[selectedFile].isDir ==>
                prevSelect == old(prevSelect)[|old(prevSelect)| - 1 := selectedFile] + [0]
                && dirName == old(dirName) + "/" + files[selectedFile].fileName
                && dirLevel == old(dirLevel) + 1
                && log == old(log) + [Send(RequestFileList(dirName)), Beep]
      ensures old(selectingFile) && state == Idle && files != [] && !files[selectedFile].isDir ==>
                prevSelect == old(prevSelect)[|old(prevSelect)| - 1 := selectedFile]
                && dirName == old(dirName) && dirLevel == old(dirLevel)
                && log == old(log) + [Push(FilePreviewSceneId, Str(dirName + "/" + files[selectedFile].fileName)), Beep]
    {
      if selectingFile {
        selectingFile := false;
        OnGreenButtonPress(state, files);
      }
    }

    /** `onFilesList`: the selection remembered for this level comes back. */
    method OnFilesList()
      requires Valid()
      modifies this`selectedFile, this`log
      ensures selectedFile == prevSelect[|prevSelect| - 1]
      ensures log == old(log) + [ReDisplay]
    {
      selectedFile := prevSelect[|prevSelect| - 1];
      log := log + [ReDisplay];
    }

    /** `scroll` (the encoder): with fewer than three files a move off the
      list is refused, otherwise it wraps once to the other end. */
    method Scroll(updown: int, files: seq<FileInfo>)
      modifies this`selectedFile, this`log
      ensures var t := ScrollTarget(old(selectedFile), updown, |files|);
              (t.None? ==> selectedFile == old(selectedFile) && log == old(log))
              && (t.Some? ==> selectedFile == t.value && log == old(log) + [ReDisplay])
    {
      var nextSelect := selectedFile + updown;
      if |files| < 3 {
        if nextSelect < 0 || nextSelect > |files| - 1 {
          return;
        }
      } else {
        if nextSelect < 0 {
          nextSelect := |files| - 1;
        } else if nextSelect > |files| - 1 {
          nextSelect := 0;
        }
      }
      selectedFile := nextSelect;
      log := log + [ReDisplay];
    }

    /** A right flick goes straight to the jog scene. */
    method OnRightFlick()
      modifies this`log
      ensures log == old(log) + [Activate(JogSceneId, NoArg)]
    {
      log := log + [Activate(JogSceneId, NoArg)];
    }
  }
}
