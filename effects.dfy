/** The vocabulary the scenes share: the controller's machine state, the
    commands a scene sends to the controller, the scenes a handler can
    navigate to, and the effects a handler has on the world outside it. */
module Effects {

  datatype Option<T> = None | Some(value: T)

  /** The controller state a scene reacts to. The states that the scenes
      name are listed; every other state of the controller is `OtherState`. */
  datatype State = Idle | Alarm | Homing | Cycle | Hold | Jog | DoorClosed | Disconnected | OtherState

  /** Single-byte realtime commands (`fnc_realtime`). */
  datatype Realtime =
    | StatusReport | Reset | FeedHold | CycleStart
    | FeedOvrReset | SpindleOvrReset
    | FeedOvrFinePlus | FeedOvrFineMinus
    | SpindleOvrFinePlus | SpindleOvrFineMinus

  /** What goes down the link to the controller: realtime bytes,
      text lines (`send_line`) and the file and macro requests. */
  datatype Command =
    | Rt(rt: Realtime)
    | Line(text: string)
    | RequestMacros
    | RequestFileList(dir: string)
    | InitFileList
    | RequestFilePreview(name: string, first: int, count: int)

  /** The scenes that handlers navigate to by name. */
  datatype SceneId =
    | MenuSceneId | StatusSceneId | HomingSceneId | JogSceneId | ProbingSceneId
    | ToolChangeSceneId | FileSelectSceneId | FilePreviewSceneId | MacroMenuId
    | AboutSceneId | PowerSceneId | ConfirmSceneId

  /** The `void*` argument of `onEntry`, `push_scene` and `pop_scene`:
      every caller passes a C string or nothing. */
  datatype Arg = NoArg | Str(text: string)

  /** One observable effect of a scene handler, in the order it happens. */
  datatype Effect =
    | Send(cmd: Command)
    | Push(target: SceneId, arg: Arg)
    | Pop(arg: Arg)
    | Activate(target: SceneId, arg: Arg)
    | SetDisconnectedState
    | SetBrightness(level: int)
    | Beep
    | ReDisplay
}
