/** The main menu: eight icons, each opening a scene, all usable while the
    controller is connected and only "About" while it is not. */
module MainMenu {
  import opened Effects

  /** An icon of the menu: its caption and the scene it opens. */
  datatype Button = Button(caption: string, target: SceneId)

  /** The icons in the order `initMenus` adds them. */
  const Buttons: seq<Button> := [
    Button("Status", StatusSceneId), Button("Homing", HomingSceneId),
    Button("Jog", JogSceneId), Button("Probe", ProbingSceneId),
    Button("Tools", ToolChangeSceneId), Button("Files", FileSelectSceneId),
    Button("Macros", MacroMenuId), Button("About", AboutSceneId)]

  /** Where "About" is among the icons. */
  const AboutIndex := 7

  /** Which icons are usable in a given machine state. */
  function IconsFor(state: State): (enabled: seq<bool>)
    ensures |enabled| == |Buttons|
    ensures forall i :: 0 <= i < |enabled| ==> (enabled[i] <==> state != Disconnected || i == AboutIndex)
  {
    if state == Disconnected then [false, false, false, false, false, false, false, true]
    else [true, true, true, true, true, true, true, true]
  }

  /** While the controller is disconnected the only scene the menu opens is
      "About". */
  lemma DisconnectedOpensOnlyAbout(i: int)
    requires 0 <= i < |Buttons| && IconsFor(Disconnected)[i]
    ensures Buttons[i].target == AboutSceneId
  {
  }

  /** Every icon opens a different scene. */
  lemma ButtonTargetsDistinct(i: int, j: int)
    requires 0 <= i < j < |Buttons|
    ensures Buttons[i].target != Buttons[j].target
  {
  }

  /** `MenuScene`: its items, which icons are enabled (in the order of
      `Buttons`), and the effects of its handlers. */
  class MenuScene {
    var items: seq<Button>
    var enabled: seq<bool>
    var log: seq<Effect>

    constructor ()
      ensures items == [] && enabled == IconsFor(Idle) && log == []
    {
      items := [];
      enabled := [true, true, true, true, true, true, true, true];
      log := [];
    }

    /** `disableIcons`: every icon but "About" is disabled, and "About" is
      enabled. */
    method DisableIcons()
      modifies this`enabled
      ensures enabled == IconsFor(Disconnected)
    {
      enabled := [false, false, false, false, false, false, false, true];
    }

    /** `enableIcons`: all eight icons are enabled. */
    method EnableIcons()
      modifies this`enabled
      ensures enabled == IconsFor(Idle)
    {
      enabled := [true, true, true, true, true, true, true, true];
    }

    /** `onEntry`: the icons are set for the current state. */
    method OnEntry(arg: Arg, state: State)
      modifies this`enabled
      ensures enabled == IconsFor(state)
    {
      if state == Disconnected {
        DisableIcons();
      } else {
        EnableIcons();
      }
    }

    /** `onStateChange`: any connected state enables the icons; the menu is
      redisplayed in every case, as neither automatic scene is configured. */
    method OnStateChange(oldState: State, state: State)
      modifies this`enabled, this`log
      ensures state != Disconnected ==> enabled == IconsFor(state)
      ensures state == Disconnected ==> enabled == old(enabled)
      ensures log == old(log) + [ReDisplay]
    {
      if state != Disconnected {
        EnableIcons();
      }
      log := log + [ReDisplay];
    }

    /** `initMenus`: the eight icons are added in order; the menu scene is
      the one returned. */
    method InitMenus() returns (top: SceneId)
      modifies this`items
      ensures items == old(items) + Buttons
      ensures top == MenuSceneId
    {
      items := items + Buttons;
      top := MenuSceneId;
    }
  }
}
