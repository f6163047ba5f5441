# FluidDial scene navigator, in Dafny

FluidDial is the firmware of a handheld pendant for FluidNC CNC
controllers. Its screens are *scenes*. One scene is current. A stack
holds the scenes to go back to. Each tick of the main loop reads the
encoder, the push buttons and the touch screen, and raises hooks on the
current scene. The scenes answer by sending G-code lines or real-time
characters to the controller, or by pushing, popping and activating
other scenes.

This project models that core:

- the navigator with its stack, the per-tick dispatcher, encoder scaling
  and the touch gesture classification (`Navigation`);
- the geometry of points and areas (`Points`, `Areas`), the rows in
  which the scenes draw text and numbers (`Drawing`), and the decimal
  text they print (`Text`);
- the menus and their rotation (`Menus`, `MacroMenus`, `VMenus`,
  `MainMenu`);
- the scenes named by the core: file list, file preview, status, power,
  about, confirm and tool change;
- the board layers that turn touches and pins into events: the 2.4"
  board (`Hw2432`), the round desktop build (`SysWindows`) and the
  seven-inch desktop build (`Win7Inch`);
- the preference store used for the brightness setting (`Prefs`).

A scene is a class with the scene's own fields. Its handlers append the
effects they have on the world to a `log` (`Effects.Effect`):

- a command sent to the controller;
- a push, pop or activation of another scene, with its argument;
- a redisplay request, a beep, a brightness change, or the
  disconnected-state request.

The navigator records the hooks it raises in a `trace` rather than
running them. So a dispatcher contract states exactly which hooks fire,
on which scene and in which order. External globals are parameters of
the handler that reads them: the machine state, the last alarm, the
override values, the file list. C++ integer division, truncating
toward zero, is `CArith.TDiv`. The 16-bit wrap of the encoder
difference is `CArith.Wrap16`.

## Model

| member | source | states |
|---|---|---|
| Points.ToDisplay | src/Point.cpp:7-10 | a centred point moves right by half the short side, and its y is flipped about the centre |
| Points.FromDisplay | src/Point.cpp:11-14 | converting the result back to screen coordinates gives the screen point: it is the inverse of `to_display` |
| Points.FromToDisplay | src/Point.cpp:7-14 | screen-to-centred after centred-to-screen is the identity |
| Areas.ToDisplay | src/Area.cpp:17-19 | the screen point is the local point offset by the area's corner |
| Areas.Centered | src/Area.cpp:21-23 | a centred point is offset by half the width in x and mirrored about half the height in y, halves truncated as C++ does |
| Areas.FromDisplay | src/Area.cpp:25-27 | corrected `from_display`: centring the result and then converting it to the screen gives back the input point |
| Areas.FromDisplayAsWrittenRoundTrip | src/Area.cpp:25-27 | `from_display` as written inverts `to_display`∘`centered` in x always, and in y exactly when the area's top is 0 |
| Areas.FromDisplayAsWrittenMisses | src/Area.cpp:25-27 | in the area (80,240,240,240), the centre point (0,0) comes back as (0,-480) |
| Areas.IsInside | src/Area.cpp:29-41 | inside iff the point is in the half-open rectangle; when inside, the local point is the offset from the corner; otherwise the local point is unchanged |
| Areas.DrawRectCorner | src/Area.cpp:77-81 | the rectangle's corner is its centred position less half its width and height |
| Areas.Trimmed | src/Area.cpp:145-183 | cutting `k` characters leaves exactly `k` fewer |
| Areas.AutoText | src/Area.cpp:145-183 | fonts are tried from the requested one down, and only the requested one without `tryfonts`; every larger font overflows; a text that fits is unchanged; otherwise it is the first cut that fits with its ellipsis, or four characters when none fits |
| Text.DigitChar | src/Drawing.cpp:33-38 | the character is a digit whose code is `'0'` plus the value |
| Text.DigitValue | src/Drawing.cpp:33-38 | reading a digit gives 0..9 and is the inverse of `DigitChar` |
| Text.NatToDecimal | src/FileSelectScene.cpp:24-39 | `%d` of a natural is a non-empty run of digits with no leading zero |
| Text.IntToDecimal | src/ToolChangeScene.cpp:27-45 | `%d` of an integer starts with a minus sign iff the integer is negative |
| Text.ZeroPad3 | src/FileSelectScene.cpp:24-39 | `%03d` of 0..999 is three digits that read back as the number |
| Text.DecimalRoundTrip | src/FileSelectScene.cpp:24-39 | reading `%d` back gives the number |
| Text.DecimalInjective | src/FileSelectScene.cpp:24-39 | two numbers with the same decimal text are equal |
| Navigation.Scene.constructor | src/Scene.h:35-36 | a new scene has its encoder scale, a zero accumulator and no area of its own |
| Navigation.Scene.ActiveArea | src/Scene.h:40 | the scene's own area when it has one, else the shared scene area |
| Navigation.Scene.SetArea | src/Scene.h:39 | the scene's area becomes the one given |
| Navigation.Scene.ScaleEncoder | src/Scene.cpp:238-243 | the result and the new accumulator are `ScaleStep` of the old ones; old accumulator plus delta equals result times scale plus remainder |
| Navigation.ScaleStep | src/Scene.cpp:238-243 | accumulator plus delta is quotient times scale plus remainder; the remainder is smaller than the scale and has the sign of the sum; the quotient is no larger than the sum |
| Navigation.EncoderConservation | src/Scene.cpp:238-243 | over any run of deltas no tick is lost: the ticks in equal the reported steps times the scale plus what is still held |
| Navigation.ScaledFitsInt16 | src/Scene.cpp:156-166 | a scaled delta of a 16-bit delta fits the `int16_t` it is stored in |
| Navigation.RotateNumberLoop | src/Scene.h:134-143 | in range the value is incremented; past the maximum it wraps to the minimum; below the minimum it wraps to the maximum; it stays in range |
| Navigation.RotateNumberLoopStays | src/Scene.h:134-143 | any run of rotations keeps a value within its range |
| Navigation.ButtonHook | src/Scene.cpp:61-87 | a hook is raised iff the button is 0, 1 or 2 |
| Navigation.ButtonHookInverse | src/Scene.cpp:61-87 | a button event maps to a hook iff that hook's button and direction are the event's: the mapping is a bijection onto the six button hooks |
| Navigation.ClassifyFlick | src/Scene.cpp:126-142 | a vertical flick iff the y distance exceeds 60 and dominates x by a factor of 2, down iff dy > 0; a horizontal flick iff not vertical and x distance exceeds 60 and dominates y by 2, right only for dx > 0; otherwise a plain touch flick |
| Navigation.FlickExamples | src/Scene.cpp:126-142 | the threshold is strict at 60, and the diagonal (-100,100) is a down flick |
| Navigation.FlickMirrorX | src/Scene.cpp:126-142 | mirroring a flick left-right swaps left and right flicks only |
| Navigation.FlickMirrorY | src/Scene.cpp:126-142 | mirroring a flick up-down swaps up and down flicks only |
| Navigation.TouchHooks | src/Scene.cpp:88-145 | at most two hooks; encoder zone touches raise only the encoder hook; button zones raise a press on touch and a release on release; press, release, click, hold and flick hooks each fire only in their touch state; a flick hook is last and is `ClassifyFlick` of the distances |
| Navigation.GestureHooks | src/Scene.cpp:113-142 | a press or release edge first, then a click, else a hold, else on a flick end the classified flick; never an encoder or button hook |
| Navigation.Activation | src/Scene.cpp:25-32 | the old scene's exit (when there was one), then entry with the argument, then redisplay; nothing on another scene |
| Navigation.EncoderEvents | src/Scene.cpp:156-166 | an encoder hook fires iff the raw delta and the wrapped scaled delta are both non-zero, and carries the wrapped value |
| Navigation.Navigator.constructor | src/Scene.cpp:16-23 | no current scene, empty stack and trace, zero encoder and touch state, no action |
| Navigation.Navigator.ActivateScene | src/Scene.cpp:25-32 | the scene becomes current and the trace gains its `Activation` |
| Navigation.Navigator.PushScene | src/Scene.cpp:33-36 | the old current scene goes on top of the stack and the new one is activated |
| Navigation.Navigator.PopScene | src/Scene.cpp:37-43 | with an empty stack nothing changes; otherwise the top of the stack is removed and re-activated with the argument |
| Navigation.Navigator.ActivateAtTopLevel | src/Scene.cpp:44-47 | the stack is cleared and the scene activated |
| Navigation.Navigator.ParentScene | src/Scene.cpp:48-50 | null iff the stack is empty, else its top |
| Navigation.Navigator.PushThenPop | src/Scene.cpp:33-43 | a push followed by a pop restores the current scene and the stack |
| Navigation.Navigator.ScheduleAction | src/Scene.cpp:147-151 | the action is the one scheduled |
| Navigation.Navigator.DispatchButton | src/Scene.cpp:61-87 | the current scene gets exactly the hook `ButtonHook` names, or none |
| Navigation.Navigator.DispatchTouch | src/Scene.cpp:88-145 | nothing happens unless the touch state changed; on a change the touch point is stored relative to the sprite, the hooks are `TouchHooks`, and the flick distances are stored only when a flick is reached |
| Navigation.Navigator.DispatchGesture | src/Scene.cpp:113-142 | the trace gains exactly `GestureHooks`, and the flick distances are stored only on a flick end that is neither a click nor a hold |
| Navigation.Navigator.DispatchEncoder | src/Scene.cpp:156-166 | the 16-bit delta from the last reading is scaled by the current scene; the reading and accumulator change only on a non-zero delta; the trace gains `EncoderEvents` |
| Navigation.Navigator.CheckConnection | src/Scene.cpp:176-182 | losing the link while not already disconnected sets the disconnected state and activates the menu at top level; otherwise nothing changes |
| Navigation.Navigator.RunScheduledAction | src/Scene.cpp:183-186 | a pending action runs once and is cleared |
| Navigation.Navigator.DispatchInputs | src/Scene.cpp:153-175 | encoder, then button, then touch hooks, in that order, with the state each leaves |
| Navigation.Navigator.DispatchEvents | src/Scene.cpp:153-187 | one tick: encoder, button and touch hooks on the scene current at the start, then the disconnect fallback, then the scheduled action, and no action left pending |
| Navigation.Navigator.DefaultHook | src/Scene.h:52-56 | a left flick pops the scene; right, up and down flicks raise the touch flick hook; other hooks do nothing |
| Navigation.TouchIsCenter | src/Scene.cpp:52-59 | the centre disk of radius a sixth of the short side lies between two bounds: a centre touch is within that distance on both axes, and any touch whose two centred offsets sum to less than it counts; the exact centre counts iff the screen is at least 6 pixels |
| Menus.Pos | src/Menu.cpp:49-54 | the position after `k` steps is a valid index |
| Menus.Walk | src/Menu.cpp:46-61 | the walk of `rotate` ends on a valid index |
| Menus.WrapIndex | src/Menu.cpp:49-54 | the two wrap loops leave the Euclidean remainder |
| Menus.WalkStops | src/Menu.cpp:46-61 | the walk stops at the first stopping point in its path |
| Menus.WalkReaches | src/Menu.cpp:46-61 | when the path reaches a visible item before the previous selection, the walk ends on a visible item |
| Menus.PosBack | src/Menu.cpp:46-61 | stepping by one, the walk is back at its start exactly after `n - 1` steps |
| Menus.WalkVisible | src/Menu.cpp:41-65 | with a visible item, and either no previous selection, a visible one, or single steps, `rotate` selects a visible item |
| Menus.WalkReturnsToHidden | src/Menu.cpp:46-61 | with a step of two the walk can come back to the hidden previous selection and stop there |
| Menus.WalkNext | src/Menu.cpp:46-61 | stepping forward by one selects the next visible item after the previous one, or the previous one when none is visible |
| Menus.WalkAllHidden | src/Menu.cpp:46-61 | with every item hidden, `rotate` by any step re-selects the previous item |
| Menus.VisibleAround | src/Menu.cpp:47-61 | counting the visible items once around the list from any index counts them all |
| Menus.WalkNOffset | src/Menu.cpp:47-61 | `k` calls of `rotate(1)` from a visible item, up to the visible count, land on the visible item where the visible count after the start reaches `k` |
| Menus.WalkCycle | src/Menu.cpp:47-61 | repeated `rotate(1)` from a visible item selects a visible item every time, and is back at the start after exactly as many calls as there are visible items, not earlier |
| Menus.Unhighlight | src/Menu.cpp:42-44 | exactly the previous selection loses its highlight |
| Menus.Menu.RemoveAllItems | src/Menu.cpp:28-34 | the list and the count are emptied |
| Menus.Menu.Rotate | src/Menu.cpp:41-65 | the selection becomes `Walk`'s, and only it is highlighted among the previous highlights; a redisplay follows |
| MacroMenus.Invoke | src/MacroMenu.cpp:12-19 | "Run" sends the local-filesystem run command; anything else opens the preview of the file |
| MacroMenus.ShowExtra | src/MacroMenu.cpp:23-28 | the `/localfs` or `cmd:` prefix is dropped, anything else shown whole |
| MacroMenus.ShowExtraSuffix | src/MacroMenu.cpp:23-28 | the text shown is a suffix of the file name, 0, 8 or 4 characters shorter |
| MacroMenus.Clamp | src/MacroMenu.cpp:149-155 | the value is kept in range, unchanged when already in range, else the nearer bound |
| MacroMenus.ShownItems | src/MacroMenu.cpp:121-133 | the items shown are the selection and up to two on each side, each at its offset from the selection |
| MacroMenus.ShownItemsInRange | src/MacroMenu.cpp:121-133 | every item shown exists |
| MacroMenus.DotAngle | src/MacroMenu.cpp:173-176 | the scroll dot is at +50 degrees on the first item and -50 on the last, and within those |
| MacroMenus.DotAngleMonotone | src/MacroMenu.cpp:173-176 | a later selection never puts the dot higher |
| MacroMenus.MacroMenu.constructor | src/MacroMenu.cpp:41-45 | an empty menu waiting for its list |
| MacroMenus.MacroMenu.RefreshMacros | src/MacroMenu.cpp:49-53 | the items are cleared and the list requested |
| MacroMenus.MacroMenu.OnFilesList | src/MacroMenu.cpp:56-64 | the error clears and reading ends; with items the first one is selected and highlighted |
| MacroMenus.MacroMenu.OnError | src/MacroMenu.cpp:66-70 | the error is kept, reading ends, redisplay |
| MacroMenus.MacroMenu.OnEntry | src/MacroMenu.cpp:72-76 | the list is requested only when the menu is empty |
| MacroMenus.MacroMenu.OnDialButtonPress | src/MacroMenu.cpp:78-82 | with items, the selected macro runs |
| MacroMenus.MacroMenu.OnGreenButtonPress | src/MacroMenu.cpp:84-91 | in Idle with items, the selected macro's file is previewed; otherwise nothing |
| MacroMenus.MacroMenu.OnTouchClick | src/MacroMenu.cpp:93 | as the green button |
| MacroMenus.MacroMenu.Rotate | src/MacroMenu.cpp:139-158 | turning back at the first item, or any turn while the selection equals the item count, does nothing; otherwise the selection moves by the clamped delta, the highlight moves with it, and a redisplay follows |
| MacroMenus.MacroMenu.OnStateChange | src/MacroMenu.cpp:162-166 | a job start shows the status scene |
| VMenus.ItemYClosed | src/VMenu.cpp:11-16 | item `i` sits `i` item heights below the first, which is centred |
| VMenus.TouchedItemInRange | src/VMenu.cpp:28-37 | when the height is a multiple of the item count, a touch inside names an existing item |
| VMenus.TouchedItemPastEnd | src/VMenu.cpp:28-37 | with 3 items in 10 pixels, the bottom pixel names a fourth item that does not exist |
| VMenus.ItemCenterSelectsItem | src/VMenu.cpp:6-37 | touching an item's centre selects that item |
| VMenus.VMenu.constructor | src/VMenu.h:16 | a menu over its area with no items |
| VMenus.VMenu.AddItem | src/VMenu.cpp:6-17 | the item is appended, the item height recomputed, and every item repositioned |
| VMenus.VMenu.IsTouched | src/VMenu.cpp:28-37 | touched iff the point is in the area; only then the item under it is invoked, and it exists |
| MainMenu.IconsFor | src/MenuScene.cpp:75-94 | when disconnected only the setup (about) icon is enabled; otherwise all are |
| MainMenu.DisconnectedOpensOnlyAbout | src/MenuScene.cpp:57-84 | an icon enabled while disconnected opens the about scene |
| MainMenu.ButtonTargetsDistinct | src/MenuScene.cpp:57-70 | no two icons open the same scene |
| MainMenu.MenuScene.DisableIcons | src/MenuScene.cpp:75-84 | the icons become those of the disconnected state |
| MainMenu.MenuScene.EnableIcons | src/MenuScene.cpp:85-94 | every icon is enabled |
| MainMenu.MenuScene.OnEntry | src/MenuScene.cpp:95-102 | the icons follow the state |
| MainMenu.MenuScene.OnStateChange | src/MenuScene.cpp:103-122 | leaving the disconnected state enables the icons; redisplay always |
| MainMenu.MenuScene.InitMenus | src/MenuScene.cpp:138-149 | the eight icons are added in order and the menu is the top scene |
| FileSelect.FormatSize | src/FileSelectScene.cpp:24-39 | MB iff at least a million, KB iff above a thousand and below a million, bytes iff at most a thousand |
| FileSelect.ReadNumber | src/FileSelectScene.cpp:24-39 | `%d.%03d` reads back as thousandths |
| FileSelect.FormatSizeReadsBack | src/FileSelectScene.cpp:24-39 | the text reads back as the size, except that MB sizes lose their last three digits |
| FileSelect.FormatSizeThousand | src/FileSelectScene.cpp:30 | 1000 is still "1000 bytes" |
| FileSelect.FormatSizeAboveThousand | src/FileSelectScene.cpp:30-33 | 1001 is "1.001 KB" |
| FileSelect.FormatSizeMillion | src/FileSelectScene.cpp:26-29 | a million is "1.000 MB" |
| FileSelect.ScrollTarget | src/FileSelectScene.cpp:298-320 | an in-range move is taken; with three or more files the list wraps at both ends; with fewer an out-of-range move is refused |
| FileSelect.LastSlash | src/FileSelectScene.cpp:76-92 | the index of the last '/' when there is one, and no '/' otherwise |
| FileSelect.ParentOfChild | src/FileSelectScene.cpp:53-92 | going up from a directory entered by name gives back the directory |
| FileSelect.FileSelectScene.constructor | src/FileSelectScene.cpp:17-42 | at "/sd", level 0, no remembered selections, encoder scale 4 |
| FileSelect.FileSelectScene.OnEntry | src/FileSelectScene.cpp:44-49 | the root's remembered selection is created only on the first entry |
| FileSelect.FileSelectScene.OnDialButtonPress | src/FileSelectScene.cpp:51 | back to the previous scene |
| FileSelect.FileSelectScene.OnGreenButtonPress | src/FileSelectScene.cpp:53-74 | in Idle: an empty list beeps; a directory is entered and listed, its selection remembered; a file is opened in the preview; nothing outside Idle |
| FileSelect.FileSelectScene.OnRedButtonPress | src/FileSelectScene.cpp:76-92 | in Idle: above the root, goes up to the parent and lists it; at the root, re-reads the root list; nothing outside Idle |
| FileSelect.FileSelectScene.OnTouchPress | src/FileSelectScene.cpp:94 | a touch starts selecting |
| FileSelect.FileSelectScene.OnTouchRelease | src/FileSelectScene.cpp:95-100 | selecting ends; a release after a press has exactly the green button's effects; without a press nothing changes |
| FileSelect.FileSelectScene.OnFilesList | src/FileSelectScene.cpp:101-104 | the selection is the one remembered for this level |
| FileSelect.FileSelectScene.Scroll | src/FileSelectScene.cpp:298-320 | the selection moves to `ScrollTarget` and the list is shown, or nothing changes |
| FileSelect.FileSelectScene.OnRightFlick | src/FileSelectScene.cpp:170 | a right flick activates the jog scene |
| FilePreview.PageTarget | src/FilePreviewScene.cpp:51-61 | the window moves iff the step is non-zero and stays at or below the first line |
| FilePreview.LinesFrom | src/FilePreviewScene.cpp:38-46 | the map holds exactly the lines received, keyed from the first line's number |
| FilePreview.PageBack | src/FilePreviewScene.cpp:51-61 | a page down and back up returns to the same first line |
| FilePreview.FilePreviewScene.constructor | src/FilePreviewScene.cpp:14-23 | no file, at line 0, nothing awaited, encoder scale 4 |
| FilePreview.FilePreviewScene.GetLines | src/FilePreviewScene.cpp:24-27 | seven lines from the first line are requested |
| FilePreview.FilePreviewScene.OnEntry | src/FilePreviewScene.cpp:29-37 | a file name selects the file and requests its lines |
| FilePreview.FilePreviewScene.OnFileLines | src/FilePreviewScene.cpp:38-46 | the lines are replaced by `LinesFrom`, the error cleared, redisplay |
| FilePreview.FilePreviewScene.OnError | src/FilePreviewScene.cpp:47-50 | the error is kept and shown |
| FilePreview.FilePreviewScene.Scroll | src/FilePreviewScene.cpp:51-61 | the window moves and is requested exactly when `PageTarget` allows it |
| FilePreview.FilePreviewScene.OnDialButtonPress | src/FilePreviewScene.cpp:63 | back to the previous scene |
| FilePreview.FilePreviewScene.OnRedButtonPress | src/FilePreviewScene.cpp:67-72 | in Idle, back with a beep |
| FilePreview.FilePreviewScene.OnGreenButtonPress | src/FilePreviewScene.cpp:76-81 | in Idle, the file is run from the SD card |
| FilePreview.FilePreviewScene.OnDroChange | src/FilePreviewScene.cpp:74 | redisplay |
| FilePreview.FilePreviewScene.OnStateChange | src/FilePreviewScene.cpp:83-87 | a job start shows the status scene |
| Status.AlarmKindsDisjoint | src/StatusScene.cpp:81-85 | no alarm is both a homing alarm and a critical one |
| Status.NextOverride | src/StatusScene.cpp:43-58 | the override shown always changes |
| Status.OverrideCycle | src/StatusScene.cpp:43-58 | the three overrides cycle with period three |
| Status.RedEffects | src/StatusScene.cpp:60-79 | red acts iff the state is Alarm, Cycle, Homing, Hold or DoorClosed; a critical alarm resets, another alarm unlocks, the rest reset |
| Status.GreenEffects | src/StatusScene.cpp:86-102 | always a status report, last; before it a feed hold in Cycle, a cycle start in Hold or DoorClosed, homing after a homing alarm |
| Status.DialEffects | src/StatusScene.cpp:26-35 | outside Cycle and Hold the dial goes back; inside it resets the override shown |
| Status.EncoderStep | src/StatusScene.cpp:104-127 | the feed or spindle override steps by one within 10..200 by the sign of the delta; on the feed-and-speed read-out, a turn switches the display back to the feed override |
| Status.EncoderKeepsOverrideInRange | src/StatusScene.cpp:104-127 | an override within 10..200 stays within it |
| Status.RedLegendMatchesAction | src/StatusScene.cpp:170-207 | the red legend is shown iff red acts, except in Jog, where a legend is shown and red does nothing |
| Status.GreenLegendMatchesAction | src/StatusScene.cpp:170-207 | the green legend is shown iff green does more than ask for a report |
| Status.DialLegendMatchesAction | src/StatusScene.cpp:170-207 | the dial reads "Back" iff it goes back, except in DoorClosed, where it reads "Rst Ovr" and goes back |
| Status.StatusScene.constructor | src/StatusScene.cpp:19-22 | feed override shown, empty log |
| Status.StatusScene.OnDialButtonPress | src/StatusScene.cpp:26-35 | `DialEffects` |
| Status.StatusScene.OnStateChange | src/StatusScene.cpp:37-41 | a finished job goes back, unless the menu is beneath |
| Status.StatusScene.OnTouchClick | src/StatusScene.cpp:43-58 | a click low on the screen while running switches the override shown; a status report always |
| Status.StatusScene.OnRedButtonPress | src/StatusScene.cpp:60-79 | `RedEffects` |
| Status.StatusScene.OnGreenButtonPress | src/StatusScene.cpp:86-102 | `GreenEffects` |
| Status.StatusScene.OnEncoder | src/StatusScene.cpp:104-127 | only in Cycle: `EncoderStep`, then redisplay |
| Status.StatusScene.OnDroChange | src/StatusScene.cpp:129 | redisplay |
| Prefs.ReadAfterWrite | src/Scene.cpp:198-216 | with an open store, a value read after it is written is that value |
| Prefs.WriteIsolated | src/Scene.cpp:198-216 | writing one name leaves every other name's value as it was |
| Prefs.ClosedStoreReadsCurrent | src/Scene.cpp:198-216 | with no store, writes are lost and reads keep the current value |
| Prefs.Preferences.InitPrefs | src/Scene.cpp:230-236 | true only on the call that opens the store |
| Prefs.Preferences.GetPref | src/Scene.cpp:206-216 | the stored value when open and present, else the current value |
| Prefs.Preferences.SetPref | src/Scene.cpp:198-205 | the store becomes `Written` of the old one |
| Power.BrightnessStep | src/PowerScene.cpp:49-61 | one up while below 255 on a positive delta, one down while above the minimum on a negative one; stays in range |
| Power.BrightnessStays | src/PowerScene.cpp:49-61 | any run of encoder deltas keeps brightness in range |
| Power.BrightnessEffects | src/PowerScene.cpp:49-61 | the display brightness is set iff it changed; redisplay last |
| Power.PowerScene.constructor | src/PowerScene.cpp:8-11 | brightness 255 |
| Power.PowerScene.OnEntry | src/PowerScene.cpp:12-16 | the stored brightness is read only on the call that opens the store |
| Power.PowerScene.OnRedButtonPress | src/PowerScene.cpp:17-28 | the link is marked down before sleeping |
| Power.PowerScene.OnGreenButtonPress | src/PowerScene.cpp:29-34 | the link is marked down before restarting |
| Power.PowerScene.OnDialButtonPress | src/PowerScene.cpp:35 | back to the previous scene |
| Power.PowerScene.OnEncoder | src/PowerScene.cpp:49-61 | `BrightnessStep` down to 0, shown and stored only when it changed |
| About.TouchClickEffects | src/AboutScene.cpp:44-50 | a status report always; in Idle also `$G` and `$I` |
| About.AboutScene.constructor | src/AboutScene.h:5-8 | brightness 255, encoder scale 4 |
| About.AboutScene.GetBrightness | src/AboutScene.cpp:122-127 | the stored brightness is read only on the call that opens the store |
| About.AboutScene.OnEntry | src/AboutScene.cpp:14-21 | brightness as `GetBrightness`, then `$G` and `$I` are sent |
| About.AboutScene.OnDialButtonPress | src/AboutScene.cpp:23-25 | the menu is activated |
| About.AboutScene.OnRedButtonPress | src/AboutScene.cpp:31-42 | the link is marked down before sleeping |
| About.AboutScene.OnTouchClick | src/AboutScene.cpp:44-50 | `TouchClickEffects` |
| About.AboutScene.OnEncoder | src/AboutScene.cpp:52-62 | `BrightnessStep` down to 8, shown and stored only when it changed |
| About.AboutScene.OnStateChange | src/AboutScene.cpp:63-65 | redisplay |
| Confirm.Answer | src/ConfirmScene.cpp:25-27 | the answer is "Confirmed" iff green, else none |
| Confirm.ConfirmScene.constructor | src/ConfirmScene.cpp:10-13 | no message |
| Confirm.ConfirmScene.OnEntry | src/ConfirmScene.cpp:14 | the message is the argument |
| Confirm.ConfirmScene.OnRedButtonPress | src/ConfirmScene.cpp:25 | back with no answer |
| Confirm.ConfirmScene.OnGreenButtonPress | src/ConfirmScene.cpp:26 | back with "Confirmed" |
| Confirm.ConfirmScene.OnDialButtonPress | src/ConfirmScene.cpp:27 | back with no answer |
| ToolChange.RedEffects | src/ToolChangeScene.cpp:27-45 | in Idle selects the tool; in Hold or Cycle resets; nothing in other states |
| ToolChange.GreenEffects | src/ToolChangeScene.cpp:47-64 | in Idle changes tool; in Hold resumes; in Cycle holds; nothing in other states |
| ToolChange.RedGreenDiffer | src/ToolChangeScene.cpp:27-64 | outside Idle, when red acts green acts too, and differently |
| ToolChange.ToolChangeScene.constructor | src/ToolChangeScene.cpp:20-23 | tool 0, encoder scale 4 |
| ToolChange.ToolChangeScene.OnDialButtonPress | src/ToolChangeScene.cpp:25 | back to the previous scene |
| ToolChange.ToolChangeScene.OnRedButtonPress | src/ToolChangeScene.cpp:27-45 | `RedEffects` |
| ToolChange.ToolChangeScene.OnGreenButtonPress | src/ToolChangeScene.cpp:47-64 | `GreenEffects` |
| ToolChange.ToolChangeScene.OnTouchClick | src/ToolChangeScene.cpp:68-72 | in Idle, the tool number is set |
| ToolChange.ToolChangeScene.OnEncoder | src/ToolChangeScene.cpp:74-79 | a non-zero delta rotates the tool within 0..255 and redisplays |
| ToolChange.ToolChangeScene.OnStateChange | src/ToolChangeScene.cpp:66 | redisplay |
| Drawing.Pow10 | src/Drawing.cpp:54-59 | a power of ten is positive |
| Drawing.DropDigitsRounds | src/Drawing.cpp:54-59 | dropping `k` digits rounds half up at the last one: `(v + 5·10^(k-1)) / 10^k` |
| Drawing.FractionDigits | src/Drawing.cpp:68-71 | exactly `nd` cells, one cell width apart |
| Drawing.IntegerDigits | src/Drawing.cpp:76-79 | at least one cell, one cell width apart, with nothing of the number left |
| Drawing.FractionRest | src/Drawing.cpp:68-71 | the fraction loop leaves the number with its `nd` lowest digits taken off |
| Drawing.FractionCells | src/Drawing.cpp:68-71 | cell `j` shows digit `j` of the number, counted from the lowest, `j` cells left of the start, highlighted iff it is digit `hl` |
| Drawing.IntegerCells | src/Drawing.cpp:76-79 | cell `j` shows digit `j` of the integer part, counted from the lowest, `j` cells left of the start, highlighted iff it is digit `hl` |
| Drawing.IntegerCount | src/Drawing.cpp:76-79 | the integer loop stops at the first cell count that has used up every digit and gone past the highlighted digit |
| Drawing.FancyNumberParts | src/Drawing.cpp:39-83 | the four drawn parts together are `FancyNumber` |
| Drawing.FancyNumberShape | src/Drawing.cpp:39-83 | `nd` fraction cells, a point iff there are decimals, at least one integer cell, a minus sign last iff the number is negative |
| Drawing.FancyNumberDigits | src/Drawing.cpp:39-83 | the digit cells spell the rounded magnitude least significant digit first: digit position `c` shows digit `c` at its place, one more cell left past the point, highlighted iff `c` is `hl`; the integer cells end at the first position past both the last non-zero digit and `hl` |
| Drawing.RoundingExamples | src/Drawing.cpp:54-59 | 1.2346 with three decimals is 1.235; 1.2345 with two is 1.23; 1.2350 with two is 1.24 |
| Drawing.RowYClosed | src/Drawing.h:34-35 | after `k` draws a stripe is `k` rows of height plus one lower |
| Drawing.Stripe.constructor | src/Drawing.cpp:10-11 | the stripe at its place, nothing drawn |
| Drawing.Stripe.Dro | src/Drawing.h:57 | a DRO is a stripe in the monospaced font |
| Drawing.Stripe.TextLeftX | src/Drawing.h:16-22 | left text is inset 5 from the left edge |
| Drawing.Stripe.TextCenterX | src/Drawing.h:23 | centred text is within the stripe |
| Drawing.Stripe.TextRightX | src/Drawing.h:16-24 | right text is inset 5 from the right edge |
| Drawing.Stripe.TextMiddleY | src/Drawing.h:25 | text is at mid-height plus 2, within the stripe |
| Drawing.Stripe.Gap | src/Drawing.h:34 | the next row starts after the stripe |
| Drawing.Stripe.Advance | src/Drawing.h:35 | the stripe moves down one gap |
| Drawing.Stripe.DrawLeftRight | src/Drawing.cpp:13-22 | a frame, then each non-empty text at its inset, then one row down |
| Drawing.Stripe.DrawCharRight | src/Drawing.cpp:23-26 | as `DrawLeftRight` with a one-character left text, none for NUL |
| Drawing.Stripe.DrawCentered | src/Drawing.cpp:27-31 | a frame and the centred text, then one row down |
| Drawing.Stripe.PutDigit | src/Drawing.cpp:33-38 | the lowest digit is drawn and removed from the number |
| Drawing.Stripe.RoundE4 | src/Drawing.cpp:54-59 | the four stored decimals are rounded to `nd`, half up |
| Drawing.Stripe.DrawFraction | src/Drawing.cpp:68-71 | draws `FractionDigits` and returns what is left |
| Drawing.Stripe.DrawInteger | src/Drawing.cpp:76-79 | draws `IntegerDigits` |
| Drawing.Stripe.DrawFancyNumber | src/Drawing.cpp:39-83 | draws exactly `FancyNumber`, whose shape `FancyNumberShape` and digits `FancyNumberDigits` state |
| Drawing.Led.constructor | src/Drawing.h:47 | the LED at its place, nothing drawn |
| Drawing.Led.Draw | src/Drawing.cpp:102-105 | a circle at the current place, then one gap down |
| Hw2432.InRectShift | src/Hardware2432.cpp:557-562 | a point is in a rectangle iff its offset from the corner is in the rectangle at the origin |
| Hw2432.InRectIsInside | src/Hardware2432.cpp:557-559 | `in_rect` agrees with `Area::is_inside` |
| Hw2432.ButtonsWH | src/Hardware2432.cpp:252-259 | a vertical stripe is 80×240, a horizontal one 240×80 |
| Hw2432.ButtonOffset | src/Hardware2432.cpp:260 | button `n` is `n` cells down a vertical stripe or across a horizontal one |
| Hw2432.CellOf | src/Hardware2432.cpp:563-580 | the first cell holding the point, none before it; or no cell holds it |
| Hw2432.CellsCoverStripe | src/Hardware2432.cpp:563-580 | a point in the stripe is in the cell its offset along the stripe names |
| Hw2432.SwitchStep | src/Hardware2432.cpp:500-533 | the first present pin, in red, dial, green order, whose level differs from the last seen is reported, pressed when low, and only its level is remembered |
| Hw2432.SwitchStartup | src/Hardware2432.cpp:500-533 | from start-up the three buttons are reported one per call, then nothing |
| Hw2432.AbsentPinSilent | src/Hardware2432.cpp:500-533 | no button whose pin is absent is ever reported |
| Hw2432.Board.constructor | src/Hardware2432.cpp:545-546 | layout 0, no debounce, nothing seen |
| Hw2432.Board.NextLayout | src/Hardware2432.cpp:481-494 | the layout number steps by `delta` modulo 8, is saved, and the screen redrawn |
| Hw2432.Board.ScreenButtonTouched | src/Hardware2432.cpp:563-580 | a hit iff the point is in the layout's stripe, naming `CellOf` its offset; a release on a hit starts the 100 ms debounce |
| Hw2432.Board.UpdateEvents | src/Hardware2432.cpp:582-593 | the touch screen is updated unless the debounce runs and its time has not come; when it has come the debounce ends (time compared as a signed difference) |
| Hw2432.DebounceAsWrittenMisses | src/Hardware2432.cpp:582-593 | with the time unsigned, a button released at 1000 ms does not hold off the touch screen at 1050 ms, where the signed test does |
| Hw2432.Board.SwitchButtonTouched | src/Hardware2432.cpp:500-533 | the event and the remembered levels are `SwitchStep` |
| Hw2432.Board.UiLocked | src/Hardware2432.cpp:548-555 | the lock is remembered, and the buttons redrawn only when it changed |
| SysWindows.OutsideOfCircle | src/SystemWindows.cpp:316-321 | the offset from the display centre, and outside iff beyond radius 120 |
| SysWindows.CircleBounds | src/SystemWindows.cpp:316-321 | within 84 on both axes is inside; beyond 120 on either is outside |
| SysWindows.Magnitude | src/SystemWindows.cpp:322-348 | the delta's size is 1 to 4 |
| SysWindows.ScreenEncoder | src/SystemWindows.cpp:322-348 | a delta iff outside the circle in the upper half; its size is `Magnitude`, negative iff left of centre |
| SysWindows.OnScreenEncoderDefined | src/SystemWindows.cpp:322-348 | on a 240×240 display no on-screen touch is straight above the centre and outside the circle, so the division is defined |
| SysWindows.MagnitudeBySectors | src/SystemWindows.cpp:322-348 | the size equals the sector found by cross-multiplication against slopes 1.73, 1.01 and 0.59 |
| SysWindows.EncoderMirror | src/SystemWindows.cpp:322-348 | mirrored touches give deltas of equal size |
| SysWindows.Zone | src/SystemWindows.cpp:350-362 | left zone iff at least 90 left of centre, right iff at least 90 right, middle otherwise |
| SysWindows.ZoneMirror | src/SystemWindows.cpp:350-362 | the left and right zones mirror each other |
| SysWindows.ScreenButtonTouched | src/SystemWindows.cpp:350-362 | a button iff outside the circle, the touch's zone |
| SysWindows.SwitchButtonTouched | src/SystemWindows.cpp:364-396 | at most one event, the first of red, dial, green press and release in that order; none iff nothing happened |
| Win7Inch.FirstHit | src/SystemWin7Inch.cpp:399-412 | the first button whose area holds the point, or none holds it |
| Win7Inch.ButtonColumn | src/SystemWin7Inch.cpp:61-67 | a button is hit iff the point is in the right-hand 160-pixel column; it is the row the point falls in |
| Win7Inch.ButtonsDisjoint | src/SystemWin7Inch.cpp:63-67 | no point is in two buttons |
| Win7Inch.NoEncoderNorSwitches | src/SystemWin7Inch.cpp:371-377 | neither the screen encoder nor the push buttons ever report |
| Win7Inch.Touch.constructor | src/SystemWin7Inch.cpp:390-391 | no debounce |
| Win7Inch.Touch.ScreenButtonTouched | src/SystemWin7Inch.cpp:379-412 | the button is `FirstHit`; a release on a button starts the 100 ms debounce |
| Win7Inch.Touch.UpdateEvents | src/SystemWin7Inch.cpp:414-426 | as on the 2.4" board |
| Win7Inch.DebounceAsWrittenMisses | src/SystemWin7Inch.cpp:414-426 | as on the 2.4" board: the unsigned test lets the touch screen through at 1050 ms after a release at 1000 ms |
| CArith.PendingUnsigned | src/Hardware2432.cpp:583-586 | a deadline test on an unsigned difference is never true |
| Win7Inch.AuxiliaryTouch | src/SystemWin7Inch.cpp:395-397 | the vertical menu's hit test: touched iff in its area, invoking the item under the point |

## Findings

| source | as written | input that shows it | evidently intended | confidence | as-written member | corrected member |
|---|---|---|---|---|---|---|
| src/Hardware2432.cpp:583-586 | `(ms - touch_timeout) < 0`, with `ms` the `unsigned long` of `lgfx::millis()`, converts the `int32_t` timeout to unsigned, so the test is never true | button released at 1000 ms, `update_events` at 1050 ms: the touch screen is updated | the touch screen ignored for 100 ms after the release, as a signed difference gives | likely: it rests on `lgfx::millis()` returning `unsigned long`, which is declared outside these sources; not executed | Hw2432.DebounceAsWrittenMisses | Hw2432.Board.UpdateEvents |
| src/SystemWin7Inch.cpp:416-419 | the same unsigned test as on the 2.4" board | the same release at 1000 ms and update at 1050 ms | the same 100 ms hold-off | likely, on the same assumption about `lgfx::millis()`; not executed | Win7Inch.DebounceAsWrittenMisses | Win7Inch.Touch.UpdateEvents |
| src/Area.cpp:25-27 | `from_display` subtracts the area's top (`_y`) from the screen y, where `to_display` added it | area (80,240,240,240): the centred point (0,0) goes to screen (200,360) and comes back as (0,-480) | the inverse of `to_display` followed by `centered`, which adds `_y` back | not executed | Areas.FromDisplayAsWrittenMisses | Areas.FromDisplay |

## Left out

- Rendering: the scenes' `reDisplay` bodies, colours, fonts' glyphs, images and the help text. A redisplay is one `ReDisplay` effect. Only the drawing of text rows, digits and LEDs is modelled.
- Hooks: the dispatcher records each hook it raises in the trace rather than running the scene's handler. The scenes' handlers are modelled on their own classes.
- Navigation.Navigator.PushScene: requires a current scene. With none, the source would push a null scene that a later pop would make current.
- Navigation.Navigator.DispatchEvents: `update_events` and the reading of the encoder, buttons and touch are inputs of the tick. The touch library's gesture detection (click, hold, flick distances) is an input too.
- Navigation.RotateNumberLoop: on integers only. The float instance is not modelled, for lack of floating point.
- Hw2432.Board.UpdateEvents and Win7Inch.Touch.UpdateEvents: `milliseconds()` is an unbounded parameter, and `now + 100` does not wrap at 32 bits. The debounce test is the signed one the code evidently intends; the unsigned test as written is the finding above (CArith.PendingUnsigned).
- MainMenu.MenuScene.OnStateChange: `AUTO_JOG_SCENE` and `AUTO_HOMING_SCENE` are not defined in the build configuration, so the automatic scene pushes are not modelled.
- The `PieMenu` base class, its `onEntry` and its drawing are not part of this model. `Menu.h` is not part of this model either. The menu item lists are sequences of flags.
- Menus.Menu.Rotate: requires a visible item or a previous selection to return to. Without one, the source's loop would not end.
- Menus.WalkReturnsToHidden: with a step of two or more, `rotate` can settle back on a hidden previous selection. This is stated as a lemma, not corrected.
- MacroMenus.MacroMenu.constructor: the source leaves the initial selection to `Menu`, whose header is not part of this model. It is taken as -1.
- MacroMenus.MacroMenu.AddItem is model set-up: the macro list arrives through the file parser, which is not part of this model.
- Confirm.ConfirmScene.OnEntry: requires a string argument. Every caller passes one, and the source would dereference a null one.
- Drawing.Stripe.DrawFancyNumber: only E4 numbers (four stored decimals) are modelled. `nd` is a natural. The `pos_t` width and the overflow of `n + 5` are not modelled.
- FilePreview.FilePreviewScene.constructor: `_needlines` has no initial value in the source. It is modelled as false.
- FileSelect: the global file list is a parameter of the handlers that read it. The parsing of the controller's answer is not modelled. The global `fileInfo` that the green button assigns (src/FileSelectScene.cpp:58) is not kept: the model reads the selected entry of the list directly.
- FileSelect.FileSelectScene.Scroll: the source redraws the list through `showFiles`. This is modelled as one `ReDisplay` effect.
- Power and About: `deep_sleep` and `esp_restart` are left out. They stop the program.
- Prefs: the NVS flash store is a map from names to integers. Its failure modes are one flag, whether the store opened.
- VMenus.VMenu.IsTouched and Win7Inch.AuxiliaryTouch: require the area's height to be a multiple of the item count. Otherwise a touch on the last pixel rows names a missing item, as VMenus.TouchedItemPastEnd shows. The shipped menu of 8 items in 480 pixels meets this requirement.
- SysWindows.ScreenEncoder: requires that a touch outside the circle is not straight above the centre, where the source divides by zero. The display size is a parameter. SysWindows.OnScreenEncoderDefined shows that on-screen touches meet this on a 240×240 display.
- Status: the legends are modelled only as partners of the handlers. In Jog, the red legend shows without an action. In DoorClosed, the dial shows "Rst Ovr" but goes back. Both are stated in the legend lemmas.
- ToolChange.ToolChangeScene.OnEncoder: `abs(delta)` of the most negative `int` is not modelled.
- Texts: the source's `std::string` and `char*` values are byte strings, and the model's are sequences of characters, one per byte. So Areas.AutoText and Areas.Trimmed cut `k` characters where the source erases `k` bytes. These differ for multi-byte UTF-8 labels.
- Serial and UART transport, the controller's reports and their parsing, and the M5Dial and Arduino board files are not part of this model.
