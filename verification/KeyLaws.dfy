/** What the keys do, stated over all screens: which step starts what, and that everything can be reached. */
module KeyLaws {
  import opened Common
  import opened KeyDispatch
  import opened FlashSafety

  // ----- Exactly when something starts

  /** Enter on a focused confirm modal starts the flash, for every device, file and state behind the modal. */
  lemma ConfirmedEnterFlashes(s: App, w: World)
    requires !s.quit && s.viewing.None? && s.confirm.Some?
    requires s.confirm.value.action.Flash? && s.confirm.value.focus.Confirm?
    ensures var t, c := Step(s, Press(Enter, false, w)), s.confirm.value;
            (&& StartsFlash(s, t) && t.confirm.None? && t.viewing == Some(|s.sessions|)
             && |t.sessions| == |s.sessions| + 1 && t.sessions[..|s.sessions|] == s.sessions
             && t.sessions[|s.sessions|].deviceIdx == c.deviceIdx && t.sessions[|s.sessions|].source == c.file
             && t.sessions[|s.sessions|].total == w.fileSize(c.file) && t.sessions[|s.sessions|].running)
  {
  }

  /** A flash session starts exactly at such an Enter. */
  lemma FlashStartsIff(s: App, i: Input)
    requires OneScreen(s)
    ensures StartsFlash(s, Step(s, i))
       <==> && !s.quit && i.Press? && i.key == Enter
            && s.confirm.Some? && s.confirm.value.focus.Confirm?
  {
    hide HomeKey, ActionPickerKey, CodecPickerKey, BrowserKey, ProgressKey;
    if StartsFlash(s, Step(s, i)) {
      StepStartsFlash(s, i);
    }
  }

  /** A file is picked in a browser that was opened for an action. */
  ghost predicate PicksForPurpose(s: App, i: Input) {
    && !s.quit && i.Press? && (i.key == Enter || i.key == Right) && i.world.enter.Picked?
    && s.browser.Some? && s.purpose.Some?
  }

  /** A backup or archive starts exactly when a file is picked for it. */
  lemma CopyStartsIff(s: App, i: Input)
    requires OneScreen(s)
    ensures StartsCopy(s, Step(s, i)) <==> PicksForPurpose(s, i) && !s.purpose.value.action.Flash?
  {
    hide HomeKey, ActionPickerKey, CodecPickerKey, ConfirmKey, ProgressKey;
    if StartsCopy(s, Step(s, i)) {
      StepStartsCopy(s, i);
      BrowserAddsCopy(s, i.key, i.world);
    }
  }

  /** A file picked for a flash opens the confirm modal for it, and starts nothing. */
  lemma FlashPickAsks(s: App, i: Input)
    requires OneScreen(s) && PicksForPurpose(s, i) && s.purpose.value.action.Flash?
    ensures Step(s, i).sessions == s.sessions && ConfirmFor(Step(s, i), s.purpose.value.deviceIdx, i.world.enter.file)
    ensures Step(s, i).confirm.value.focus.Cancel? && Step(s, i).browser.None? && Step(s, i).purpose.None?
  {
  }

  // ----- Exactly when something changes

  ghost predicate SameFlags(s: App, t: App) {
    s.showHelp == t.showHelp && s.showAll == t.showAll && s.quit == t.quit
  }

  lemma ModalsKeepFlags(s: App, k: Key, w: World)
    ensures s.viewing.Some? ==> SameFlags(s, ProgressKey(s, k))
    ensures s.confirm.Some? ==> SameFlags(s, ConfirmKey(s, k, w))
  {
  }

  lemma BrowserKeepsFlags(s: App, k: Key, w: World)
    ensures SameFlags(s, BrowserKey(s, k, w))
  {
  }

  lemma PickersKeepFlags(s: App, k: Key, w: World)
    ensures s.codecPicker.Some? ==> SameFlags(s, CodecPickerKey(s, k, w))
    ensures s.actionPicker.Some? ==> SameFlags(s, ActionPickerKey(s, k))
  {
  }

  /** Away from the home screen no key touches the help, the filter, the devices or the selection. */
  lemma AwayFromHomeKeeps(s: App, i: Input)
    requires OneScreen(s) && !AtHome(s)
    ensures var t := Step(s, i);
            t.showHelp == s.showHelp && t.showAll == s.showAll && t.devices == s.devices && t.selected == s.selected
  {
    hide HomeKey, ActionPickerKey, CodecPickerKey, BrowserKey, ConfirmKey, ProgressKey;
    AwayFromHomeKeepsSelection(s, i);
    if i.Press? {
      ModalsKeepFlags(s, i.key, i.world);
      BrowserKeepsFlags(s, i.key, i.world);
      PickersKeepFlags(s, i.key, i.world);
    }
  }

  /** The application ends exactly at Ctrl-C, or at Esc or `q` on the home screen when no help is shown. */
  lemma QuitsIff(s: App, i: Input)
    requires !s.quit
    ensures Step(s, i).quit
       <==> i.Press? && ((i.key == Char('c') && i.ctrl)
                         || (AtHome(s) && !s.showHelp && (i.key == Esc || i.key == Char('q'))))
  {
    hide ActionPickerKey, CodecPickerKey, BrowserKey, ConfirmKey, ProgressKey;
    if i.Press? && !AtHome(s) {
      ModalsKeepFlags(s, i.key, i.world);
      BrowserKeepsFlags(s, i.key, i.world);
      PickersKeepFlags(s, i.key, i.world);
    }
  }

  ghost predicate HomePress(s: App, i: Input, k: Key) {
    !s.quit && AtHome(s) && i.Press? && i.key == k
  }

  /** The device list is replaced exactly at `a` and `r` on the home screen, and `a` alone toggles the filter. */
  lemma RefreshIff(s: App, i: Input)
    requires OneScreen(s)
    ensures Step(s, i).devices == if HomePress(s, i, Char('a')) || HomePress(s, i, Char('r')) then i.world.devices
                                  else s.devices
    ensures Step(s, i).showAll == if HomePress(s, i, Char('a')) then !s.showAll else s.showAll
    ensures HomePress(s, i, Char('r')) ==> Step(s, i).selected == s.selected
    ensures HomePress(s, i, Char('a')) ==>
              var n := |i.world.devices|;
              Step(s, i).selected == if s.selected < n then s.selected else if n == 0 then 0 else n - 1
  {
    hide ActionPickerKey, CodecPickerKey, BrowserKey, ConfirmKey, ProgressKey;
    if !AtHome(s) {
      AwayFromHomeKeeps(s, i);
    }
  }

  /** Help is toggled by `?` and F1 and closed by Esc and `q`, on the home screen only. */
  lemma HelpIff(s: App, i: Input)
    requires OneScreen(s)
    ensures Step(s, i).showHelp
       <==> if HomePress(s, i, Char('?')) || HomePress(s, i, F(1)) then !s.showHelp
            else s.showHelp && !HomePress(s, i, Esc) && !HomePress(s, i, Char('q'))
  {
    hide ActionPickerKey, CodecPickerKey, BrowserKey, ConfirmKey, ProgressKey;
    if !AtHome(s) {
      AwayFromHomeKeeps(s, i);
    }
  }

  lemma ConfirmKeepsSessions(s: App, k: Key, w: World)
    requires s.confirm.Some?
    ensures s.sessions <= ConfirmKey(s, k, w).sessions
  {
  }

  lemma BrowserKeepsSessions(s: App, k: Key, w: World)
    ensures s.sessions <= BrowserKey(s, k, w).sessions
  {
  }

  /** `t` has the sessions of `s` without the viewed one, which is done. */
  ghost predicate Dismissed(s: App, t: App) {
    && s.viewing.Some? && s.viewing.value < |s.sessions| && !s.sessions[s.viewing.value].running
    && t.sessions == s.sessions[..s.viewing.value] + s.sessions[s.viewing.value + 1..]
  }

  lemma ProgressKeepsSessions(s: App, k: Key)
    requires s.viewing.Some?
    ensures var t := ProgressKey(s, k); t.sessions == s.sessions || (k == Enter && Dismissed(s, t))
  {
  }

  /** A key never changes a session: it adds one at the end, or removes the viewed one once it is done. */
  lemma KeysKeepSessions(s: App, k: Key, ctrl: bool, w: World)
    requires OneScreen(s)
    ensures var t := Step(s, Press(k, ctrl, w)); s.sessions <= t.sessions || (k == Enter && Dismissed(s, t))
  {
    hide HomeKey, ActionPickerKey, CodecPickerKey, BrowserKey, ConfirmKey, ProgressKey;
    MenusAddNone(s, k, w);
    BrowserKeepsSessions(s, k, w);
    if s.confirm.Some? {
      ConfirmKeepsSessions(s, k, w);
    }
    if s.viewing.Some? {
      ProgressKeepsSessions(s, k);
    }
  }

  /** Enter dismisses the viewed session when it is done, and shows its neighbour, or home when none is left. */
  lemma DismissRemovesViewed(s: App, w: World, idx: nat)
    requires !s.quit && s.viewing == Some(idx) && idx < |s.sessions|
    ensures var t := Step(s, Press(Enter, false, w));
            if s.sessions[idx].running then t == s
            else && s.sessions == t.sessions[..idx] + [s.sessions[idx]] + t.sessions[idx..]
                 && t.viewing == if |s.sessions| == 1 then None
                                 else if idx + 1 < |s.sessions| then Some(idx) else Some(idx - 1)
  {
  }

  /** F2 opens a browser that starts nothing: picking a file in it leads back home. */
  lemma PlainBrowserStartsNothing(s: App, w: World)
    requires OneScreen(s) && AtHome(s) && !s.quit && w.enter.Picked?
    ensures var open := Step(s, Press(F(2), false, w));
            open.browser.Some? && Step(open, Press(Enter, false, w)) == s
  {
  }

  /** In the confirm modal the focus keys undo themselves, `h` and `l` set the focus, and Cancel starts nothing. */
  lemma ConfirmKeys(s: App, k: Key, w: World)
    requires !s.quit && s.viewing.None? && s.confirm.Some?
    ensures k in {Left, Right, Tab, BackTab} ==>
              && Step(Step(s, Press(k, false, w)), Press(k, false, w)) == s
              && Step(s, Press(k, false, w)).confirm == Some(Toggled(s.confirm.value))
              && Toggled(s.confirm.value).focus != s.confirm.value.focus
    ensures Step(s, Press(Char('h'), false, w)) == s.(confirm := Some(s.confirm.value.(focus := Cancel)))
    ensures Step(s, Press(Char('l'), false, w)) == s.(confirm := Some(s.confirm.value.(focus := Confirm)))
    ensures k == Esc || k == Char('q') || (k == Enter && s.confirm.value.focus.Cancel?) ==>
              Step(s, Press(k, false, w)) == s.(confirm := None)
  {
  }

  /** On the home screen Up undoes Down, and both stay on the list. */
  lemma UpUndoesDown(s: App, w: World)
    requires AtHome(s) && !s.quit
    ensures var t := Step(s, Press(Down, false, w));
            if s.selected + 1 < |s.devices| then t != s && Step(t, Press(Up, false, w)) == s else t == s
    ensures s.selected == 0 ==> Step(s, Press(Up, false, w)) == s
  {
  }

  /** Esc goes one screen back and starts nothing. */
  lemma EscGoesBack(s: App, w: World)
    requires OneScreen(s) && !s.quit && !AtHome(s)
    ensures var t := Step(s, Press(Esc, false, w));
            (&& t.sessions == s.sessions && t.devices == s.devices && t.selected == s.selected
             && (s.codecPicker.None? ==> AtHome(t) && t.purpose.None?)
             && (s.codecPicker.Some? ==> t.actionPicker.Some? && t.codecPicker.None?))
  {
  }

  /** Esc in the codec picker and Enter in the action picker return to the same codec picker. */
  lemma CodecPickerReopens(s: App, w: World)
    requires OneScreen(s) && !s.quit && s.codecPicker.Some?
    ensures Step(Step(s, Press(Esc, false, w)), Press(Enter, false, w)) == s
  {
  }

  /** The letter keys are the arrow keys of the home screen. */
  lemma LetterKeys(s: App, w: World)
    requires AtHome(s)
    ensures Step(s, Press(Char('k'), false, w)) == Step(s, Press(Up, false, w))
    ensures Step(s, Press(Char('j'), false, w)) == Step(s, Press(Down, false, w))
    ensures Step(s, Press(Char('q'), false, w)) == Step(s, Press(Esc, false, w))
    ensures Step(s, Press(Char('?'), false, w)) == Step(s, Press(F(1), false, w))
  {
  }

  // ----- Sequences of keys

  function Steps(s: App, inputs: seq<Input>): App
    decreases |inputs|
  {
    if inputs == [] then s else Steps(Step(s, inputs[0]), inputs[1..])
  }

  lemma {:induction false} StepsAppend(s: App, a: seq<Input>, b: seq<Input>)
    ensures Steps(s, a + b) == Steps(Steps(s, a), b)
    decreases |a|
  {
    hide Step;
    if a == [] {
      assert a + b == b;
    } else {
      StepsAppend(Step(s, a[0]), a[1..], b);
      assert (a + b)[1..] == a[1..] + b;
    }
  }

  lemma StepsOne(s: App, i: Input)
    ensures Steps(s, [i]) == Step(s, i)
  {
    hide Step;
    assert [i][1..] == [];
  }

  function Times(i: Input, n: nat): (r: seq<Input>)
    ensures |r| == n
  {
    seq(n, _ => i)
  }

  lemma {:induction false} TimesStep(s: App, i: Input, n: nat)
    requires n > 0
    ensures Steps(s, Times(i, n)) == Steps(Step(s, i), Times(i, n - 1))
  {
    hide Step;
    assert Times(i, n)[1..] == Times(i, n - 1);
  }

  /** Tab walks through all sessions in order and returns home after the last one. */
  lemma {:induction false} TabCycles(s: App, n: nat, w: World)
    requires AtHome(s) && !s.quit && 0 < n <= |s.sessions| + 1
    ensures Steps(s, Times(Press(Tab, false, w), n))
         == if s.sessions == [] || n == |s.sessions| + 1 then s else s.(viewing := Some(n - 1))
    decreases n
  {
    var tab := Press(Tab, false, w);
    assert Times(tab, n) == Times(tab, n - 1) + [tab];
    StepsAppend(s, Times(tab, n - 1), [tab]);
    StepsOne(Steps(s, Times(tab, n - 1)), tab);
    if n > 1 {
      TabCycles(s, n - 1, w);
    }
  }

  /** Down reaches every device of the list. */
  lemma {:induction false} DownsSelect(s: App, n: nat, w: World)
    requires AtHome(s) && !s.quit && s.selected + n < |s.devices|
    ensures Steps(s, Times(Press(Down, false, w), n)) == s.(selected := s.selected + n)
    decreases n
  {
    if n > 0 {
      var down := Press(Down, false, w);
      TimesStep(s, down, n);
      assert Step(s, down) == s.(selected := s.selected + 1);
      DownsSelect(s.(selected := s.selected + 1), n - 1, w);
    }
  }

  /** Every listed device can be flashed with any file: `d` times Down and five choices. */
  lemma EveryDeviceCanBeFlashed(devices: seq<BlockDevice>, d: nat, w: World) returns (inputs: seq<Input>)
    requires d < |devices| && w.enter.Picked?
    ensures |inputs| == d + 5
    ensures Steps(StartApp(devices), inputs).sessions
         == [Session(Flash, d, w.enter.file, w.fast(devices[d].path), NO_CODEC, w.fileSize(w.enter.file), true)]
  {
    hide Step;
    var e, start := Press(Enter, false, w), StartApp(devices);
    var home := start.(selected := d);
    DownsSelect(start, d, w);
    var choices := [e, e, e, Press(Right, false, w), e];
    inputs := Times(Press(Down, false, w), d) + choices;
    StepsAppend(start, Times(Press(Down, false, w), d), choices);
    var s5, s6, s7 := FlashFromHome(home, w);
    FiveSteps(home, choices);
  }

  lemma FiveSteps(s: App, i: seq<Input>)
    requires |i| == 5
    ensures Steps(s, i) == Step(Step(Step(Step(Step(s, i[0]), i[1]), i[2]), i[3]), i[4])
  {
    hide Step;
    assert i == [i[0]] + [i[1]] + [i[2]] + [i[3]] + [i[4]];
    StepsAppend(s, [i[0]] + [i[1]] + [i[2]] + [i[3]], [i[4]]);
    StepsAppend(s, [i[0]] + [i[1]] + [i[2]], [i[3]]);
    StepsAppend(s, [i[0]] + [i[1]], [i[2]]);
    StepsAppend(s, [i[0]], [i[1]]);
    forall x, j ensures Steps(x, [j]) == Step(x, j) {
      StepsOne(x, j);
    }
  }

  /** Every listed device can be backed up or archived to any file. */
  lemma EveryDeviceCanBeCopied(devices: seq<BlockDevice>, d: nat, a: Action, w: World) returns (inputs: seq<Input>)
    requires d < |devices| && !a.Flash? && w.enter.Picked?
    ensures var t, dev := Steps(StartApp(devices), inputs), devices[d];
            && |t.sessions| == 1 && t.sessions[0].kind == a && t.sessions[0].deviceIdx == d
            && t.sessions[0].dest == w.enter.file && t.sessions[0].codec == w.codec
            && t.sessions[0].source == (if a.Backup? then w.fast(dev.path)
                                        else if dev.mountpoints != [] then dev.mountpoints[0] else dev.path)
  {
    var e, down, start := Press(Enter, false, w), Press(Down, false, w), StartApp(devices);
    var home := start.(selected := d);
    DownsSelect(start, d, w);
    var open := Step(home, e);
    assert open == home.(actionPicker := Some(ActionPicker(d, 0)));
    var picker := home.(actionPicker := Some(ActionPicker(d, CursorOf(a))));
    DownsPick(open, a, w);
    var codec := Step(picker, e);
    assert codec == home.(codecPicker := Some(CodecPicker(a, d)));
    var browse := Step(codec, e);
    assert browse == home.(purpose := Some(Purpose(a, d, w.codec)), browser := Some(Save));
    var end := Step(browse, e);
    hide Step;
    inputs := Times(down, d) + ([e] + (Times(down, CursorOf(a)) + ([e] + ([e] + [e]))));
    StepsAppend(start, Times(down, d), [e] + (Times(down, CursorOf(a)) + ([e] + ([e] + [e]))));
    StepsAppend(home, [e], Times(down, CursorOf(a)) + ([e] + ([e] + [e])));
    StepsAppend(open, Times(down, CursorOf(a)), [e] + ([e] + [e]));
    StepsAppend(picker, [e], [e] + [e]);
    StepsAppend(codec, [e], [e]);
    StepsOne(home, e);
    StepsOne(picker, e);
    StepsOne(codec, e);
    StepsOne(browse, e);
  }

  /** Down moves the action picker to the action. */
  lemma DownsPick(s: App, a: Action, w: World)
    requires !s.quit && s.viewing.None? && s.confirm.None? && s.browser.None? && s.codecPicker.None?
    requires s.actionPicker.Some? && s.actionPicker.value.cursor == 0
    ensures Steps(s, Times(Press(Down, false, w), CursorOf(a)))
         == s.(actionPicker := Some(ActionPicker(s.actionPicker.value.deviceIdx, CursorOf(a))))
  {
    var down, d := Press(Down, false, w), s.actionPicker.value.deviceIdx;
    var one := Step(s, down);
    assert one == s.(actionPicker := Some(ActionPicker(d, 1)));
    var two := Step(one, down);
    assert two == s.(actionPicker := Some(ActionPicker(d, 2)));
    hide Step;
    if a.Backup? {
      TimesStep(s, down, 1);
    } else if a.Archive? {
      TimesStep(s, down, 2);
      TimesStep(one, down, 1);
    }
  }
}
