/** Safety of the key dispatcher over every sequence of keys. */
module FlashSafety {
  import opened Common
  import opened KeyDispatch

  /** One turn of the event loop: a key press, or a session that ends in the background. */
  datatype Input = Press(key: Key, ctrl: bool, world: World) | SessionEnds(idx: nat)

  function Step(s: App, i: Input): App {
    if s.quit then s
    else match i
      case Press(k, ctrl, w) => Dispatch(s, k, ctrl, w)
      case SessionEnds(idx) =>
        if idx < |s.sessions| then s.(sessions := s.sessions[idx := s.sessions[idx].(running := false)]) else s
  }

  /** `trace` is the run of the application from its start under `inputs`. */
  ghost predicate IsTrace(trace: seq<App>, inputs: seq<Input>) {
    && |trace| == |inputs| + 1
    && (exists devices :: trace[0] == StartApp(devices))
    && forall i | 0 <= i < |inputs| :: trace[i + 1] == Step(trace[i], inputs[i])
  }

  // ----- One screen at a time

  /** At most one of session view, confirm, browser, codec picker and action picker is open. */
  ghost predicate OneScreen(s: App) {
    && One(s.viewing.Some?) + One(s.confirm.Some?) + One(s.browser.Some?) + One(s.codecPicker.Some?)
       + One(s.actionPicker.Some?) <= 1
    && (s.viewing.Some? ==> s.viewing.value < |s.sessions|)
    && (s.purpose.Some? ==> s.browser.Some?)
    && (s.actionPicker.Some? ==> s.actionPicker.value.cursor < |ACTIONS|)
    && (s.codecPicker.Some? ==> !s.codecPicker.value.action.Flash?)
    && (s.purpose.Some? && s.purpose.value.action.Flash? ==> s.purpose.value.codec == NO_CODEC)
    && (s.confirm.Some? ==> s.confirm.value.action.Flash? && s.confirm.value.codec == Some(NO_CODEC))
  }

  lemma HomeKeepsOneScreen(s: App, k: Key, w: World)
    requires OneScreen(s) && AtHome(s)
    ensures OneScreen(HomeKey(s, k, w))
  {
  }

  lemma PickersKeepOneScreen(s: App, k: Key, w: World)
    requires OneScreen(s) && s.viewing.None? && s.confirm.None? && s.browser.None?
    ensures s.actionPicker.Some? ==> OneScreen(ActionPickerKey(s, k))
    ensures s.codecPicker.Some? ==> OneScreen(CodecPickerKey(s, k, w))
  {
  }

  lemma BrowserKeepsOneScreen(s: App, k: Key, w: World)
    requires OneScreen(s) && s.browser.Some?
    ensures OneScreen(BrowserKey(s, k, w))
  {
  }

  lemma ConfirmKeepsOneScreen(s: App, k: Key, w: World)
    requires OneScreen(s) && s.confirm.Some?
    ensures OneScreen(ConfirmKey(s, k, w))
  {
  }

  lemma ProgressKeepsOneScreen(s: App, k: Key)
    requires OneScreen(s) && s.viewing.Some?
    ensures OneScreen(ProgressKey(s, k))
  {
  }

  /** Nothing is open over the home screen. */
  ghost predicate AtHome(s: App) {
    s.viewing.None? && s.confirm.None? && s.browser.None? && s.codecPicker.None? && s.actionPicker.None?
  }

  lemma StepKeepsOneScreen(s: App, i: Input)
    requires OneScreen(s)
    ensures OneScreen(Step(s, i))
  {
    hide HomeKey, ActionPickerKey, CodecPickerKey, BrowserKey, ConfirmKey, ProgressKey;
    if i.Press? {
      if s.viewing.Some? {
        ProgressKeepsOneScreen(s, i.key);
      } else if s.confirm.Some? {
        ConfirmKeepsOneScreen(s, i.key, i.world);
      } else if s.browser.Some? {
        BrowserKeepsOneScreen(s, i.key, i.world);
      } else if AtHome(s) {
        HomeKeepsOneScreen(s, i.key, i.world);
      } else {
        PickersKeepOneScreen(s, i.key, i.world);
      }
    }
  }

  lemma {:induction false} AlwaysOneScreen(trace: seq<App>, inputs: seq<Input>, n: nat)
    requires IsTrace(trace, inputs) && n < |trace|
    ensures OneScreen(trace[n])
  {
    if n > 0 {
      AlwaysOneScreen(trace, inputs, n - 1);
      StepKeepsOneScreen(trace[n - 1], inputs[n - 1]);
    }
  }

  // ----- The way to a flash session

  ghost predicate Pressed(inputs: seq<Input>, i: nat, k: Key) {
    i < |inputs| && inputs[i].Press? && inputs[i].key == k
  }

  /** Step `k` presses Enter on the home screen with device `d` selected. */
  ghost predicate OpensPicker(trace: seq<App>, inputs: seq<Input>, k: nat, d: nat)
    requires |trace| == |inputs| + 1
  {
    Pressed(inputs, k, Enter) && AtHome(trace[k]) && trace[k].devices != [] && trace[k].selected == d
  }

  /** Step `b` presses Enter on the choice that opens the browser for action `a` on device `d`. */
  ghost predicate ChoosesAction(trace: seq<App>, inputs: seq<Input>, b: nat, a: Action, d: nat)
    requires |trace| == |inputs| + 1
  {
    && Pressed(inputs, b, Enter)
    && (if a.Flash? then trace[b].actionPicker == Some(ActionPicker(d, 0))
        else trace[b].codecPicker == Some(CodecPicker(a, d)))
  }

  /** Step `c` picks `file` in the browser opened for action `a` on device `d`. */
  ghost predicate PicksFile(trace: seq<App>, inputs: seq<Input>, c: nat, a: Action, d: nat, file: string)
    requires |trace| == |inputs| + 1
  {
    && (Pressed(inputs, c, Enter) || Pressed(inputs, c, Right)) && inputs[c].world.enter == Picked(file)
    && BrowsingFor(trace[c], a, d)
  }

  /** Step `f` moves the focus of the confirm modal from Cancel to Confirm. */
  ghost predicate MovesFocus(trace: seq<App>, inputs: seq<Input>, f: nat, d: nat, file: string)
    requires |trace| == |inputs| + 1
  {
    && f < |inputs| && inputs[f].Press? && inputs[f].key in {Left, Right, Tab, BackTab, Char('l')}
    && trace[f].confirm == Some(ConfirmModal(Flash, d, file, Cancel, Some(NO_CODEC)))
  }

  /** Between picking a device and choosing an action, one of the two pickers for `d` stays open. */
  ghost predicate PickerFor(s: App, d: nat) {
    || (s.actionPicker.Some? && s.actionPicker.value.deviceIdx == d)
    || (s.codecPicker.Some? && s.codecPicker.value.deviceIdx == d)
  }

  ghost predicate BrowsingFor(s: App, a: Action, d: nat) {
    s.browser.Some? && s.purpose.Some? && s.purpose.value.action == a && s.purpose.value.deviceIdx == d
  }

  ghost predicate ConfirmFor(s: App, d: nat, file: string) {
    s.confirm.Some? && s.confirm.value.deviceIdx == d && s.confirm.value.file == file
  }

  ghost predicate FocusedFor(s: App, d: nat, file: string) {
    ConfirmFor(s, d, file) && s.confirm.value.focus.Confirm?
  }

  ghost predicate SameDevices(trace: seq<App>, from: nat, to: nat)
    requires from <= to < |trace|
  {
    forall j | from <= j <= to :: trace[j].devices == trace[from].devices
  }

  /** A picker for `d`, opened at step `k`, has been open ever since, over the same device list. */
  ghost predicate PickerSince(trace: seq<App>, inputs: seq<Input>, k: nat, n: nat, d: nat)
    requires |trace| == |inputs| + 1
  {
    && k < n < |trace| && OpensPicker(trace, inputs, k, d)
    && SameDevices(trace, k, n) && forall j | k < j <= n :: PickerFor(trace[j], d)
  }

  ghost predicate BrowsingSince(trace: seq<App>, inputs: seq<Input>, k: nat, b: nat, n: nat, a: Action, d: nat)
    requires |trace| == |inputs| + 1
  {
    && b < n < |trace| && ChoosesAction(trace, inputs, b, a, d) && PickerSince(trace, inputs, k, b, d)
    && SameDevices(trace, b, n) && forall j | b < j <= n :: BrowsingFor(trace[j], a, d)
  }

  ghost predicate ConfirmSince(
      trace: seq<App>, inputs: seq<Input>, k: nat, b: nat, c: nat, n: nat, d: nat, file: string)
    requires |trace| == |inputs| + 1
  {
    && c < n < |trace| && PicksFile(trace, inputs, c, Flash, d, file) && BrowsingSince(trace, inputs, k, b, c, Flash, d)
    && SameDevices(trace, c, n) && forall j | c < j <= n :: ConfirmFor(trace[j], d, file)
  }

  ghost predicate FocusedSince(
      trace: seq<App>, inputs: seq<Input>, k: nat, b: nat, c: nat, f: nat, n: nat, d: nat, file: string)
    requires |trace| == |inputs| + 1
  {
    && f < n < |trace| && MovesFocus(trace, inputs, f, d, file) && ConfirmSince(trace, inputs, k, b, c, f, d, file)
    && SameDevices(trace, f, n) && forall j | f < j <= n :: FocusedFor(trace[j], d, file)
  }

  /** Every open screen on the way to a flash has its whole history. */
  ghost predicate Provenance(trace: seq<App>, inputs: seq<Input>, n: nat)
    requires |trace| == |inputs| + 1 && n < |trace|
  {
    var s := trace[n];
    && (forall d | PickerFor(s, d) :: exists k :: PickerSince(trace, inputs, k, n, d))
    && (forall a, d | BrowsingFor(s, a, d) :: exists k, b :: BrowsingSince(trace, inputs, k, b, n, a, d))
    && (forall d, file | ConfirmFor(s, d, file) :: exists k, b, c :: ConfirmSince(trace, inputs, k, b, c, n, d, file))
    && (forall d, file | FocusedFor(s, d, file) ::
          exists k, b, c, f :: FocusedSince(trace, inputs, k, b, c, f, n, d, file))
  }

  // ----- What one step can do

  lemma StepKeepsDevices(s: App, i: Input)
    ensures !AtHome(s) || !AtHome(Step(s, i)) ==> Step(s, i).devices == s.devices
  {
  }

  lemma StepOpensPicker(s: App, i: Input, d: nat)
    requires OneScreen(s) && PickerFor(Step(s, i), d) && !PickerFor(s, d)
    ensures i.Press? && i.key == Enter && AtHome(s) && s.devices != [] && s.selected == d
  {
  }

  lemma StepOpensBrowser(s: App, i: Input, a: Action, d: nat)
    requires OneScreen(s) && BrowsingFor(Step(s, i), a, d) && !BrowsingFor(s, a, d)
    ensures i.Press? && i.key == Enter
    ensures if a.Flash? then s.actionPicker == Some(ActionPicker(d, 0)) else s.codecPicker == Some(CodecPicker(a, d))
    ensures Step(s, i).browser == Some(if a.Flash? then Open else Save)
  {
  }

  lemma StepOpensConfirm(s: App, i: Input, d: nat, file: string)
    requires OneScreen(s) && ConfirmFor(Step(s, i), d, file) && !ConfirmFor(s, d, file)
    ensures i.Press? && (i.key == Enter || i.key == Right) && i.world.enter == Picked(file) && BrowsingFor(s, Flash, d)
    ensures !FocusedFor(Step(s, i), d, file)
  {
  }

  lemma StepMovesFocus(s: App, i: Input, d: nat, file: string)
    requires OneScreen(s) && FocusedFor(Step(s, i), d, file) && !FocusedFor(s, d, file)
    ensures i.Press? && i.key in {Left, Right, Tab, BackTab, Char('l')}
    ensures s.confirm == Some(ConfirmModal(Flash, d, file, Cancel, Some(NO_CODEC)))
  {
  }

  // ----- Histories grow with the trace

  lemma DevicesGrow(trace: seq<App>, from: nat, n: nat)
    requires from <= n && n + 1 < |trace| && SameDevices(trace, from, n) && trace[n + 1].devices == trace[n].devices
    ensures SameDevices(trace, from, n + 1)
  {
    forall j | from <= j <= n + 1 ensures trace[j].devices == trace[from].devices {
      assert trace[n].devices == trace[from].devices;
    }
  }

  lemma PickerGrows(trace: seq<App>, inputs: seq<Input>, n: nat, d: nat) returns (k: nat)
    requires IsTrace(trace, inputs) && n + 1 < |trace| && OneScreen(trace[n])
    requires PickerFor(trace[n], d) ==> exists k :: PickerSince(trace, inputs, k, n, d)
    requires PickerFor(trace[n + 1], d)
    ensures PickerSince(trace, inputs, k, n + 1, d)
  {
    hide Step, OneScreen, StartApp;
    StepKeepsDevices(trace[n], inputs[n]);
    if PickerFor(trace[n], d) {
      k :| PickerSince(trace, inputs, k, n, d);
      DevicesGrow(trace, k, n);
    } else {
      StepOpensPicker(trace[n], inputs[n], d);
      k := n;
      assert OpensPicker(trace, inputs, n, d);
      assert SameDevices(trace, n, n);
      DevicesGrow(trace, n, n);
    }
  }

  lemma BrowsingGrows(trace: seq<App>, inputs: seq<Input>, n: nat, a: Action, d: nat) returns (k: nat, b: nat)
    requires IsTrace(trace, inputs) && n + 1 < |trace| && OneScreen(trace[n])
    requires PickerFor(trace[n], d) ==> exists k :: PickerSince(trace, inputs, k, n, d)
    requires BrowsingFor(trace[n], a, d) ==> exists k, b :: BrowsingSince(trace, inputs, k, b, n, a, d)
    requires BrowsingFor(trace[n + 1], a, d)
    ensures BrowsingSince(trace, inputs, k, b, n + 1, a, d)
  {
    hide Step, OneScreen, StartApp, PickerSince;
    StepKeepsDevices(trace[n], inputs[n]);
    if BrowsingFor(trace[n], a, d) {
      k, b :| BrowsingSince(trace, inputs, k, b, n, a, d);
      DevicesGrow(trace, b, n);
    } else {
      StepOpensBrowser(trace[n], inputs[n], a, d);
      assert PickerFor(trace[n], d);
      k :| PickerSince(trace, inputs, k, n, d);
      b := n;
      assert ChoosesAction(trace, inputs, n, a, d);
      assert SameDevices(trace, n, n);
      DevicesGrow(trace, n, n);
    }
  }

  lemma ConfirmGrows(trace: seq<App>, inputs: seq<Input>, n: nat, d: nat, file: string) returns (k: nat, b: nat, c: nat)
    requires IsTrace(trace, inputs) && n + 1 < |trace| && OneScreen(trace[n])
    requires BrowsingFor(trace[n], Flash, d) ==> exists k, b :: BrowsingSince(trace, inputs, k, b, n, Flash, d)
    requires ConfirmFor(trace[n], d, file) ==> exists k, b, c :: ConfirmSince(trace, inputs, k, b, c, n, d, file)
    requires ConfirmFor(trace[n + 1], d, file)
    ensures ConfirmSince(trace, inputs, k, b, c, n + 1, d, file)
  {
    hide Step, OneScreen, StartApp, BrowsingSince;
    StepKeepsDevices(trace[n], inputs[n]);
    if ConfirmFor(trace[n], d, file) {
      k, b, c :| ConfirmSince(trace, inputs, k, b, c, n, d, file);
      DevicesGrow(trace, c, n);
    } else {
      StepOpensConfirm(trace[n], inputs[n], d, file);
      k, b :| BrowsingSince(trace, inputs, k, b, n, Flash, d);
      c := n;
      assert PicksFile(trace, inputs, n, Flash, d, file);
      assert SameDevices(trace, n, n);
      DevicesGrow(trace, n, n);
    }
  }

  lemma FocusGrows(trace: seq<App>, inputs: seq<Input>, n: nat, d: nat, file: string)
    returns (k: nat, b: nat, c: nat, f: nat)
    requires IsTrace(trace, inputs) && n + 1 < |trace| && OneScreen(trace[n])
    requires ConfirmFor(trace[n], d, file) ==> exists k, b, c :: ConfirmSince(trace, inputs, k, b, c, n, d, file)
    requires FocusedFor(trace[n], d, file) ==> exists k, b, c, f :: FocusedSince(trace, inputs, k, b, c, f, n, d, file)
    requires FocusedFor(trace[n + 1], d, file)
    ensures FocusedSince(trace, inputs, k, b, c, f, n + 1, d, file)
  {
    hide Step, OneScreen, StartApp, ConfirmSince;
    StepKeepsDevices(trace[n], inputs[n]);
    if FocusedFor(trace[n], d, file) {
      k, b, c, f :| FocusedSince(trace, inputs, k, b, c, f, n, d, file);
      DevicesGrow(trace, f, n);
    } else {
      StepMovesFocus(trace[n], inputs[n], d, file);
      assert ConfirmFor(trace[n], d, file);
      k, b, c :| ConfirmSince(trace, inputs, k, b, c, n, d, file);
      f := n;
      assert MovesFocus(trace, inputs, n, d, file);
      assert SameDevices(trace, n, n);
      DevicesGrow(trace, n, n);
    }
  }

  lemma {:induction false} AlwaysProvenance(trace: seq<App>, inputs: seq<Input>, n: nat)
    requires IsTrace(trace, inputs) && n < |trace|
    ensures Provenance(trace, inputs, n)
  {
    if n > 0 {
      var m := n - 1;
      AlwaysProvenance(trace, inputs, m);
      AlwaysOneScreen(trace, inputs, m);
      hide OneScreen, Step, PickerSince, BrowsingSince, ConfirmSince, FocusedSince;
      hide PickerFor, BrowsingFor, ConfirmFor, FocusedFor;
      forall d | PickerFor(trace[n], d) ensures exists k :: PickerSince(trace, inputs, k, n, d) {
        var k := PickerGrows(trace, inputs, m, d);
      }
      forall a, d | BrowsingFor(trace[n], a, d) ensures exists k, b :: BrowsingSince(trace, inputs, k, b, n, a, d) {
        var k, b := BrowsingGrows(trace, inputs, m, a, d);
      }
      forall d, file | ConfirmFor(trace[n], d, file)
        ensures exists k, b, c :: ConfirmSince(trace, inputs, k, b, c, n, d, file)
      {
        var k, b, c := ConfirmGrows(trace, inputs, m, d, file);
      }
      forall d, file | FocusedFor(trace[n], d, file)
        ensures exists k, b, c, f :: FocusedSince(trace, inputs, k, b, c, f, n, d, file)
      {
        var k, b, c, f := FocusGrows(trace, inputs, m, d, file);
      }
    }
  }

  // ----- Flash safety

  /** Step `n` starts a flash session. */
  ghost predicate StartsFlash(s: App, t: App) {
    |t.sessions| > |s.sessions| && t.sessions[|t.sessions| - 1].kind.Flash?
  }

  lemma ProgressAddsNone(s: App, k: Key)
    requires s.viewing.Some?
    ensures |ProgressKey(s, k).sessions| <= |s.sessions|
  {
  }

  lemma MenusAddNone(s: App, k: Key, w: World)
    ensures HomeKey(s, k, w).sessions == s.sessions
    ensures s.actionPicker.Some? ==> ActionPickerKey(s, k).sessions == s.sessions
    ensures s.codecPicker.Some? ==> CodecPickerKey(s, k, w).sessions == s.sessions
  {
  }

  lemma BrowserAddsNoFlash(s: App, k: Key, w: World)
    ensures !StartsFlash(s, BrowserKey(s, k, w))
  {
  }

  lemma ConfirmAddsFlash(s: App, k: Key, w: World)
    requires OneScreen(s) && s.confirm.Some? && StartsFlash(s, ConfirmKey(s, k, w))
    ensures k == Enter && s.confirm.value.focus.Confirm?
    ensures var c := s.confirm.value;
            ConfirmKey(s, k, w).sessions == s.sessions + [
              Session(Flash, c.deviceIdx, c.file, w.fast(DevicePath(s.devices, c.deviceIdx)), NO_CODEC,
                      w.fileSize(c.file), true)]
  {
  }

  lemma StepStartsFlash(s: App, i: Input)
    requires OneScreen(s) && StartsFlash(s, Step(s, i))
    ensures i.Press? && i.key == Enter && s.confirm.Some? && s.confirm.value.focus.Confirm?
    ensures var c := s.confirm.value;
            Step(s, i).sessions == s.sessions + [
              Session(Flash, c.deviceIdx, c.file, i.world.fast(DevicePath(s.devices, c.deviceIdx)), NO_CODEC,
                      i.world.fileSize(c.file), true)]
  {
    hide HomeKey, ActionPickerKey, CodecPickerKey, BrowserKey, ConfirmKey, ProgressKey;
    if i.Press? {
      if s.viewing.Some? {
        ProgressAddsNone(s, i.key);
      } else if s.confirm.Some? {
        ConfirmAddsFlash(s, i.key, i.world);
      } else {
        BrowserAddsNoFlash(s, i.key, i.world);
        MenusAddNone(s, i.key, i.world);
      }
    }
  }

  /**
   * A flash session starts only at an Enter on the confirm modal, after five explicit choices in this
   * order: `k` Enter on the device in the home screen, `b` Enter on Flash in its action picker, `c` the
   * file in the browser, `f` the focus moved from Cancel to Confirm, and `n` the Enter. From `k` to `n`
   * the device list does not change, and the session writes the chosen file to the chosen device.
   */
  lemma FlashNeedsConfirmation(trace: seq<App>, inputs: seq<Input>, n: nat)
    returns (k: nat, b: nat, c: nat, f: nat, d: nat, file: string)
    requires IsTrace(trace, inputs) && n + 1 < |trace| && StartsFlash(trace[n], trace[n + 1])
    ensures k < b < c < f < n && Pressed(inputs, n, Enter)
    ensures OpensPicker(trace, inputs, k, d) && ChoosesAction(trace, inputs, b, Flash, d)
    ensures PicksFile(trace, inputs, c, Flash, d, file) && MovesFocus(trace, inputs, f, d, file)
    ensures forall j | c < j <= n :: ConfirmFor(trace[j], d, file)
    ensures forall j | f < j <= n :: FocusedFor(trace[j], d, file)
    ensures forall j | k <= j <= n :: trace[j].devices == trace[k].devices
    ensures var s := trace[n + 1].sessions[|trace[n + 1].sessions| - 1];
            s.source == file && s.deviceIdx == d && s.dest == inputs[n].world.fast(DevicePath(trace[k].devices, d))
  {
    AlwaysOneScreen(trace, inputs, n);
    AlwaysProvenance(trace, inputs, n);
    StepStartsFlash(trace[n], inputs[n]);
    hide OneScreen, Step;
    d, file := trace[n].confirm.value.deviceIdx, trace[n].confirm.value.file;
    assert FocusedFor(trace[n], d, file);
    k, b, c, f :| FocusedSince(trace, inputs, k, b, c, f, n, d, file);
    forall j | k <= j <= n ensures trace[j].devices == trace[k].devices {
      assert trace[b].devices == trace[k].devices && trace[c].devices == trace[b].devices;
      assert trace[f].devices == trace[c].devices;
    }
  }

  // ----- Backups and archives

  /** A step starts a backup or an archive. */
  ghost predicate StartsCopy(s: App, t: App) {
    |t.sessions| > |s.sessions| && !t.sessions[|t.sessions| - 1].kind.Flash?
  }

  lemma ConfirmAddsNoCopy(s: App, k: Key, w: World)
    requires s.confirm.Some?
    ensures !StartsCopy(s, ConfirmKey(s, k, w))
  {
  }

  lemma BrowserAddsCopy(s: App, k: Key, w: World)
    requires s.browser.Some? && StartsCopy(s, BrowserKey(s, k, w))
    ensures (k == Enter || k == Right) && w.enter.Picked? && s.purpose.Some?
    ensures var p := s.purpose.value; var t := BrowserKey(s, k, w); var x := t.sessions[|t.sessions| - 1];
            && x.kind == p.action && x.deviceIdx == p.deviceIdx && x.dest == w.enter.file && x.codec == p.codec
            && x.running
            && x.total == (if p.action.Archive? then None
                           else if p.deviceIdx < |s.devices| && s.devices[p.deviceIdx].sizeBytes > 0
                           then Some(s.devices[p.deviceIdx].sizeBytes)
                           else w.fileSize(w.fast(DevicePath(s.devices, p.deviceIdx))))
            && x.source == if p.action.Backup? then w.fast(DevicePath(s.devices, p.deviceIdx))
                           else ArchiveSource(s.devices, p.deviceIdx)
  {
  }

  lemma StepStartsCopy(s: App, i: Input)
    requires OneScreen(s) && StartsCopy(s, Step(s, i))
    ensures i.Press? && s.browser.Some? && s.viewing.None? && Step(s, i) == BrowserKey(s, i.key, i.world)
  {
    hide HomeKey, ActionPickerKey, CodecPickerKey, BrowserKey, ConfirmKey, ProgressKey;
    if i.Press? {
      if s.viewing.Some? {
        ProgressAddsNone(s, i.key);
      } else if s.confirm.Some? {
        ConfirmAddsNoCopy(s, i.key, i.world);
      } else {
        MenusAddNone(s, i.key, i.world);
      }
    }
  }

  /**
   * A backup or archive starts only at the pick of its destination file, after Enter on its device in the
   * home screen and Enter on its codec, over an unchanged device list; it reads the device picked first.
   */
  lemma CopyReadsPickedDevice(trace: seq<App>, inputs: seq<Input>, n: nat) returns (k: nat, b: nat, a: Action, d: nat)
    requires IsTrace(trace, inputs) && n + 1 < |trace| && StartsCopy(trace[n], trace[n + 1])
    ensures k < b < n && OpensPicker(trace, inputs, k, d) && ChoosesAction(trace, inputs, b, a, d)
    ensures forall j | k <= j <= n :: trace[j].devices == trace[k].devices
    ensures var x := trace[n + 1].sessions[|trace[n + 1].sessions| - 1];
            && PicksFile(trace, inputs, n, a, d, x.dest) && x.kind == a && x.deviceIdx == d
            && x.source == if a.Backup? then inputs[n].world.fast(DevicePath(trace[k].devices, d))
                           else ArchiveSource(trace[k].devices, d)
  {
    AlwaysOneScreen(trace, inputs, n);
    AlwaysProvenance(trace, inputs, n);
    StepStartsCopy(trace[n], inputs[n]);
    BrowserAddsCopy(trace[n], inputs[n].key, inputs[n].world);
    hide OneScreen, Step, BrowserKey;
    a, d := trace[n].purpose.value.action, trace[n].purpose.value.deviceIdx;
    assert BrowsingFor(trace[n], a, d);
    k, b :| BrowsingSince(trace, inputs, k, b, n, a, d);
    forall j | k <= j <= n ensures trace[j].devices == trace[k].devices {
      assert trace[b].devices == trace[k].devices;
    }
  }

  // ----- The selected index

  /** The selection points at a listed device, so the session's destination is that device's path. */
  ghost predicate SelectionInRange(s: App) {
    s.devices == [] || s.selected < |s.devices|
  }

  /** The refresh key `r` keeps the selected index when the list gets shorter than it. */
  ghost predicate LosesSelection(s: App, i: Input) {
    && !s.quit && AtHome(s) && i.Press? && i.key == Char('r')
    && i.world.devices != [] && s.selected >= |i.world.devices|
  }

  lemma ScreensKeepSelection(s: App, k: Key, w: World)
    ensures s.viewing.Some? ==> ProgressKey(s, k).devices == s.devices && ProgressKey(s, k).selected == s.selected
    ensures s.confirm.Some? ==> ConfirmKey(s, k, w).devices == s.devices && ConfirmKey(s, k, w).selected == s.selected
  {
  }

  lemma BrowserKeepsSelection(s: App, k: Key, w: World)
    ensures BrowserKey(s, k, w).devices == s.devices && BrowserKey(s, k, w).selected == s.selected
  {
  }

  lemma PickersKeepSelection(s: App, k: Key, w: World)
    ensures s.codecPicker.Some? ==>
              CodecPickerKey(s, k, w).devices == s.devices && CodecPickerKey(s, k, w).selected == s.selected
    ensures s.actionPicker.Some? ==>
              ActionPickerKey(s, k).devices == s.devices && ActionPickerKey(s, k).selected == s.selected
  {
  }

  lemma AwayFromHomeKeepsSelection(s: App, i: Input)
    requires !AtHome(s)
    ensures Step(s, i).devices == s.devices && Step(s, i).selected == s.selected
  {
    hide HomeKey, ActionPickerKey, CodecPickerKey, BrowserKey, ConfirmKey, ProgressKey;
    if i.Press? {
      ScreensKeepSelection(s, i.key, i.world);
      BrowserKeepsSelection(s, i.key, i.world);
      PickersKeepSelection(s, i.key, i.world);
    }
  }

  /** The home-screen keys that put a selection that is off the list back on it. */
  ghost predicate RegainsSelection(s: App, i: Input) {
    && !s.quit && AtHome(s) && i.Press?
    && (|| i.key == Char('a')
        || (i.key == Char('r') && (i.world.devices == [] || s.selected < |i.world.devices|))
        || ((i.key == Up || i.key == Char('k')) && s.selected == |s.devices|))
  }

  lemma HomeSelection(s: App, k: Key, ctrl: bool, w: World)
    requires AtHome(s) && !s.quit && !(k == Char('c') && ctrl)
    ensures SelectionInRange(HomeKey(s, k, w))
       <==> if SelectionInRange(s) then !LosesSelection(s, Press(k, ctrl, w))
            else RegainsSelection(s, Press(k, ctrl, w))
  {
  }

  /** Only a shortening refresh takes the selection off the list, and only four keys put it back. */
  lemma StepMovesSelection(s: App, i: Input)
    ensures SelectionInRange(Step(s, i))
       <==> if SelectionInRange(s) then !LosesSelection(s, i) else RegainsSelection(s, i)
  {
    hide HomeKey, ActionPickerKey, CodecPickerKey, BrowserKey, ConfirmKey, ProgressKey;
    if !AtHome(s) {
      AwayFromHomeKeepsSelection(s, i);
    } else if i.Press? && !s.quit && !(i.key == Char('c') && i.ctrl) {
      HomeSelection(s, i.key, i.ctrl, i.world);
    }
  }

  lemma {:induction false} SelectionStaysInRange(trace: seq<App>, inputs: seq<Input>, n: nat)
    requires IsTrace(trace, inputs) && n < |trace|
    requires forall j | 0 <= j < n :: !LosesSelection(trace[j], inputs[j])
    ensures SelectionInRange(trace[n])
  {
    hide Step, LosesSelection;
    if n > 0 {
      SelectionStaysInRange(trace, inputs, n - 1);
      StepMovesSelection(trace[n - 1], inputs[n - 1]);
    }
  }

  /**
   * Every flash session writes the device that was listed at the selected index when Enter opened its
   * action picker, if the index was on the list then, and otherwise the empty path. Without a losing
   * refresh before that key the index was on the list.
   */
  lemma FlashWritesPickedDevice(trace: seq<App>, inputs: seq<Input>, n: nat) returns (k: nat)
    requires IsTrace(trace, inputs) && n + 1 < |trace| && StartsFlash(trace[n], trace[n + 1])
    ensures k < n && Pressed(inputs, k, Enter) && AtHome(trace[k]) && trace[k].devices != []
    ensures trace[n + 1].sessions[|trace[n + 1].sessions| - 1].dest
         == inputs[n].world.fast(
              if SelectionInRange(trace[k]) then trace[k].devices[trace[k].selected].path else "")
    ensures (forall j | 0 <= j < k :: !LosesSelection(trace[j], inputs[j])) ==> SelectionInRange(trace[k])
  {
    hide Step, LosesSelection, AtHome;
    var b, c, f, d, file;
    k, b, c, f, d, file := FlashNeedsConfirmation(trace, inputs, n);
    if forall j | 0 <= j < k :: !LosesSelection(trace[j], inputs[j]) {
      SelectionStaysInRange(trace, inputs, k);
    }
  }

  /**
   * With two devices listed, Down, a refresh that drops one, and then the five
   * choices start a flash session whose destination is the empty path.
   */
  lemma RefreshCanTargetNoDevice(two: seq<BlockDevice>, w: World) returns (trace: seq<App>, inputs: seq<Input>)
    requires |two| == 2 && |w.devices| == 1 && w.enter.Picked?
    ensures IsTrace(trace, inputs) && |trace| == 8 && StartsFlash(trace[6], trace[7])
    ensures |trace[7].sessions| == 1 && trace[7].sessions[0].dest == w.fast("")
  {
    var e := Press(Enter, false, w);
    var s0 := StartApp(two);
    var s1, s2 := ShrinkList(s0, w);
    hide *;
    var s3, s4 := Step(s2, e), Step(Step(s2, e), e);
    var s5, s6, s7 := FlashFromHome(s2, w);
    EmptyDestination(s0, s2, w, s6, s7);
    trace, inputs := SevenSteps(two, s1, s2, s3, s4, s5, s6, s7, Press(Down, false, w), Press(Char('r'), false, w), e,
                                Press(Right, false, w));
  }

  lemma EmptyDestination(s0: App, home: App, w: World, s6: App, s7: App)
    requires s0.sessions == [] && home == s0.(selected := 1, devices := w.devices) && |w.devices| == 1
    requires s6.sessions == home.sessions
    requires w.enter.Picked? && s7 == home.(viewing := Some(|home.sessions|), sessions := home.sessions + [
               Session(Flash, home.selected, w.enter.file, w.fast(DevicePath(home.devices, home.selected)),
                       NO_CODEC, w.fileSize(w.enter.file), true)])
    ensures StartsFlash(s6, s7) && |s7.sessions| == 1 && s7.sessions[0].dest == w.fast("")
  {
  }

  lemma SevenSteps(devices: seq<BlockDevice>, s1: App, s2: App, s3: App, s4: App, s5: App, s6: App, s7: App,
                   down: Input, refresh: Input, enter: Input, right: Input)
    returns (trace: seq<App>, inputs: seq<Input>)
    requires s1 == Step(StartApp(devices), down) && s2 == Step(s1, refresh) && s3 == Step(s2, enter)
    requires s4 == Step(s3, enter) && s5 == Step(s4, enter) && s6 == Step(s5, right) && s7 == Step(s6, enter)
    ensures IsTrace(trace, inputs) && |trace| == 8 && trace[6] == s6 && trace[7] == s7
  {
    hide Step, StartApp;
    inputs := [down, refresh, enter, enter, enter, right, enter];
    trace := [StartApp(devices), s1, s2, s3, s4, s5, s6, s7];
  }

  lemma ShrinkList(s0: App, w: World) returns (s1: App, home: App)
    requires AtHome(s0) && !s0.quit && s0.selected == 0 && |s0.devices| == 2 && |w.devices| == 1
    ensures s1 == Step(s0, Press(Down, false, w)) && home == Step(s1, Press(Char('r'), false, w))
    ensures home == s0.(selected := 1, devices := w.devices)
  {
    s1 := Step(s0, Press(Down, false, w));
    assert s1 == s0.(selected := 1);
    home := Step(s1, Press(Char('r'), false, w));
  }

  /** The five choices on a home screen start a flash of the device at the selection. */
  lemma FlashFromHome(home: App, w: World) returns (s5: App, s6: App, s7: App)
    requires AtHome(home) && home.purpose.None? && !home.quit && home.devices != [] && w.enter.Picked?
    ensures var e := Press(Enter, false, w);
            s5 == Step(Step(Step(home, e), e), e) && s6 == Step(s5, Press(Right, false, w)) && s7 == Step(s6, e)
    ensures s7 == home.(viewing := Some(|home.sessions|), sessions := home.sessions + [
                    Session(Flash, home.selected, w.enter.file, w.fast(DevicePath(home.devices, home.selected)),
                            NO_CODEC, w.fileSize(w.enter.file), true)])
    ensures s6.sessions == home.sessions
  {
    var e := Press(Enter, false, w);
    var s3 := Step(home, e);
    assert s3 == home.(actionPicker := Some(ActionPicker(home.selected, 0)));
    var s4 := Step(s3, e);
    assert s4 == home.(purpose := Some(Purpose(Flash, home.selected, NO_CODEC)), browser := Some(Open));
    s5 := Step(s4, e);
    s6 := Step(s5, Press(Right, false, w));
    s7 := Step(s6, e);
  }
}
