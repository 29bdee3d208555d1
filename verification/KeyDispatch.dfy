/** The key dispatcher `dispatch_key` and its handlers over the application state. */
module KeyDispatch {
  import opened Common

  datatype Action = Flash | Backup | Archive

  const ACTIONS: seq<Action> := [Flash, Backup, Archive]

  datatype BlockDevice = BlockDevice(path: string, sizeBytes: nat, mountpoints: seq<string>)

  datatype Key =
    | Char(c: char) | F(n: nat) | Enter | Esc | Tab | BackTab | Up | Down | Left | Right | Backspace | Other

  datatype EnterResult = Navigated | Picked(file: string) | Nothing

  datatype CodecLevel = CodecLevel(codec: nat, level: int)

  /** `(Codec::None, CompressionLevel(0))`. */
  const NO_CODEC: CodecLevel := CodecLevel(0, 0)

  datatype ActionPicker = ActionPicker(deviceIdx: nat, cursor: nat)

  datatype CodecPicker = CodecPicker(action: Action, deviceIdx: nat)

  datatype BrowseMode = Open | Save

  datatype Purpose = Purpose(action: Action, deviceIdx: nat, codec: CodecLevel)

  datatype Focus = Cancel | Confirm

  datatype ConfirmModal = ConfirmModal(
    action: Action, deviceIdx: nat, file: string, focus: Focus, codec: Option<CodecLevel>)

  datatype Session = Session(
    kind: Action, deviceIdx: nat, source: string, dest: string, codec: CodecLevel, total: Option<nat>, running: bool)

  datatype App = App(
    devices: seq<BlockDevice>, selected: nat, showHelp: bool, showAll: bool,
    actionPicker: Option<ActionPicker>, codecPicker: Option<CodecPicker>,
    browser: Option<BrowseMode>, purpose: Option<Purpose>, confirm: Option<ConfirmModal>,
    sessions: seq<Session>, viewing: Option<nat>, quit: bool)

  /**
   * What the outside answers while a key is handled: the enumerated devices, the browser's reaction to
   * Enter, the codec picker's current choice, the size of a file, and the fast path of a device.
   */
  datatype World = World(
    devices: seq<BlockDevice>, enter: EnterResult, codec: CodecLevel,
    fileSize: string -> Option<nat>, fast: string -> string)

  function StartApp(devices: seq<BlockDevice>): App {
    App(devices, 0, false, false, None, None, None, None, None, [], None, false)
  }

  /** `devices.get(idx).map(path).unwrap_or_default()`. */
  function DevicePath(devices: seq<BlockDevice>, idx: nat): string {
    if idx < |devices| then devices[idx].path else ""
  }

  function PushSession(s: App, x: Session): App {
    s.(sessions := s.sessions + [x], viewing := Some(|s.sessions|))
  }

  // ----- The handlers, as functions on the state

  function HomeKey(s: App, k: Key, w: World): App {
    match k
    case Esc => if s.showHelp then s.(showHelp := false) else s.(quit := true)
    case F(n) =>
      if n == 1 then s.(showHelp := !s.showHelp)
      else if n == 2 then s.(browser := Some(Open), purpose := None)
      else s
    case Enter => if s.devices != [] then s.(actionPicker := Some(ActionPicker(s.selected, 0))) else s
    case Up => s.(selected := MoveUp(s.selected))
    case Down => s.(selected := MoveDown(s.selected, |s.devices|))
    case Tab => if s.sessions != [] then s.(viewing := Some(0)) else s
    case Char(c) =>
      if c == 'q' then (if s.showHelp then s.(showHelp := false) else s.(quit := true))
      else if c == '?' then s.(showHelp := !s.showHelp)
      else if c == 'a' then
        s.(showAll := !s.showAll, devices := w.devices, selected := Min(s.selected, Max(|w.devices| - 1, 0)))
      else if c == 'k' then s.(selected := MoveUp(s.selected))
      else if c == 'j' then s.(selected := MoveDown(s.selected, |s.devices|))
      else if c == 'r' then s.(devices := w.devices)
      else s
    case _ => s
  }

  function MoveUp(cursor: nat): nat {
    if cursor > 0 then cursor - 1 else cursor
  }

  function MoveDown(cursor: nat, len: nat): nat {
    if cursor + 1 < len then cursor + 1 else cursor
  }

  function ActionAt(cursor: nat): Action {
    if cursor < |ACTIONS| then ACTIONS[cursor] else Archive
  }

  function ActionPickerKey(s: App, k: Key): App
    requires s.actionPicker.Some?
  {
    var p := s.actionPicker.value;
    if k.Esc? || k == Char('q') then s.(actionPicker := None)
    else if k.Up? || k == Char('k') then s.(actionPicker := Some(p.(cursor := MoveUp(p.cursor))))
    else if k.Down? || k == Char('j') then s.(actionPicker := Some(p.(cursor := MoveDown(p.cursor, |ACTIONS|))))
    else if k.Enter? then
      var closed := s.(actionPicker := None);
      match ActionAt(p.cursor)
      case Flash => closed.(purpose := Some(Purpose(Flash, p.deviceIdx, NO_CODEC)), browser := Some(Open))
      case other => closed.(codecPicker := Some(CodecPicker(other, p.deviceIdx)))
    else s
  }

  /** The position of an action in the picker, where Esc in the codec picker puts the cursor back. */
  function CursorOf(a: Action): nat {
    match a case Flash => 0 case Backup => 1 case Archive => 2
  }

  function CodecPickerKey(s: App, k: Key, w: World): App
    requires s.codecPicker.Some?
  {
    var p := s.codecPicker.value;
    if k.Esc? then s.(codecPicker := None, actionPicker := Some(ActionPicker(p.deviceIdx, CursorOf(p.action))))
    else if k.Enter? then
      s.(codecPicker := None, purpose := Some(Purpose(p.action, p.deviceIdx, w.codec)), browser := Some(Save))
    else s
  }

  /** The first mountpoint of the device, or its own path when it is not mounted. */
  function ArchiveSource(devices: seq<BlockDevice>, idx: nat): string {
    if idx < |devices| && devices[idx].mountpoints != [] then devices[idx].mountpoints[0] else DevicePath(devices, idx)
  }

  /** What picking a file starts, once the browser is closed and its purpose taken. */
  function FilePicked(s: App, p: Purpose, file: string, w: World): App {
    var path := DevicePath(s.devices, p.deviceIdx);
    match p.action
    case Backup =>
      var size := if p.deviceIdx < |s.devices| && s.devices[p.deviceIdx].sizeBytes > 0
                  then Some(s.devices[p.deviceIdx].sizeBytes) else w.fileSize(w.fast(path));
      PushSession(s, Session(Backup, p.deviceIdx, w.fast(path), file, p.codec, size, true))
    case Archive =>
      PushSession(s, Session(Archive, p.deviceIdx, ArchiveSource(s.devices, p.deviceIdx), file, p.codec, None, true))
    case Flash => s.(confirm := Some(ConfirmModal(Flash, p.deviceIdx, file, Cancel, Some(p.codec))))
  }

  function BrowserKey(s: App, k: Key, w: World): App {
    match k
    case Esc => s.(browser := None, purpose := None)
    case Right => BrowserEnter(s, w)
    case Enter => BrowserEnter(s, w)
    case _ => s
  }

  function BrowserEnter(s: App, w: World): App {
    if w.enter.Picked? then
      var closed := s.(browser := None, purpose := None);
      if s.purpose.Some? then FilePicked(closed, s.purpose.value, w.enter.file, w) else closed
    else s
  }

  function ProgressKey(s: App, k: Key): App
    requires s.viewing.Some?
  {
    var idx := s.viewing.value;
    if k.Esc? || k == Char('q') then s.(viewing := None)
    else if k.Enter? then
      if idx < |s.sessions| && !s.sessions[idx].running then
        var rest := s.sessions[..idx] + s.sessions[idx + 1..];
        s.(sessions := rest, viewing := if rest == [] then None else Some(Min(idx, |rest| - 1)))
      else s
    else if k.Tab? then s.(viewing := if idx + 1 < |s.sessions| then Some(idx + 1) else None)
    else s
  }

  function ConfirmKey(s: App, k: Key, w: World): App
    requires s.confirm.Some?
  {
    var c := s.confirm.value;
    match k
    case Esc => s.(confirm := None)
    case Left => s.(confirm := Some(Toggled(c)))
    case Right => s.(confirm := Some(Toggled(c)))
    case Tab => s.(confirm := Some(Toggled(c)))
    case BackTab => s.(confirm := Some(Toggled(c)))
    case Char(ch) =>
      if ch == 'q' then s.(confirm := None)
      else if ch == 'h' then s.(confirm := Some(c.(focus := Cancel)))
      else if ch == 'l' then s.(confirm := Some(c.(focus := Confirm)))
      else s
    case Enter =>
      var closed := s.(confirm := None);
      if c.focus.Cancel? || !c.action.Flash? then closed
      else
        var codec := if c.codec.Some? then c.codec.value else CodecLevel(0, 3);
        PushSession(closed, Session(Flash, c.deviceIdx, c.file, w.fast(DevicePath(s.devices, c.deviceIdx)), codec,
                                    w.fileSize(c.file), true))
    case _ => s
  }

  function Toggled(c: ConfirmModal): ConfirmModal {
    c.(focus := if c.focus.Cancel? then Confirm else Cancel)
  }

  /** `dispatch_key`; `quit` records that it returned `true`. */
  function Dispatch(s: App, k: Key, ctrl: bool, w: World): App {
    if k == Char('c') && ctrl then s.(quit := true)
    else if s.viewing.Some? then ProgressKey(s, k)
    else if s.confirm.Some? then ConfirmKey(s, k, w)
    else if s.browser.Some? then BrowserKey(s, k, w)
    else if s.codecPicker.Some? then CodecPickerKey(s, k, w)
    else if s.actionPicker.Some? then ActionPickerKey(s, k)
    else HomeKey(s, k, w)
  }

  // ----- The handlers, updating the state in place

  class AppState {
    var devices: seq<BlockDevice>
    var selected: nat
    var showHelp: bool
    var showAll: bool
    var actionPicker: Option<ActionPicker>
    var codecPicker: Option<CodecPicker>
    var browser: Option<BrowseMode>
    var purpose: Option<Purpose>
    var confirm: Option<ConfirmModal>
    var sessions: seq<Session>
    var viewing: Option<nat>

    ghost function View(quit: bool): App
      reads this
    {
      App(devices, selected, showHelp, showAll, actionPicker, codecPicker, browser, purpose, confirm,
          sessions, viewing, quit)
    }

    constructor (devices: seq<BlockDevice>)
      ensures View(false) == StartApp(devices)
    {
      this.devices, selected, showHelp, showAll := devices, 0, false, false;
      actionPicker, codecPicker, browser, purpose, confirm := None, None, None, None, None;
      sessions, viewing := [], None;
    }

    method HandleHomeKey(k: Key, w: World) returns (exit: bool)
      modifies this
      ensures View(exit) == HomeKey(old(View(false)), k, w)
    {
      exit := false;
      if k == Char('q') || k == Esc {
        if showHelp {
          showHelp := false;
        } else {
          exit := true;
        }
      } else if k == Char('?') || k == F(1) {
        showHelp := !showHelp;
      } else if k == F(2) {
        browser := Some(Open);
        purpose := None;
      } else if k == Enter {
        if devices != [] {
          actionPicker := Some(ActionPicker(selected, 0));
        }
      } else if k == Char('a') {
        showAll := !showAll;
        devices := w.devices;
        selected := Min(selected, Max(|devices| - 1, 0));
      } else if k == Up || k == Char('k') {
        if selected > 0 {
          selected := selected - 1;
        }
      } else if k == Down || k == Char('j') {
        if selected + 1 < |devices| {
          selected := selected + 1;
        }
      } else if k == Tab {
        if sessions != [] {
          viewing := Some(0);
        }
      } else if k == Char('r') {
        devices := w.devices;
      }
    }

    method HandleActionPickerKey(k: Key)
      requires actionPicker.Some?
      modifies this
      ensures View(false) == ActionPickerKey(old(View(false)), k)
    {
      var p := actionPicker.value;
      if k == Esc || k == Char('q') {
        actionPicker := None;
      } else if k == Up || k == Char('k') {
        actionPicker := Some(p.(cursor := MoveUp(p.cursor)));
      } else if k == Down || k == Char('j') {
        actionPicker := Some(p.(cursor := MoveDown(p.cursor, |ACTIONS|)));
      } else if k == Enter {
        var action := ActionAt(p.cursor);
        actionPicker := None;
        match action {
          case Flash =>
            purpose := Some(Purpose(action, p.deviceIdx, NO_CODEC));
            browser := Some(Open);
          case _ =>
            codecPicker := Some(CodecPicker(action, p.deviceIdx));
        }
      }
    }

    method HandleCodecPickerKey(k: Key, w: World)
      requires codecPicker.Some?
      modifies this
      ensures View(false) == CodecPickerKey(old(View(false)), k, w)
    {
      var p := codecPicker.value;
      if k == Esc {
        codecPicker := None;
        var cursor := 0;
        for i := 0 to CursorOf(p.action)
          invariant cursor == i
        {
          cursor := MoveDown(cursor, |ACTIONS|);
        }
        actionPicker := Some(ActionPicker(p.deviceIdx, cursor));
      } else if k == Enter {
        codecPicker := None;
        purpose := Some(Purpose(p.action, p.deviceIdx, w.codec));
        browser := Some(Save);
      }
    }

    method Push(x: Session)
      modifies this
      ensures View(false) == PushSession(old(View(false)), x)
    {
      sessions := sessions + [x];
      viewing := Some(|sessions| - 1);
    }

    method HandleBrowserKey(k: Key, w: World)
      modifies this
      ensures View(false) == BrowserKey(old(View(false)), k, w)
    {
      if k == Esc {
        browser := None;
        purpose := None;
      } else if k == Right || k == Enter {
        if w.enter.Picked? {
          browser := None;
          var taken := purpose;
          purpose := None;
          if taken.Some? {
            var p := taken.value;
            match p.action {
              case Backup =>
                var source := w.fast(DevicePath(devices, p.deviceIdx));
                var size := w.fileSize(source);
                if p.deviceIdx < |devices| && devices[p.deviceIdx].sizeBytes > 0 {
                  size := Some(devices[p.deviceIdx].sizeBytes);
                }
                Push(Session(Backup, p.deviceIdx, source, w.enter.file, p.codec, size, true));
              case Archive =>
                var source := DevicePath(devices, p.deviceIdx);
                if p.deviceIdx < |devices| && devices[p.deviceIdx].mountpoints != [] {
                  source := devices[p.deviceIdx].mountpoints[0];
                }
                Push(Session(Archive, p.deviceIdx, source, w.enter.file, p.codec, None, true));
              case Flash =>
                confirm := Some(ConfirmModal(p.action, p.deviceIdx, w.enter.file, Cancel, None));
                confirm := Some(confirm.value.(codec := Some(p.codec)));
            }
          }
        }
      }
    }

    method HandleProgressKey(k: Key)
      requires viewing.Some?
      modifies this
      ensures View(false) == ProgressKey(old(View(false)), k)
    {
      var idx := viewing.value;
      if k == Esc || k == Char('q') {
        viewing := None;
      } else if k == Enter {
        if idx < |sessions| && !sessions[idx].running {
          sessions := sessions[..idx] + sessions[idx + 1..];
          viewing := if sessions == [] then None else Some(Min(idx, |sessions| - 1));
        }
      } else if k == Tab {
        viewing := if idx + 1 < |sessions| then Some(idx + 1) else None;
      }
    }

    method HandleConfirmKey(k: Key, w: World)
      requires confirm.Some?
      modifies this
      ensures View(false) == ConfirmKey(old(View(false)), k, w)
    {
      var c := confirm.value;
      if k == Esc || k == Char('q') {
        confirm := None;
      } else if k == Left || k == Right || k == Tab || k == BackTab {
        confirm := Some(Toggled(c));
      } else if k == Char('h') {
        confirm := Some(c.(focus := Cancel));
      } else if k == Char('l') {
        confirm := Some(c.(focus := Confirm));
      } else if k == Enter {
        confirm := None;
        if c.focus.Confirm? && c.action.Flash? {
          var dest := w.fast(DevicePath(devices, c.deviceIdx));
          var codec := if c.codec.Some? then c.codec.value else CodecLevel(0, 3);
          Push(Session(Flash, c.deviceIdx, c.file, dest, codec, w.fileSize(c.file), true));
        }
      }
    }

    method DispatchKey(k: Key, ctrl: bool, w: World) returns (exit: bool)
      modifies this
      ensures View(exit) == Dispatch(old(View(false)), k, ctrl, w)
    {
      if k == Char('c') && ctrl {
        return true;
      }
      exit := false;
      if viewing.Some? {
        HandleProgressKey(k);
      } else if confirm.Some? {
        HandleConfirmKey(k, w);
      } else if browser.Some? {
        HandleBrowserKey(k, w);
      } else if codecPicker.Some? {
        HandleCodecPickerKey(k, w);
      } else if actionPicker.Some? {
        HandleActionPickerKey(k);
      } else {
        exit := HandleHomeKey(k, w);
      }
    }
  }
}
