/**
 * The ring-gesture router of the glasses (teleprompter/src/glasses/events.ts).
 * A hub event carries a text-container event, a system event, or both; the
 * router maps each gesture to store operations and to text pushed to the
 * glasses, and runs a modal "End this feature?" prompt with its own listener.
 *
 * The store operations `fileListNext`, `fileListPrev`, `fileListSelect` and
 * `handleDoubleTap` are not part of this model: calling one may change any
 * field of the session, and `handleDoubleTap` may return any of its three
 * results. The text `renderFileListForGlasses()` returns is the symbolic
 * `FileList`. What the router does is recorded, in order, in a ghost log.
 */
module Events {
  import opened Wrappers
  import Store

  const ClosePromptText := "End this feature?\n\n  > Yes\n    No"
  const BackToStartText := "Back to start"

  /** The gesture kinds the router tells apart; every other kind is `OtherEvent`. */
  datatype EventType =
    | Click
    | ScrollTop
    | ScrollBottom
    | DoubleClick
    | ForegroundEnter
    | ForegroundExit
    | OtherEvent(code: int)

  datatype HubEvent = HubEvent(textEvent: Option<EventType>, sysEvent: Option<EventType>)

  /** What `handleDoubleTap` reports it did. */
  datatype DoubleTapResult = Jump | Deselect | Close

  datatype StoreOp =
    | NextWindow
    | PrevWindow
    | TogglePlayback
    | FileListNext
    | FileListPrev
    | FileListSelect
    | HandleDoubleTap

  /** Text pushed to the glasses: a literal text, or the rendered file list. */
  datatype Shown = Text(text: string) | FileList

  /** One observable action of the router. */
  datatype Effect =
    | Call(op: StoreOp)
    | Push(shown: Shown)
    | Subscribe(handle: nat)
    | Unsubscribe(handle: nat)
    | Shutdown

  predicate IsFileListOp(op: StoreOp) {
    op == FileListNext || op == FileListPrev || op == FileListSelect
  }

  predicate IsWindowOp(op: StoreOp) {
    op == NextWindow || op == PrevWindow || op == TogglePlayback
  }

  /**
   * `handleTap`: in playback it toggles playback; otherwise it selects from
   * the file list and pushes the window then current (`shown`) unless it is
   * empty.
   */
  function TapEffects(inPlayback: bool, shown: string): (r: seq<Effect>)
    ensures inPlayback ==> r == [Call(TogglePlayback)]
    ensures !inPlayback ==> 1 <= |r| <= 2 && r[0] == Call(FileListSelect)
    ensures !inPlayback ==> (|r| == 2 <==> shown != "") && (|r| == 2 ==> r[1] == Push(Text(shown)))
  {
    if inPlayback then [Call(TogglePlayback)]
    else [Call(FileListSelect)] + (if shown != "" then [Push(Text(shown))] else [])
  }

  /**
   * The text-container branch of the main handler. In playback a gesture
   * makes at most one call, to a window operation, and pushes nothing;
   * outside playback it calls a file-list operation first. It never opens
   * the prompt or shuts down.
   */
  function TextEffects(t: EventType, inPlayback: bool, shown: string): (r: seq<Effect>)
    ensures inPlayback ==> |r| <= 1 && forall k :: 0 <= k < |r| ==> r[k].Call? && IsWindowOp(r[k].op)
    ensures !inPlayback && |r| > 0 ==> r[0].Call? && IsFileListOp(r[0].op)
    ensures forall k :: 0 <= k < |r| ==> !r[k].Subscribe? && !r[k].Shutdown? && !r[k].Unsubscribe?
    ensures t != ScrollBottom && t != ScrollTop && t != Click ==> r == []
  {
    match t
      case ScrollBottom => if inPlayback then [Call(NextWindow)] else [Call(FileListNext), Push(FileList)]
      case ScrollTop => if inPlayback then [Call(PrevWindow)] else [Call(FileListPrev), Push(FileList)]
      case Click => TapEffects(inPlayback, shown)
      case _ => []
  }

  /**
   * The system branch of the main handler. A click does exactly what a
   * text-container click does; a double tap asks the store first; only a
   * double tap reported as `Close` subscribes the prompt; foreground changes
   * do nothing.
   */
  function SysEffects(t: EventType, inPlayback: bool, shown: string, result: DoubleTapResult, handle: nat): (r: seq<Effect>)
    ensures t == Click ==> r == TextEffects(Click, inPlayback, shown)
    ensures t == DoubleClick ==> |r| >= 2 && r[0] == Call(HandleDoubleTap)
    ensures Subscribe(handle) in r <==> t == DoubleClick && result == Close
    ensures t == ForegroundEnter || t == ForegroundExit ==> r == []
  {
    match t
      case Click => TapEffects(inPlayback, shown)
      case DoubleClick =>
        [Call(HandleDoubleTap)] +
        (match result
           case Jump => [Push(Text(BackToStartText))]
           case Deselect => [Push(FileList)]
           case Close => [Push(Text(ClosePromptText)), Subscribe(handle)])
      case _ => []
  }

  /** Whether the prompt takes the event as "yes": a click from either source, or a double tap. */
  predicate Confirms(e: HubEvent) {
    e.textEvent == Some(Click) || e.sysEvent == Some(Click) || e.sysEvent == Some(DoubleClick)
  }

  /** Whether the prompt takes the event as "no": a scroll either way on the text container. */
  predicate Cancels(e: HubEvent) {
    e.textEvent == Some(ScrollBottom) || e.textEvent == Some(ScrollTop)
  }

  /**
   * The window index a text event leaves behind during playback: a scroll
   * down moves on and a scroll up moves back, each only while there is a
   * window that way; anything else keeps it.
   */
  function IndexAfterText(t: Option<EventType>, i: int, count: int): int {
    match t
      case Some(ScrollBottom) => if i < count - 1 then i + 1 else i
      case Some(ScrollTop) => if i > 0 then i - 1 else i
      case _ => i
  }

  /** A store operation that is not part of this model: it may change any field of the session. */
  method CallUnseen(s: Store.Session)
    modifies s
  {
    s.files, s.currentFileId, s.bpm := *, *, *;
    s.isPlaying, s.windowIndex, s.windows := *, *, *;
  }

  /** `handleDoubleTap`: not part of this model; it may change the session and reports one of its three results. */
  method CallHandleDoubleTap(s: Store.Session) returns (result: DoubleTapResult)
    modifies s
  {
    CallUnseen(s);
    result := *;
  }

  class Router {
    var closePromptActive: bool
    /** The unsubscriber of the prompt's listener, as a handle. */
    var closePromptUnsub: Option<nat>
    var nextHandle: nat
    ghost var log: seq<Effect>

    /** The prompt is active exactly while its listener is subscribed. */
    ghost predicate Valid()
      reads this
    {
      (closePromptActive <==> closePromptUnsub.Some?) &&
      (closePromptUnsub.Some? ==> closePromptUnsub.value < nextHandle)
    }

    constructor ()
      ensures Valid() && !closePromptActive && closePromptUnsub == None && log == []
    {
      closePromptActive := false;
      closePromptUnsub := None;
      nextHandle := 0;
      log := [];
    }

    /** `showClosePrompt`: activate the prompt, show its text, then subscribe its listener. */
    method ShowClosePrompt()
      requires Valid() && !closePromptActive
      modifies this
      ensures Valid() && closePromptActive && closePromptUnsub == Some(old(nextHandle))
      ensures log == old(log) + [Push(Text(ClosePromptText)), Subscribe(old(nextHandle))]
    {
      closePromptActive := true;
      log := log + [Push(Text(ClosePromptText))];
      closePromptUnsub := Some(nextHandle);
      log := log + [Subscribe(nextHandle)];
      nextHandle := nextHandle + 1;
    }

    /** `cleanupClosePrompt`: deactivate, and unsubscribe the listener if it is still subscribed. */
    method CleanupClosePrompt()
      requires Valid()
      modifies this
      ensures Valid() && !closePromptActive && closePromptUnsub == None
      ensures nextHandle == old(nextHandle)
      ensures old(closePromptUnsub).Some? ==> log == old(log) + [Unsubscribe(old(closePromptUnsub).value)]
      ensures old(closePromptUnsub).None? ==> log == old(log)
    {
      closePromptActive := false;
      if closePromptUnsub.Some? {
        log := log + [Unsubscribe(closePromptUnsub.value)];
        closePromptUnsub := None;
      }
    }

    /** `handleTap`, reading `currentFileId` afresh. */
    method HandleTap(s: Store.Session)
      modifies this`log, s
      ensures log == old(log) + TapEffects(old(s.currentFileId).Some?, s.CurrentWindow())
      ensures old(s.currentFileId).Some? ==>
        s.isPlaying == !old(s.isPlaying) && s.files == old(s.files) && s.currentFileId == old(s.currentFileId) &&
        s.bpm == old(s.bpm) && s.windowIndex == old(s.windowIndex) && s.windows == old(s.windows)
      ensures old(s.currentFileId).Some? && old(s.Valid()) ==> s.Valid()
    {
      if s.currentFileId.Some? {
        s.TogglePlayback();
        log := log + [Call(TogglePlayback)];
      } else {
        CallUnseen(s);
        log := log + [Call(FileListSelect)];
        var content := s.CurrentWindow();
        if content != "" {
          log := log + [Push(Text(content))];
        }
      }
    }

    /** The `textEvent` switch of the main handler, with `inPlayback` read before it. */
    method OnTextEvent(t: EventType, inPlayback: bool, s: Store.Session)
      requires inPlayback == s.currentFileId.Some?
      modifies this`log, s
      ensures log == old(log) + TextEffects(t, inPlayback, s.CurrentWindow())
      ensures inPlayback ==>
        s.files == old(s.files) && s.currentFileId == old(s.currentFileId) && s.bpm == old(s.bpm) &&
        s.windows == old(s.windows) && (old(s.Valid()) ==> s.Valid())
      ensures inPlayback && t == ScrollBottom ==>
        s.isPlaying == old(s.isPlaying) &&
        s.windowIndex == (if old(s.windowIndex) < |s.windows| - 1 then old(s.windowIndex) + 1 else old(s.windowIndex))
      ensures inPlayback && t == ScrollTop ==>
        s.isPlaying == old(s.isPlaying) &&
        s.windowIndex == (if old(s.windowIndex) > 0 then old(s.windowIndex) - 1 else old(s.windowIndex))
      ensures inPlayback && t == Click ==> s.isPlaying == !old(s.isPlaying) && s.windowIndex == old(s.windowIndex)
      ensures t != ScrollBottom && t != ScrollTop && t != Click ==>
        log == old(log) && s.isPlaying == old(s.isPlaying) && s.windowIndex == old(s.windowIndex) &&
        s.files == old(s.files) && s.currentFileId == old(s.currentFileId) && s.bpm == old(s.bpm) &&
        s.windows == old(s.windows)
    {
      match t {
        case ScrollBottom =>
          if inPlayback {
            s.NextWindow();
            log := log + [Call(NextWindow)];
          } else {
            CallUnseen(s);
            log := log + [Call(FileListNext), Push(FileList)];
          }
        case ScrollTop =>
          if inPlayback {
            s.PrevWindow();
            log := log + [Call(PrevWindow)];
          } else {
            CallUnseen(s);
            log := log + [Call(FileListPrev), Push(FileList)];
          }
        case Click =>
          HandleTap(s);
        case _ =>
      }
    }

    /** The `sysEvent` switch of the main handler; `result` is what `handleDoubleTap` returned, if it was called. */
    method OnSysEvent(t: EventType, s: Store.Session) returns (result: Option<DoubleTapResult>)
      requires Valid() && !closePromptActive
      modifies this, s
      ensures Valid()
      ensures result.Some? <==> t == DoubleClick
      ensures log == old(log) + SysEffects(t, old(s.currentFileId).Some?, s.CurrentWindow(),
                                           if result.Some? then result.value else Jump, old(nextHandle))
      ensures closePromptActive <==> result == Some(Close)
      ensures t != Click && t != DoubleClick ==>
        s.isPlaying == old(s.isPlaying) && s.windowIndex == old(s.windowIndex) &&
        s.files == old(s.files) && s.currentFileId == old(s.currentFileId) && s.bpm == old(s.bpm) &&
        s.windows == old(s.windows) && nextHandle == old(nextHandle)
    {
      result := None;
      match t {
        case Click =>
          HandleTap(s);
        case DoubleClick =>
          var r := CallHandleDoubleTap(s);
          result := Some(r);
          log := log + [Call(HandleDoubleTap)];
          match r {
            case Jump =>
              log := log + [Push(Text(BackToStartText))];
            case Deselect =>
              log := log + [Push(FileList)];
            case Close =>
              ShowClosePrompt();
          }
        case _ =>
      }
    }

    /**
     * The main listener `setupGlassesEvents` subscribes. While the prompt is
     * active it does nothing. Otherwise it runs the text branch, then the
     * system branch; `inPlayback` for the text branch is read once before
     * either. The ghost results give the part of the log each branch wrote,
     * the window current after the text branch, and whether a file was
     * selected when the system branch began.
     */
    method OnEvent(e: HubEvent, s: Store.Session) returns (result: Option<DoubleTapResult>,
                                                          ghost textPart: seq<Effect>, ghost sysPart: seq<Effect>,
                                                          ghost shownAfterText: string, ghost playingAtSys: bool)
      requires Valid()
      modifies this, s
      ensures Valid()
      ensures log == old(log) + textPart + sysPart
      ensures old(closePromptActive) ==>
        log == old(log) && closePromptActive == old(closePromptActive) && result == None &&
        s.isPlaying == old(s.isPlaying) && s.windowIndex == old(s.windowIndex) &&
        s.files == old(s.files) && s.currentFileId == old(s.currentFileId) && s.bpm == old(s.bpm) &&
        s.windows == old(s.windows)
      ensures textPart ==
        if old(closePromptActive) || e.textEvent.None? then []
        else TextEffects(e.textEvent.value, old(s.currentFileId).Some?, shownAfterText)
      ensures sysPart ==
        if old(closePromptActive) || e.sysEvent.None? then []
        else SysEffects(e.sysEvent.value, playingAtSys, s.CurrentWindow(),
                        if result.Some? then result.value else Jump, old(nextHandle))
      ensures e.sysEvent.None? || (e.sysEvent.value != Click && e.sysEvent.value != DoubleClick) ==> shownAfterText == s.CurrentWindow()
      ensures e.textEvent.None? ==> playingAtSys == old(s.currentFileId).Some?
      ensures !old(closePromptActive) && old(s.currentFileId).Some? ==>
        playingAtSys &&
        shownAfterText == Store.WindowAt(old(s.windows), IndexAfterText(e.textEvent, old(s.windowIndex), |old(s.windows)|))
      ensures result.Some? <==> !old(closePromptActive) && e.sysEvent == Some(DoubleClick)
    {
      result, textPart, sysPart := None, [], [];
      shownAfterText, playingAtSys := s.CurrentWindow(), s.currentFileId.Some?;
      if closePromptActive {
        return;
      }
      var inPlayback := s.currentFileId.Some?;
      ghost var index := IndexAfterText(e.textEvent, s.windowIndex, |s.windows|);
      if e.textEvent.Some? {
        ghost var before := log;
        OnTextEvent(e.textEvent.value, inPlayback, s);
        textPart := log[|before|..];
        assert log == before + textPart;
      }
      assert inPlayback ==> s.currentFileId.Some? && s.windows == old(s.windows) && s.windowIndex == index;
      shownAfterText, playingAtSys := s.CurrentWindow(), s.currentFileId.Some?;
      if e.sysEvent.Some? {
        ghost var before := log;
        result := OnSysEvent(e.sysEvent.value, s);
        sysPart := log[|before|..];
        assert log == before + sysPart;
      }
    }

    /**
     * The prompt's listener, subscribed while the prompt is active: a
     * confirming gesture closes the prompt and shuts the page down; a scroll
     * closes it and shows the file list; anything else leaves it open.
     */
    method OnClosePromptEvent(e: HubEvent)
      requires Valid() && closePromptActive
      modifies this
      ensures Valid() && nextHandle == old(nextHandle)
      ensures Confirms(e) ==>
        !closePromptActive && log == old(log) + [Unsubscribe(old(closePromptUnsub).value), Shutdown]
      ensures !Confirms(e) && Cancels(e) ==>
        !closePromptActive && log == old(log) + [Unsubscribe(old(closePromptUnsub).value), Push(FileList)]
      ensures !Confirms(e) && !Cancels(e) ==>
        closePromptActive && closePromptUnsub == old(closePromptUnsub) && log == old(log)
    {
      var clickEvent := e.textEvent == Some(Click) || e.sysEvent == Some(Click);
      var scrollEvent := e.textEvent == Some(ScrollBottom) || e.textEvent == Some(ScrollTop);
      var doubleTapEvent := e.sysEvent == Some(DoubleClick);
      if clickEvent || doubleTapEvent {
        CleanupClosePrompt();
        log := log + [Shutdown];
      } else if scrollEvent {
        CleanupClosePrompt();
        log := log + [Push(FileList)];
      }
    }
  }
}
