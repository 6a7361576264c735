/**
 * The terminal client's application object (`App` in
 * nebula-cli/src/app/mod.rs): the key handling state machine over the three
 * input modes, the one-shot startup status of the onion service that `draw`
 * latches, the screen `draw` chooses, and the run loop that alternates
 * drawing and handling one terminal event until the user quits.
 *
 * The behaviour is specified by pure functions over `AppState` (a snapshot of
 * the object's fields) with lemmas about them; the class `App` updates its
 * fields in place and each of its methods is proved to follow the function
 * that specifies it.
 */
module NebulaApp {
  import opened Wrappers
  import opened InputModes
  import opened CenterPane

  // ---------------------------------------------------------------- keys and events

  /** The modifier flags of a key press (crossterm's `KeyModifiers`). */
  datatype Modifier = Shift | Control | Alt | Super | Hyper | Meta

  /** The keys the client tells apart; every other key code is `OtherKey`. */
  datatype KeyCode = Char(c: char) | Esc | Backspace | Enter | OtherKey

  datatype KeyKind = Press | Repeat | Release

  datatype KeyEvent = KeyEvent(modifiers: set<Modifier>, code: KeyCode, kind: KeyKind)

  /**
   * What one round of `handle_crossterm_events` sees: a key event, another
   * terminal event (resize, mouse, paste, focus), an error or the end of the
   * event stream, or the 100 ms timer firing first.
   */
  datatype TerminalEvent = Key(key: KeyEvent) | NonKeyEvent | StreamError | StreamEnded | Timeout

  /** Control and nothing else, with `q` or `Q`: the quit chord. */
  predicate IsQuitChord(key: KeyEvent): (quits: bool)
    ensures quits ==> key.code != Char('i') && key.code != Char('I') && key.code != Char('c')
  {
    key.modifiers == {Control} && (key.code == Char('q') || key.code == Char('Q'))
  }

  // ---------------------------------------------------------------- startup status

  /** A running onion service; only its address is visible to the client. */
  datatype OnionService = OnionService(onionAddress: Option<string>)

  /** What the networking task reports once: the onion service runs, or startup failed. */
  datatype ArtiEvent = Running(service: OnionService) | Failed

  /**
   * The receiving end of the one-shot startup channel: nothing sent yet, a
   * value waiting, or closed (the sender was dropped without sending, or the
   * value has already been taken).
   */
  datatype StatusChannel = Pending | Holding(event: ArtiEvent) | Closed

  datatype TryRecvError = Empty | ChannelClosed

  /**
   * `Receiver::try_recv`: takes a waiting value, leaving the channel closed;
   * reports `Empty` while nothing has been sent and `ChannelClosed` once the
   * channel is closed. Returns the outcome and the channel afterwards.
   */
  function TryRecv(rx: StatusChannel): (r: (Result<ArtiEvent, TryRecvError>, StatusChannel))
    ensures r.0.Success? <==> rx.Holding?
    ensures r.0.Success? ==> r.0.value == rx.event && r.1 == Closed
    ensures r.0 == Failure(Empty) <==> rx == Pending
    ensures r.0.Failure? ==> r.1 == rx
  {
    match rx
    case Pending => (Failure(Empty), Pending)
    case Holding(event) => (Success(event), Closed)
    case Closed => (Failure(ChannelClosed), Closed)
  }

  /** Once a channel has been received from, every later attempt reports it closed. */
  lemma TryRecvOnce(rx: StatusChannel)
    requires rx.Holding?
    ensures TryRecv(TryRecv(rx).1).0 == Failure(ChannelClosed)
  {
  }

  // ---------------------------------------------------------------- application state

  /** A snapshot of the fields of `App` (the terminal event stream is the run loop's input instead). */
  datatype AppState = AppState(
    shouldExit: bool,
    inputMode: InputMode,
    pane: CenterPaneState,
    statusRx: StatusChannel,
    isArtiStarted: bool,
    isArtiFailed: bool,
    artiRunningHs: Option<OnionService>)

  /** `App::new`: normal mode, an empty pane with no address, startup not yet reported. */
  function Initial(rx: StatusChannel): (s: AppState)
    ensures !s.shouldExit && s.inputMode == Normal && s.pane.mode == Normal
    ensures s.pane == CenterPaneState(None, "", Normal, [])
    ensures s.statusRx == rx
    ensures !s.isArtiStarted && !s.isArtiFailed && s.artiRunningHs == None
  {
    AppState(false, Normal, CenterPaneState(None, "", Normal, []), rx, false, false, None)
  }

  /** The pane's mode mirrors the insert mode: the pane is `Insert` exactly when the app is, and `Normal` otherwise. */
  predicate ModesAgree(s: AppState)
  {
    s.pane.mode == (if s.inputMode == Insert then Insert else Normal)
  }

  /** `on_key_event` mutates the edit buffer through `tui_input`; with the cursor always at the end it drops the last character. */
  function DropLast(text: string): (r: string)
    ensures text != [] ==> r + [text[|text| - 1]] == text
    ensures text == [] ==> r == []
  {
    if text == [] then [] else text[..|text| - 1]
  }

  /**
   * `on_key_event`: in normal mode the quit chord ends the program, `i` or `I`
   * (with any modifiers) enters insert mode in both the app and the pane, and
   * `c` enters command mode in the app only; in insert mode Esc returns both
   * to normal mode, a character is typed, Backspace deletes the last
   * character and Enter sends a non-empty input into the history and clears
   * it; in command mode Esc returns to normal mode. Every other key is ignored.
   */
  function OnKey(s: AppState, key: KeyEvent): (r: AppState)
    ensures r.statusRx == s.statusRx && r.isArtiStarted == s.isArtiStarted
    ensures r.isArtiFailed == s.isArtiFailed && r.artiRunningHs == s.artiRunningHs
    ensures r.pane.nodeAddress == s.pane.nodeAddress
  {
    match s.inputMode
    case Normal =>
      if IsQuitChord(key) then s.(shouldExit := true)
      else if key.code == Char('i') || key.code == Char('I') then s.(inputMode := Insert, pane := s.pane.(mode := Insert))
      else if key.code == Char('c') then s.(inputMode := Command)
      else s
    case Insert =>
      (match key.code
       case Esc => s.(inputMode := Normal, pane := s.pane.(mode := Normal))
       case Char(c) => s.(pane := s.pane.(input := s.pane.input + [c]))
       case Backspace => s.(pane := s.pane.(input := DropLast(s.pane.input)))
       case Enter =>
         if s.pane.input == [] then s
         else s.(pane := s.pane.(messages := s.pane.messages + [s.pane.input], input := []))
       case OtherKey => s)
    case Command =>
      if key.code == Esc then s.(inputMode := Normal) else s
  }

  /** The program is asked to end exactly by the quit chord in normal mode, and once asked it stays so. */
  lemma OnKeyExit(s: AppState, key: KeyEvent)
    ensures OnKey(s, key).shouldExit <==> s.shouldExit || (s.inputMode == Normal && IsQuitChord(key))
  {
  }

  /**
   * The mode changes only along the edges Normal -i/I-> Insert, Normal -c->
   * Command and Insert/Command -Esc-> Normal; entering or leaving insert mode
   * moves the pane's mode with it, entering or leaving command mode leaves
   * the pane's mode alone.
   */
  lemma OnKeyModeTransitions(s: AppState, key: KeyEvent)
    ensures var r := OnKey(s, key);
      r.inputMode != s.inputMode <==>
        || (s.inputMode == Normal && !IsQuitChord(key) && (key.code == Char('i') || key.code == Char('I') || key.code == Char('c')))
        || (s.inputMode != Normal && key.code == Esc)
    ensures var r := OnKey(s, key);
      s.inputMode == Normal && (key.code == Char('i') || key.code == Char('I')) ==>
        r.inputMode == Insert && r.pane.mode == Insert
    ensures var r := OnKey(s, key);
      s.inputMode == Normal && key.code == Char('c') ==> r.inputMode == Command && r.pane.mode == s.pane.mode
    ensures var r := OnKey(s, key);
      s.inputMode == Insert && key.code == Esc ==> r.inputMode == Normal && r.pane.mode == Normal
    ensures var r := OnKey(s, key);
      s.inputMode == Command && key.code == Esc ==> r.inputMode == Normal && r.pane.mode == s.pane.mode
    ensures var r := OnKey(s, key);
      r.pane.mode != s.pane.mode ==>
        || (s.inputMode == Normal && (key.code == Char('i') || key.code == Char('I')))
        || (s.inputMode == Insert && key.code == Esc)
  {
  }

  /**
   * The keys `on_key_event` acts on in each mode: the quit chord, `i`, `I`
   * and `c` in normal mode; Esc, characters, Backspace and Enter with a
   * non-empty input in insert mode; Esc in command mode.
   */
  predicate Handled(mode: InputMode, input: string, key: KeyEvent)
  {
    match mode
    case Normal => IsQuitChord(key) || key.code in {Char('i'), Char('I'), Char('c')}
    case Insert => key.code.Esc? || key.code.Char? || key.code.Backspace? || (key.code.Enter? && input != [])
    case Command => key.code.Esc?
  }

  /** Every key no arm of `on_key_event` acts on leaves the whole state as it was. */
  lemma OnKeyUnmatched(s: AppState, key: KeyEvent)
    requires !Handled(s.inputMode, s.pane.input, key)
    ensures OnKey(s, key) == s
  {
  }

  /** A key some arm acts on always changes the state. */
  lemma OnKeyHandledChanges(s: AppState, key: KeyEvent)
    requires Handled(s.inputMode, s.pane.input, key) && !s.shouldExit
    requires !key.code.Backspace? || s.pane.input != []
    ensures OnKey(s, key) != s
  {
    if s.inputMode == Insert && key.code.Char? {
      assert |OnKey(s, key).pane.input| == |s.pane.input| + 1;
    }
  }

  /** The quit chord in normal mode asks the program to end and changes nothing else. */
  lemma OnKeyQuit(s: AppState, key: KeyEvent)
    requires s.inputMode == Normal && IsQuitChord(key)
    ensures OnKey(s, key).shouldExit
    ensures OnKey(s, key).(shouldExit := s.shouldExit) == s
  {
  }

  /** In insert mode a character is appended to the input whatever the modifiers; nothing else changes. */
  lemma OnKeyTypes(s: AppState, key: KeyEvent)
    requires s.inputMode == Insert && key.code.Char?
    ensures var r := OnKey(s, key);
      r.pane.input == s.pane.input + [key.code.c] && r.(pane := r.pane.(input := s.pane.input)) == s
  {
  }

  /** In insert mode Backspace deletes the last character of the input, if any; nothing else changes. */
  lemma OnKeyBackspace(s: AppState, key: KeyEvent)
    requires s.inputMode == Insert && key.code == Backspace
    ensures var r := OnKey(s, key);
      && (s.pane.input != [] ==> r.pane.input + [s.pane.input[|s.pane.input| - 1]] == s.pane.input)
      && (s.pane.input == [] ==> r == s)
      && r.(pane := r.pane.(input := s.pane.input)) == s
  {
  }

  /** Every key keeps the pane's mode in step with the app's. */
  lemma OnKeyKeepsModesAgreeing(s: AppState, key: KeyEvent)
    requires ModesAgree(s)
    ensures ModesAgree(OnKey(s, key))
  {
  }

  /**
   * The history only grows, by the current input, and only when Enter is
   * pressed in insert mode with a non-empty input, which is then cleared.
   */
  lemma OnKeyHistory(s: AppState, key: KeyEvent)
    ensures var r := OnKey(s, key);
      if s.inputMode == Insert && key.code == Enter && s.pane.input != [] then
        r.pane.messages == s.pane.messages + [s.pane.input] && r.pane.input == []
      else
        r.pane.messages == s.pane.messages
  {
  }

  /** Outside insert mode neither the input nor the history changes. */
  lemma OnKeyOutsideInsert(s: AppState, key: KeyEvent)
    requires s.inputMode != Insert
    ensures OnKey(s, key).pane.input == s.pane.input
    ensures OnKey(s, key).pane.messages == s.pane.messages
  {
  }

  /** In insert mode Backspace undoes the character just typed. */
  lemma BackspaceUndoesTyping(s: AppState, c: char, m1: set<Modifier>, m2: set<Modifier>, k1: KeyKind, k2: KeyKind)
    requires s.inputMode == Insert
    ensures OnKey(OnKey(s, KeyEvent(m1, Char(c), k1)), KeyEvent(m2, Backspace, k2)) == s
  {
    assert (s.pane.input + [c])[..|s.pane.input|] == s.pane.input;
  }

  // ---------------------------------------------------------------- sequences of keys

  /** The state after the keys are handled one after another. */
  function Replay(s: AppState, keys: seq<KeyEvent>): (r: AppState)
    ensures r.statusRx == s.statusRx && r.isArtiStarted == s.isArtiStarted && r.isArtiFailed == s.isArtiFailed
    decreases |keys|
  {
    if keys == [] then s else Replay(OnKey(s, keys[0]), keys[1..])
  }

  /** The key presses that type `text`, with no modifiers. */
  function Typing(text: string): (keys: seq<KeyEvent>)
    ensures |keys| == |text|
    ensures forall i :: 0 <= i < |text| ==> keys[i] == KeyEvent({}, Char(text[i]), Press)
  {
    seq(|text|, i requires 0 <= i < |text| => KeyEvent({}, Char(text[i]), Press))
  }

  /** Handling `a` and then `b` is handling `a + b`. */
  lemma {:induction false} ReplayAppend(s: AppState, a: seq<KeyEvent>, b: seq<KeyEvent>)
    ensures Replay(s, a + b) == Replay(Replay(s, a), b)
    decreases |a|
  {
    if a != [] {
      assert (a + b)[0] == a[0];
      assert (a + b)[1..] == a[1..] + b;
      ReplayAppend(OnKey(s, a[0]), a[1..], b);
    } else {
      assert a + b == b;
    }
  }

  /** In insert mode, typing a text appends it to the input and changes nothing else. */
  lemma {:induction false} TypingAppends(s: AppState, text: string)
    requires s.inputMode == Insert
    ensures Replay(s, Typing(text)) == s.(pane := s.pane.(input := s.pane.input + text))
    decreases |text|
  {
    if text == [] {
      assert s.pane.input + text == s.pane.input;
    } else {
      var s1 := OnKey(s, KeyEvent({}, Char(text[0]), Press));
      assert Typing(text)[1..] == Typing(text[1..]);
      TypingAppends(s1, text[1..]);
      assert s.pane.input + text == s.pane.input + [text[0]] + text[1..];
    }
  }

  /** From normal mode, `i`, a non-empty text and Enter put exactly that text at the end of the history. */
  lemma {:induction false} SendMessage(s: AppState, text: string)
    requires s.inputMode == Normal && s.pane.input == [] && text != []
    ensures var r := Replay(s, [KeyEvent({}, Char('i'), Press)] + Typing(text) + [KeyEvent({}, Enter, Press)]);
      && r.pane.messages == s.pane.messages + [text]
      && r.pane.input == []
      && r.inputMode == Insert
  {
    var enterInsert := [KeyEvent({}, Char('i'), Press)];
    var enter := [KeyEvent({}, Enter, Press)];
    var s1 := OnKey(s, enterInsert[0]);
    assert !IsQuitChord(enterInsert[0]);
    assert s1.inputMode == Insert && s1.pane.input == [] && s1.pane.messages == s.pane.messages;
    assert Replay(s, enterInsert) == s1;
    TypingAppends(s1, text);
    var s2 := Replay(s1, Typing(text));
    assert s2.pane.input == text;
    assert Replay(s2, enter) == OnKey(s2, enter[0]);
    ReplayAppend(s, enterInsert, Typing(text));
    ReplayAppend(s, enterInsert + Typing(text), enter);
  }

  /** Every message in the history is non-empty, whatever keys are pressed. */
  lemma {:induction false} HistoryStaysNonEmpty(s: AppState, keys: seq<KeyEvent>)
    requires forall i :: 0 <= i < |s.pane.messages| ==> s.pane.messages[i] != []
    ensures var r := Replay(s, keys);
      forall i :: 0 <= i < |r.pane.messages| ==> r.pane.messages[i] != []
    decreases |keys|
  {
    if keys != [] {
      var s1 := OnKey(s, keys[0]);
      OnKeyHistory(s, keys[0]);
      assert forall i :: 0 <= i < |s1.pane.messages| ==> s1.pane.messages[i] != [] by {
        if |s1.pane.messages| > |s.pane.messages| {
          assert s1.pane.messages == s.pane.messages + [s.pane.input];
        }
      }
      HistoryStaysNonEmpty(s1, keys[1..]);
      var r := Replay(s, keys);
      assert r == Replay(s1, keys[1..]);
      assert forall i :: 0 <= i < |r.pane.messages| ==> r.pane.messages[i] != [];
    } else {
      assert Replay(s, keys) == s;
    }
  }

  /** Any keys keep the pane's mode in step with the app's. */
  lemma {:induction false} ReplayKeepsModesAgreeing(s: AppState, keys: seq<KeyEvent>)
    requires ModesAgree(s)
    ensures ModesAgree(Replay(s, keys))
    decreases |keys|
  {
    if keys != [] {
      OnKeyKeepsModesAgreeing(s, keys[0]);
      ReplayKeepsModesAgreeing(OnKey(s, keys[0]), keys[1..]);
    }
  }

  /** The history is never shortened or rewritten: later keys only append to it. */
  lemma {:induction false} HistoryOnlyGrows(s: AppState, keys: seq<KeyEvent>)
    ensures var r := Replay(s, keys);
      |s.pane.messages| <= |r.pane.messages| && r.pane.messages[..|s.pane.messages|] == s.pane.messages
    decreases |keys|
  {
    if keys != [] {
      var s1 := OnKey(s, keys[0]);
      OnKeyHistory(s, keys[0]);
      HistoryOnlyGrows(s1, keys[1..]);
      var r := Replay(s1, keys[1..]);
      assert r.pane.messages[..|s.pane.messages|] == r.pane.messages[..|s1.pane.messages|][..|s.pane.messages|];
    }
  }

  // ---------------------------------------------------------------- drawing

  /** Which of the three screens `draw` shows. */
  datatype Screen = StartupFailed | MainScreen | Starting

  /**
   * The first part of `draw`: while startup has been neither reported as
   * running nor as failed, poll the channel once; a running service sets the
   * started flag, the pane's node address and the running service; a
   * reported failure or a closed channel sets the failed flag; an empty
   * channel changes nothing. Once either flag is set the channel is no
   * longer polled.
   */
  function PollStatus(s: AppState): (r: AppState)
    ensures r.shouldExit == s.shouldExit && r.inputMode == s.inputMode
    ensures r.pane.input == s.pane.input && r.pane.messages == s.pane.messages && r.pane.mode == s.pane.mode
  {
    if !s.isArtiStarted && !s.isArtiFailed then
      var (outcome, rx) := TryRecv(s.statusRx);
      var polled := s.(statusRx := rx);
      match outcome
      case Success(Running(hs)) =>
        polled.(isArtiStarted := true, pane := s.pane.(nodeAddress := hs.onionAddress), artiRunningHs := Some(hs))
      case Success(Failed) => polled.(isArtiFailed := true)
      case Failure(Empty) => polled
      case Failure(ChannelClosed) => polled.(isArtiFailed := true)
    else
      s
  }

  /** The screen for the flags: the failure message wins, then the main layout, else the starting message. */
  function ScreenOf(s: AppState): (screen: Screen)
    ensures screen == StartupFailed <==> s.isArtiFailed
    ensures screen == MainScreen <==> s.isArtiStarted && !s.isArtiFailed
  {
    if s.isArtiFailed then StartupFailed else if s.isArtiStarted then MainScreen else Starting
  }

  /** A poll before anything was reported sets exactly one flag, according to what the channel held. */
  lemma PollOutcome(s: AppState)
    requires !s.isArtiStarted && !s.isArtiFailed
    ensures var r := PollStatus(s);
      && (r.isArtiStarted <==> s.statusRx.Holding? && s.statusRx.event.Running?)
      && (r.isArtiFailed <==> s.statusRx == Closed || s.statusRx == Holding(Failed))
      && !(r.isArtiStarted && r.isArtiFailed)
      && (r.isArtiStarted ==> r.pane.nodeAddress == s.statusRx.event.service.onionAddress
                              && r.artiRunningHs == Some(s.statusRx.event.service))
      && (s.statusRx == Pending ==> r == s)
  {
  }

  /** Once startup was reported either way, drawing no longer touches the state. */
  lemma PollLatched(s: AppState)
    requires s.isArtiStarted || s.isArtiFailed
    ensures PollStatus(s) == s
  {
  }

  // ---------------------------------------------------------------- run loop

  /** `handle_crossterm_events`: only a key press reaches `on_key_event`; everything else leaves the state alone. */
  function HandleEvent(s: AppState, event: TerminalEvent): (r: AppState)
    ensures event.Key? && event.key.kind == Press ==> r == OnKey(s, event.key)
    ensures !(event.Key? && event.key.kind == Press) ==> r == s
  {
    match event
    case Key(key) => if key.kind == Press then OnKey(s, key) else s
    case _ => s
  }

  /**
   * What the networking task does with its end of the startup channel before
   * a round's `draw`: nothing yet, send the one status report, or drop the
   * sender without sending.
   */
  datatype SenderStep = Wait | Send(report: ArtiEvent) | DropSender

  /**
   * The channel after the sender's step. A one-shot sender is consumed by
   * sending, so only a channel nothing has been sent on yet can change; a
   * value waiting or a closed channel stays as it is.
   */
  function SenderActs(rx: StatusChannel, step: SenderStep): (r: StatusChannel)
    ensures rx != Pending ==> r == rx
    ensures r == Pending <==> rx == Pending && step == Wait
  {
    if rx != Pending then rx
    else match step
      case Wait => Pending
      case Send(event) => Holding(event)
      case DropSender => Closed
  }

  /** The input of one round: what the sender does first, then the event the terminal delivers. */
  datatype RoundInput = RoundInput(sender: SenderStep, event: TerminalEvent)

  /** One round of `run`: the sender may act, then `draw` polls the channel, then one terminal event is handled. */
  function Round(s: AppState, input: RoundInput): (r: AppState)
    ensures s.isArtiStarted ==> r.isArtiStarted
    ensures s.isArtiFailed ==> r.isArtiFailed
    ensures s.shouldExit ==> r.shouldExit
  {
    HandleEvent(PollStatus(s.(statusRx := SenderActs(s.statusRx, input.sender))), input.event)
  }

  /** The state after one round per input. */
  function Session(s: AppState, rounds: seq<RoundInput>): (r: AppState)
    ensures s.isArtiStarted ==> r.isArtiStarted
    ensures s.isArtiFailed ==> r.isArtiFailed
    ensures s.shouldExit ==> r.shouldExit
    decreases |rounds|
  {
    if rounds == [] then s else Session(Round(s, rounds[0]), rounds[1..])
  }

  /** A round more is the round after the shorter session. */
  lemma {:induction false} SessionExtend(s: AppState, rounds: seq<RoundInput>, k: nat)
    requires k < |rounds|
    ensures Session(s, rounds[..k + 1]) == Round(Session(s, rounds[..k]), rounds[k])
    decreases k
  {
    if k > 0 {
      assert rounds[..k + 1][1..] == rounds[1..][..k];
      assert rounds[..k][1..] == rounds[1..][..k - 1];
      SessionExtend(Round(s, rounds[0]), rounds[1..], k - 1);
    } else {
      assert rounds[..1][1..] == [];
    }
  }

  /**
   * While startup has not been reported, the round's `draw` shows what the
   * sender did just before it: the starting message while it waits, the main
   * screen with the service's address once it reports a running service,
   * the failure message once it reports failure or drops the sender.
   */
  lemma RoundDuringStartup(s: AppState, input: RoundInput)
    requires !s.isArtiStarted && !s.isArtiFailed && s.statusRx == Pending
    ensures var r := Round(s, input);
      && (input.sender == Wait ==> ScreenOf(r) == Starting && r.statusRx == Pending)
      && (input.sender.Send? && input.sender.report.Running? ==>
            && ScreenOf(r) == MainScreen
            && r.pane.nodeAddress == input.sender.report.service.onionAddress
            && r.artiRunningHs == Some(input.sender.report.service))
      && (input.sender == Send(Failed) || input.sender == DropSender ==> ScreenOf(r) == StartupFailed)
  {
    var p := PollStatus(s.(statusRx := SenderActs(s.statusRx, input.sender)));
    PollOutcome(s.(statusRx := SenderActs(s.statusRx, input.sender)));
    if input.event.Key? && input.event.key.kind == Press {
      assert Round(s, input) == OnKey(p, input.event.key);
    }
  }

  /** From `App::new`, a service reported running in the first round puts its address on the main screen. */
  lemma MainScreenAfterReport(hs: OnionService, event: TerminalEvent)
    ensures var r := Session(Initial(Pending), [RoundInput(Send(Running(hs)), event)]);
      ScreenOf(r) == MainScreen && r.pane.nodeAddress == hs.onionAddress
  {
    var rounds := [RoundInput(Send(Running(hs)), event)];
    RoundDuringStartup(Initial(Pending), rounds[0]);
    assert Session(Initial(Pending), rounds) == Session(Round(Initial(Pending), rounds[0]), []);
  }

  /** Every state of the session is reachable from `App::new`: neither flag pair is ever both set, and the modes agree. */
  ghost predicate Coherent(s: AppState)
  {
    && !(s.isArtiStarted && s.isArtiFailed)
    && (s.isArtiStarted <==> s.artiRunningHs.Some?)
    && ModesAgree(s)
  }

  /** A round keeps the state coherent, whatever the sender and the terminal do. */
  lemma RoundKeepsCoherent(s: AppState, input: RoundInput)
    requires Coherent(s)
    ensures Coherent(Round(s, input))
  {
    var p := PollStatus(s.(statusRx := SenderActs(s.statusRx, input.sender)));
    assert ModesAgree(p);
    if input.event.Key? && input.event.key.kind == Press {
      OnKeyKeepsModesAgreeing(p, input.event.key);
    }
  }

  /** Any number of rounds keeps the state coherent. */
  lemma {:induction false} SessionKeepsCoherent(s: AppState, rounds: seq<RoundInput>)
    requires Coherent(s)
    ensures Coherent(Session(s, rounds))
    decreases |rounds|
  {
    if rounds != [] {
      RoundKeepsCoherent(s, rounds[0]);
      SessionKeepsCoherent(Round(s, rounds[0]), rounds[1..]);
    }
  }

  /** Once the main screen or the failure screen is shown, it stays for the rest of the session, whatever the sender does. */
  lemma {:induction false} ScreenIsFinal(s: AppState, rounds: seq<RoundInput>)
    requires Coherent(s) && ScreenOf(s) != Starting
    ensures ScreenOf(Session(s, rounds)) == ScreenOf(s)
    ensures Session(s, rounds).pane.nodeAddress == s.pane.nodeAddress
    decreases |rounds|
  {
    if rounds != [] {
      PollLatched(s.(statusRx := SenderActs(s.statusRx, rounds[0].sender)));
      RoundKeepsCoherent(s, rounds[0]);
      ScreenIsFinal(Round(s, rounds[0]), rounds[1..]);
    }
  }

  // ---------------------------------------------------------------- the object

  /** The application object; its fields are those of `App`, the terminal event stream aside. */
  class App {
    var shouldExit: bool
    var inputMode: InputMode
    var centerPaneState: CenterPaneState
    var artiStatusRx: StatusChannel
    var isArtiStarted: bool
    var isArtiFailed: bool
    var artiRunningHs: Option<OnionService>

    /** The fields as a value. */
    function State(): AppState
      reads this
    {
      AppState(shouldExit, inputMode, centerPaneState, artiStatusRx, isArtiStarted, isArtiFailed, artiRunningHs)
    }

    /** `App::new`. */
    constructor(rx: StatusChannel)
      ensures State() == Initial(rx)
      ensures Coherent(State())
    {
      shouldExit := false;
      inputMode := Normal;
      centerPaneState := CenterPaneState(None, "", Normal, []);
      artiStatusRx := rx;
      isArtiStarted := false;
      isArtiFailed := false;
      artiRunningHs := None;
    }

    /** `on_key_event`, updating the fields in place. */
    method OnKeyEvent(key: KeyEvent)
      modifies this
      ensures State() == OnKey(old(State()), key)
    {
      match inputMode
      case Normal =>
        if key.modifiers == {Control} && (key.code == Char('q') || key.code == Char('Q')) {
          shouldExit := true;
        } else if key.code == Char('i') || key.code == Char('I') {
          inputMode := Insert;
          centerPaneState := centerPaneState.(mode := Insert);
        } else if key.code == Char('c') {
          inputMode := Command;
        }
      case Insert =>
        match key.code {
          case Esc =>
            inputMode := Normal;
            centerPaneState := centerPaneState.(mode := Normal);
          case Char(c) =>
            centerPaneState := centerPaneState.(input := centerPaneState.input + [c]);
          case Backspace =>
            if centerPaneState.input != [] {
              centerPaneState := centerPaneState.(input := centerPaneState.input[..|centerPaneState.input| - 1]);
            }
          case Enter =>
            if centerPaneState.input == [] {
              return;
            }
            centerPaneState := centerPaneState.(messages := centerPaneState.messages + [centerPaneState.input]);
            centerPaneState := centerPaneState.(input := []);
          case OtherKey =>
        }
      case Command =>
        if key.code == Esc {
          inputMode := Normal;
        }
    }

    /** `draw` without the rendering: latches the startup status and says which screen it shows. */
    method Draw() returns (screen: Screen)
      modifies this
      ensures State() == PollStatus(old(State()))
      ensures screen == ScreenOf(State())
    {
      if !isArtiStarted && !isArtiFailed {
        var polled := TryRecv(artiStatusRx);
        artiStatusRx := polled.1;
        match polled.0
        case Success(Running(hs)) =>
          isArtiStarted := true;
          centerPaneState := centerPaneState.(nodeAddress := hs.onionAddress);
          artiRunningHs := Some(hs);
        case Success(Failed) =>
          isArtiFailed := true;
        case Failure(Empty) =>
        case Failure(ChannelClosed) =>
          isArtiFailed := true;
      }
      if isArtiFailed {
        screen := StartupFailed;
      } else if isArtiStarted {
        screen := MainScreen;
      } else {
        screen := Starting;
      }
    }

    /** `handle_crossterm_events` for one event the stream or the timer delivered. */
    method HandleCrosstermEvents(event: TerminalEvent)
      modifies this
      ensures State() == HandleEvent(old(State()), event)
    {
      if event.Key? && event.key.kind == Press {
        OnKeyEvent(event.key);
      }
    }

    /** The networking task acting on its end of the startup channel. */
    method TakeSenderStep(step: SenderStep)
      modifies this
      ensures State() == old(State()).(statusRx := SenderActs(old(artiStatusRx), step))
    {
      if artiStatusRx == Pending {
        match step
        case Wait =>
        case Send(event) => artiStatusRx := Holding(event);
        case DropSender => artiStatusRx := Closed;
      }
    }

    /**
     * `run` over the rounds: in each, the sender may act, then the screen is
     * drawn and one event the terminal delivers is handled, while the program
     * has not been asked to end. Returns how many rounds ran; it stops at the
     * first round that asks the program to end, or when the rounds run out.
     */
    method Run(rounds: seq<RoundInput>) returns (handled: nat)
      modifies this
      ensures handled <= |rounds|
      ensures State() == Session(old(State()), rounds[..handled])
      ensures shouldExit || handled == |rounds|
      ensures old(shouldExit) ==> handled == 0
      ensures forall k :: 0 < k < handled ==> !Session(old(State()), rounds[..k]).shouldExit
      ensures Coherent(old(State())) ==> Coherent(State())
    {
      ghost var start := State();
      handled := 0;
      while !shouldExit && handled < |rounds|
        invariant handled <= |rounds|
        invariant State() == Session(start, rounds[..handled])
        invariant start.shouldExit ==> handled == 0
        invariant forall k :: 0 < k < handled ==> !Session(start, rounds[..k]).shouldExit
        invariant handled > 0 ==> (shouldExit || !Session(start, rounds[..handled]).shouldExit)
      {
        assert !Session(start, rounds[..handled]).shouldExit;
        TakeSenderStep(rounds[handled].sender);
        var _ := Draw();
        HandleCrosstermEvents(rounds[handled].event);
        SessionExtend(start, rounds, handled);
        handled := handled + 1;
      }
      if Coherent(start) {
        SessionKeepsCoherent(start, rounds[..handled]);
      }
    }
  }
}
