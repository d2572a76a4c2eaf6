/** The event loop: one tick reads at most one serial line and then at most
    one key, and a run is a sequence of ticks that ends early on quit or on a
    failed write. */
module EventLoop {
  import opened Basics
  import opened Text
  import opened Keys
  import opened Session

  /** What one tick receives from outside: the serial line read, if any (the
      number of bytes read is zero exactly when the text is empty), the key
      read from the terminal, if any, whether a serial write would succeed, and
      the clock reading. */
  datatype TickInput = TickInput(serial: Option<string>, key: Option<Key>, writeOk: bool, now: nat)

  /** The serial phase of a tick. A non-empty read is trimmed and routed by
      mode; no read, or an empty one, changes nothing. Neither path touches the
      mode or the buffer, and in Gcode mode Ctrl is never pressed. */
  function ReadPhase(st: State, serial: Option<string>, now: nat): (r: Translation)
    ensures serial.None? || serial.value == [] ==> r == Translation(st, [], false)
    ensures r.state.mode == st.mode && r.state.gcodeInput == st.gcodeInput
    ensures st.mode == Gcode ==> KeyDown(VkControl) !in r.events && !r.jogged
    ensures st.mode == Gcode && serial.Some? && serial.value != [] ==>
              r == SerialToGcode(st, Trim(serial.value), now)
    ensures st.mode == Arrow && serial.Some? && serial.value != [] ==>
              r == SerialToArrow(st, Trim(serial.value), now)
  {
    if serial.None? || serial.value == [] then Translation(st, [], false)
    else
      var line := Trim(serial.value);
      match st.mode
      case Arrow => SerialToArrow(st, line, now)
      case Gcode => SerialToGcode(st, line, now)
  }

  /** One tick: the serial line first, then the key, which is handled in the
      state the serial line left. */
  function Tick(st: State, input: TickInput): Step {
    var read := ReadPhase(st, input.serial, input.now);
    match input.key
    case None => Step(Running, read.state, read.events, [])
    case Some(key) =>
      var handled := HandleKey(read.state, key, input.writeOk, input.now);
      Step(handled.status, handled.state, read.events, handled.written)
  }

  /** What one tick guarantees. Only the serial phase injects events and only
      the key phase writes; the key is applied after the serial line, so a
      quit or a failed write keeps what the line did; in Gcode mode no Ctrl
      chord is produced; an idle tick changes nothing. */
  lemma TickContract(st: State, input: TickInput)
    ensures var s := Tick(st, input); var read := ReadPhase(st, input.serial, input.now);
      && s.events == read.events
      && (st.mode == Gcode ==> KeyDown(VkControl) !in s.events)
      && (s.status == Quit <==> input.key == Some(Char('q')))
      && (s.status != Running ==> s.state == read.state)
      && (s.status == Running ==> s.state.mode == (if input.key.Some? then SwitchMode(st.mode, input.key.value) else st.mode))
      && (s.written != [] ==> input.key == Some(Enter) && st.mode == Gcode)
      && ((input.serial.None? || input.serial.value == []) && input.key.None? ==> s == Step(Running, st, [], []))
  {
  }

  /** A run of ticks, each taken by `tick`: the events and the written text
      pile up in order, and the first tick that does not leave the loop
      running ends the run. */
  function RunWith(tick: (State, TickInput) -> Step, st: State, inputs: seq<TickInput>): Step
    decreases |inputs|
  {
    if |inputs| == 0 then Step(Running, st, [], [])
    else
      var s := tick(st, inputs[0]);
      if s.status != Running then s
      else
        var rest := RunWith(tick, s.state, inputs[1..]);
        Step(rest.status, rest.state, s.events + rest.events, s.written + rest.written)
  }

  /** The event loop over a sequence of tick inputs. */
  function Run(st: State, inputs: seq<TickInput>): Step {
    RunWith(Tick, st, inputs)
  }

  /** A run takes its first tick, then stops or carries on with the rest. */
  lemma RunStep(st: State, inputs: seq<TickInput>)
    requires |inputs| > 0
    ensures var s := Tick(st, inputs[0]); var rest := Run(s.state, inputs[1..]);
      Run(st, inputs) == if s.status != Running then s
                         else Step(rest.status, rest.state, s.events + rest.events, s.written + rest.written)
  {
  }

  /** The mode after a sequence of keys: the last '1' or '2' among them decides,
      and with neither the mode is what it was. */
  function ModeAfter(mode: Mode, inputs: seq<TickInput>): Mode
    decreases |inputs|
  {
    if |inputs| == 0 then mode
    else
      var next := if inputs[0].key.Some? then SwitchMode(mode, inputs[0].key.value) else mode;
      ModeAfter(next, inputs[1..])
  }

  /** Mode switching is a function of the mode keys alone: over a run that did
      not stop, serial lines, editing and sending never change the mode. */
  lemma {:induction false} ModeFollowsSwitchKeys(st: State, inputs: seq<TickInput>)
    ensures Run(st, inputs).status == Running ==> Run(st, inputs).state.mode == ModeAfter(st.mode, inputs)
    decreases |inputs|
  {
    if |inputs| > 0 {
      var s := Tick(st, inputs[0]);
      TickContract(st, inputs[0]);
      if s.status == Running {
        ModeFollowsSwitchKeys(s.state, inputs[1..]);
      }
    }
  }

  /** Mode isolation: starting in Gcode mode, as long as '1' is never pressed,
      no serial line of the run produces a Ctrl chord, whatever it says. */
  lemma {:induction false} GcodeRunNeverChords(st: State, inputs: seq<TickInput>)
    requires st.mode == Gcode
    requires forall i :: 0 <= i < |inputs| ==> inputs[i].key != Some(Char('1'))
    ensures KeyDown(VkControl) !in Run(st, inputs).events
    decreases |inputs|
  {
    if |inputs| > 0 {
      var s := Tick(st, inputs[0]);
      GcodeTick(st, inputs[0]);
      RunStep(st, inputs);
      if s.status == Running {
        GcodeRunNeverChords(s.state, inputs[1..]);
      }
    }
  }

  /** A tick in Gcode mode whose key is not '1' presses no Ctrl and, if the
      loop goes on, leaves the session in Gcode mode. */
  lemma GcodeTick(st: State, input: TickInput)
    requires st.mode == Gcode && input.key != Some(Char('1'))
    ensures var s := Tick(st, input);
      && KeyDown(VkControl) !in s.events
      && (s.status == Running ==> s.state.mode == Gcode)
  {
    TickContract(st, input);
  }

  /** The serial line of a tick is handled before its key: in Gcode mode a
      line that arrives in the same tick as '1' is still typed out, and only
      then does the mode become Arrow. */
  lemma SerialBeforeKey(st: State, raw: string, writeOk: bool, now: nat)
    requires st.mode == Gcode && raw != []
    ensures var s := Tick(st, TickInput(Some(raw), Some(Char('1')), writeOk, now));
      && s.events == TypeText(Trim(raw)) + [KeyDown(VkReturn), KeyUp(VkReturn)]
      && s.state.mode == Arrow
      && s.state.lastCommand == Some(TypedPrefix + Trim(raw))
  {
    var r := SerialToGcode(st, Trim(raw), now);
    assert r.events == r.events[..2 * |Trim(raw)|] + r.events[2 * |Trim(raw)|..];
  }

  /** Text holding no mode key and no 'q', so that typing it only edits the
      buffer. */
  predicate NoCommandKeys(text: string) {
    forall c | c in text :: !IsCommandKey(Char(c))
  }

  /** The ticks that press the keys of `text` one by one, with no serial line. */
  function TypingTicks(text: string, now: nat): (inputs: seq<TickInput>)
    ensures |inputs| == |text|
  {
    if |text| == 0 then []
    else [TickInput(None, Some(Char(text[0])), true, now)] + TypingTicks(text[1..], now)
  }

  /** The ticks that press Backspace `count` times, with no serial line. */
  function BackspaceTicks(count: nat, now: nat): (inputs: seq<TickInput>)
    ensures |inputs| == count
  {
    if count == 0 then []
    else [TickInput(None, Some(Backspace), true, now)] + BackspaceTicks(count - 1, now)
  }

  /** A run takes its first tick, then stops or carries on with the rest. */
  lemma RunWithStep(tick: (State, TickInput) -> Step, st: State, inputs: seq<TickInput>)
    requires |inputs| > 0
    ensures var s := tick(st, inputs[0]); var rest := RunWith(tick, s.state, inputs[1..]);
      RunWith(tick, st, inputs) == if s.status != Running then s
                                   else Step(rest.status, rest.state, s.events + rest.events, s.written + rest.written)
  {
  }

  lemma Regroup<T>(a: seq<T>, b: seq<T>, c: seq<T>)
    ensures a + (b + c) == (a + b) + c
  {
  }

  /** A run of two input sequences is the first run continued by the second,
      when the first leaves the loop running. */
  lemma {:induction false} RunWithAppend(tick: (State, TickInput) -> Step, st: State, a: seq<TickInput>, b: seq<TickInput>)
    requires RunWith(tick, st, a).status == Running
    ensures var ra := RunWith(tick, st, a); var rb := RunWith(tick, ra.state, b);
      RunWith(tick, st, a + b) == Step(rb.status, rb.state, ra.events + rb.events, ra.written + rb.written)
    decreases |a|
  {
    if |a| == 0 {
      assert a + b == b;
    } else {
      var s := tick(st, a[0]);
      RunWithStep(tick, st, a);
      var tail := RunWith(tick, s.state, a[1..]);
      RunWithAppend(tick, s.state, a[1..], b);
      var rb := RunWith(tick, tail.state, b);
      assert (a + b)[0] == a[0];
      assert (a + b)[1..] == a[1..] + b;
      RunWithStep(tick, st, a + b);
      Regroup(s.events, tail.events, rb.events);
      Regroup(s.written, tail.written, rb.written);
    }
  }

  lemma RunAppend(st: State, a: seq<TickInput>, b: seq<TickInput>)
    requires Run(st, a).status == Running
    ensures var ra := Run(st, a); var rb := Run(ra.state, b);
      Run(st, a + b) == Step(rb.status, rb.state, ra.events + rb.events, ra.written + rb.written)
  {
    RunWithAppend(Tick, st, a, b);
  }

  /** Text typed at the terminal in Gcode mode lands in the buffer as typed,
      provided it holds no mode key and no 'q'. Nothing is injected or written. */
  lemma {:induction false} TypingAppends(st: State, text: string, now: nat)
    requires st.mode == Gcode
    requires NoCommandKeys(text)
    ensures Run(st, TypingTicks(text, now)) == Step(Running, st.(gcodeInput := st.gcodeInput + text), [], [])
    decreases |text|
  {
    if |text| > 0 {
      TypeFirst(st, text, now);
      TypingAppends(st.(gcodeInput := st.gcodeInput + [text[0]]), text[1..], now);
    } else {
      assert st.gcodeInput + text == st.gcodeInput;
    }
  }

  /** One ordinary character typed in Gcode mode is appended to the buffer,
      and nothing else happens. */
  lemma TypeTick(st: State, c: char, now: nat)
    requires st.mode == Gcode && !IsCommandKey(Char(c))
    ensures Tick(st, TickInput(None, Some(Char(c)), true, now))
      == Step(Running, st.(gcodeInput := st.gcodeInput + [c]), [], [])
  {
  }

  /** One Backspace in Gcode mode drops the last character of the buffer,
      if there is one, and nothing else. */
  lemma BackspaceTick(st: State, now: nat)
    requires st.mode == Gcode
    ensures var buf := st.gcodeInput;
      Tick(st, TickInput(None, Some(Backspace), true, now))
        == Step(Running, st.(gcodeInput := if buf == [] then [] else buf[..|buf| - 1]), [], [])
  {
  }

  /** A tick that leaves the loop running with nothing injected or written
      just hands its state on to the rest of the run. */
  lemma QuietStep(st: State, input: TickInput, next: State, rest: seq<TickInput>)
    requires Tick(st, input) == Step(Running, next, [], [])
    ensures Run(st, [input] + rest) == Run(next, rest)
  {
    RunStep(st, [input] + rest);
    assert ([input] + rest)[1..] == rest;
  }

  /** Typing the first character of `text` in Gcode mode: the rest of the
      text is then typed into the longer buffer. */
  lemma TypeFirst(st: State, text: string, now: nat)
    requires st.mode == Gcode && NoCommandKeys(text) && |text| > 0
    ensures var next := st.(gcodeInput := st.gcodeInput + [text[0]]);
      && Run(st, TypingTicks(text, now)) == Run(next, TypingTicks(text[1..], now))
      && NoCommandKeys(text[1..])
      && next.gcodeInput + text[1..] == st.gcodeInput + text
  {
    var first := TickInput(None, Some(Char(text[0])), true, now);
    assert TypingTicks(text, now) == [first] + TypingTicks(text[1..], now);
    PlainTail(text);
    TypeStep(st, text[0], now, TypingTicks(text[1..], now));
  }

  /** A plain text's first character is no command key and the rest of it is
      plain too. */
  lemma PlainTail(text: string)
    requires NoCommandKeys(text) && |text| > 0
    ensures !IsCommandKey(Char(text[0])) && NoCommandKeys(text[1..])
    ensures text == [text[0]] + text[1..]
  {
    assert text[0] in text;
    assert forall c | c in text[1..] :: c in text;
  }

  /** Typing an ordinary character in Gcode mode, followed by more ticks. */
  lemma TypeStep(st: State, c: char, now: nat, rest: seq<TickInput>)
    requires st.mode == Gcode && !IsCommandKey(Char(c))
    ensures Run(st, [TickInput(None, Some(Char(c)), true, now)] + rest)
      == Run(st.(gcodeInput := st.gcodeInput + [c]), rest)
  {
    TypeTick(st, c, now);
    QuietStep(st, TickInput(None, Some(Char(c)), true, now), st.(gcodeInput := st.gcodeInput + [c]), rest);
  }

  /** The buffer with its last `count` characters removed, or emptied when it
      holds fewer. */
  function Erase(buf: string, count: nat): string {
    buf[..if count <= |buf| then |buf| - count else 0]
  }

  /** Erasing `count` characters is dropping the last one, if any, and then
      erasing `count - 1`. */
  lemma EraseStep(buf: string, count: nat)
    requires count > 0
    ensures Erase(buf, count) == Erase(if buf == [] then [] else buf[..|buf| - 1], count - 1)
  {
  }

  /** The first of `count` Backspaces in Gcode mode: the remaining ones then
      erase one character less from the shorter buffer. */
  lemma BackspaceFirst(st: State, count: nat, now: nat)
    requires st.mode == Gcode && count > 0
    ensures var buf := st.gcodeInput;
      var next := st.(gcodeInput := if buf == [] then [] else buf[..|buf| - 1]);
      && Run(st, BackspaceTicks(count, now)) == Run(next, BackspaceTicks(count - 1, now))
      && next.(gcodeInput := Erase(next.gcodeInput, count - 1)) == st.(gcodeInput := Erase(buf, count))
  {
    var buf := st.gcodeInput;
    var next := st.(gcodeInput := if buf == [] then [] else buf[..|buf| - 1]);
    var first := TickInput(None, Some(Backspace), true, now);
    assert BackspaceTicks(count, now) == [first] + BackspaceTicks(count - 1, now);
    BackspaceTick(st, now);
    QuietStep(st, first, next, BackspaceTicks(count - 1, now));
    EraseStep(buf, count);
  }

  /** Backspace pressed `count` times in Gcode mode removes that many
      characters from the end of the buffer, and no more than it holds. */
  lemma {:induction false} BackspacesErase(st: State, count: nat, now: nat)
    requires st.mode == Gcode
    ensures Run(st, BackspaceTicks(count, now)) == Step(Running, st.(gcodeInput := Erase(st.gcodeInput, count)), [], [])
    decreases count
  {
    if count > 0 {
      var buf := st.gcodeInput;
      BackspaceFirst(st, count, now);
      BackspacesErase(st.(gcodeInput := if buf == [] then [] else buf[..|buf| - 1]), count - 1, now);
    } else {
      assert Erase(st.gcodeInput, 0) == st.gcodeInput;
    }
  }

  /** Backspace undoes typing: text typed in Gcode mode and then erased with
      as many Backspaces leaves the buffer as it was. */
  lemma EraseUndoesTyping(st: State, text: string, now: nat)
    requires st.mode == Gcode
    requires NoCommandKeys(text)
    ensures Run(st, TypingTicks(text, now) + BackspaceTicks(|text|, now)) == Step(Running, st, [], [])
  {
    TypingAppends(st, text, now);
    var typed := st.(gcodeInput := st.gcodeInput + text);
    BackspacesErase(typed, |text|, now);
    RunAppend(st, TypingTicks(text, now), BackspaceTicks(|text|, now));
    assert Erase(typed.gcodeInput, |text|) == st.gcodeInput;
  }

  /** Typing a command and pressing Enter in Gcode mode sends the buffer and
      the typed text as one line, records it as sent, and empties the buffer. */
  lemma TypeThenSend(st: State, text: string, now: nat)
    requires st.mode == Gcode
    requires NoCommandKeys(text)
    requires st.gcodeInput + text != []
    ensures var s := Run(st, TypingTicks(text, now) + [TickInput(None, Some(Enter), true, now)]);
      && s.status == Running
      && s.written == st.gcodeInput + text + "\n"
      && s.events == []
      && s.state.gcodeInput == []
      && s.state.lastCommand == Some(SentPrefix + st.gcodeInput + text)
      && s.state.mode == Gcode
  {
    var enter := [TickInput(None, Some(Enter), true, now)];
    var typed := st.(gcodeInput := st.gcodeInput + text);
    var sent := UpdateLastCommand(typed, SentPrefix + typed.gcodeInput, now).(gcodeInput := []);
    assert Run(st, TypingTicks(text, now) + enter) == Step(Running, sent, [], typed.gcodeInput + "\n") by {
      TypingAppends(st, text, now);
      RunAppend(st, TypingTicks(text, now), enter);
      EnterTick(typed, now);
      RunSingle(typed, enter[0]);
    }
    assert SentPrefix + typed.gcodeInput == SentPrefix + st.gcodeInput + text;
  }

  /** Enter in Gcode mode with a non-empty buffer and a working port sends
      the buffer with a newline, records it and clears the buffer. */
  lemma EnterTick(st: State, now: nat)
    requires st.mode == Gcode && st.gcodeInput != []
    ensures Tick(st, TickInput(None, Some(Enter), true, now))
      == Step(Running, UpdateLastCommand(st, SentPrefix + st.gcodeInput, now).(gcodeInput := []), [], st.gcodeInput + "\n")
  {
  }

  /** A run of one tick is that tick. */
  lemma RunSingle(st: State, input: TickInput)
    ensures Run(st, [input]) == Tick(st, input)
  {
    RunStep(st, [input]);
    assert [input][1..] == [];
  }

  /** 'q' ends the session in either mode and whatever the buffer holds: the
      run stops at that tick, and no later tick is looked at. */
  lemma QuitIsTerminal(st: State, input: TickInput, later: seq<TickInput>)
    requires input.key == Some(Char('q'))
    ensures Run(st, [input] + later).status == Quit
    ensures Run(st, [input] + later).state == ReadPhase(st, input.serial, input.now).state
    ensures Run(st, [input] + later).written == []
  {
    assert ([input] + later)[0] == input;
  }

  /** A tick with no serial line and no key changes nothing. */
  lemma IdleTickChangesNothing(st: State, writeOk: bool, now: nat)
    ensures Tick(st, TickInput(None, None, writeOk, now)) == Step(Running, st, [], [])
    ensures Tick(st, TickInput(Some([]), None, writeOk, now)) == Step(Running, st, [], [])
  {
  }

  /** A fresh session has no command history and starts in Gcode mode, so the
      first serial line is typed out rather than turned into a jog. */
  lemma FreshSessionTypesLines(raw: string, now: nat)
    requires raw != []
    ensures NewState().mode == Gcode && !NewState().connected
    ensures NewState().lastCommand == None && NewState().gcodeInput == []
    ensures TimeSinceLastCommand(NewState(), now).None?
    ensures ReadPhase(NewState(), Some(raw), now) == SerialToGcode(NewState(), Trim(raw), now)
    ensures !ReadPhase(NewState(), Some(raw), now).jogged
  {
  }
}
