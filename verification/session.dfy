/** The session of the bridge: its state, the two ways a serial line is turned
    into injected input, and the handling of one key pressed at the terminal. */
module Session {
  import opened Basics
  import opened Text
  import opened Keys
  import opened Jog

  /** Arrow mode turns jog commands from the pendant into Ctrl+arrow chords;
      Gcode mode types serial lines out and sends lines typed at the terminal. */
  datatype Mode = Arrow | Gcode

  /** The application state. The time of the last command is a reading of an
      abstract monotonic clock. */
  datatype State = State(
    mode: Mode,
    connected: bool,
    lastCommand: Option<string>,
    lastCommandTime: Option<nat>,
    gcodeInput: string)

  /** A fresh session: Gcode mode, not connected, nothing recorded or typed. */
  function NewState(): State {
    State(Gcode, false, None, None, "")
  }

  /** Records `command` as the last command, stamped `now`; nothing else changes. */
  function UpdateLastCommand(st: State, command: string, now: nat): (r: State)
    ensures r.lastCommand == Some(command) && r.lastCommandTime == Some(now)
    ensures r.mode == st.mode && r.connected == st.connected && r.gcodeInput == st.gcodeInput
  {
    st.(lastCommand := Some(command), lastCommandTime := Some(now))
  }

  /** The time elapsed since the last command, if there was one; a clock that
      reads earlier than the stamp gives zero, as a saturating difference. */
  function TimeSinceLastCommand(st: State, now: nat): (d: Option<nat>)
    ensures d.Some? <==> st.lastCommandTime.Some?
    ensures d.Some? && st.lastCommandTime.value <= now ==> st.lastCommandTime.value + d.value == now
    ensures d.Some? && now < st.lastCommandTime.value ==> d.value == 0
  {
    match st.lastCommandTime
    case None => None
    case Some(t) => Some(if t <= now then now - t else 0)
  }

  /** What handling one serial line produces: the new state, the injected
      events, and whether a jog chord was sent. */
  datatype Translation = Translation(state: State, events: seq<Event>, jogged: bool)

  /** The arrow-mode path. The trimmed line, label cut off, is recorded as the
      last command whatever follows. A jog whose number parses sends one Ctrl
      chord on the key the direction table picks; anything else injects
      nothing. Whether a jog is found does not depend on the label. */
  function SerialToArrow(st: State, line: string, now: nat): (r: Translation)
    ensures r.state == UpdateLastCommand(st, StripLabel(Trim(line)), now)
    ensures var jog := FindJog(Trim(line));
      r.jogged <==> jog.Some? && Parses(jog.value.amount)
    ensures var jog := FindJog(Trim(line));
      r.jogged ==> r.events == CtrlChord(KeyFor(jog.value.axis, IsPositive(jog.value.amount)))
    ensures !r.jogged ==> r.events == []
  {
    var command := StripLabel(Trim(line));
    StripLabelKeepsJog(Trim(line));
    var recorded := UpdateLastCommand(st, command, now);
    match FindJog(command)
    case None => Translation(recorded, [], false)
    case Some(jog) =>
      if Parses(jog.amount) then
        Translation(recorded, CtrlChord(KeyFor(jog.axis, IsPositive(jog.amount))), true)
      else
        Translation(recorded, [], false)
  }

  /** The arrow-mode path as the source has it: a number the regex accepts
      but the float parser refuses is unwrapped, and the process panics. */
  datatype ArrowOutcome = Returned(translation: Translation) | Panicked

  /** The arrow-mode path as written: it panics exactly when a jog is found
      whose number does not parse, and otherwise agrees with `SerialToArrow`. */
  function SerialToArrowAsWritten(st: State, line: string, now: nat): (r: ArrowOutcome)
    ensures var jog := FindJog(Trim(line));
      r.Panicked? <==> jog.Some? && !Parses(jog.value.amount)
    ensures r.Returned? ==> r.translation == SerialToArrow(st, line, now)
  {
    var command := StripLabel(Trim(line));
    StripLabelKeepsJog(Trim(line));
    var recorded := UpdateLastCommand(st, command, now);
    match FindJog(command)
    case None => Returned(Translation(recorded, [], false))
    case Some(jog) =>
      if !Parses(jog.amount) then Panicked
      else Returned(Translation(recorded, CtrlChord(KeyFor(jog.axis, IsPositive(jog.amount))), true))
  }

  /** The prefix of the record made for a line typed out in Gcode mode. */
  const TypedPrefix: string := "Typed: "

  /** The prefix of the record made for a line sent from the terminal. */
  const SentPrefix: string := "Sent: "

  /** The Gcode-mode path: the line is typed out character by character and
      Enter is pressed after it. No Ctrl key is ever pressed on this path. */
  function SerialToGcode(st: State, line: string, now: nat): (r: Translation)
    ensures r.state == UpdateLastCommand(st, TypedPrefix + line, now)
    ensures |r.events| == 2 * |line| + 2
    ensures r.events[..2 * |line|] == TypeText(line)
    ensures r.events[2 * |line|..] == [KeyDown(VkReturn), KeyUp(VkReturn)]
    ensures Typed(r.events) == ScanCodes(line)
    ensures KeyDown(VkControl) !in r.events
    ensures !r.jogged
  {
    TypedLine(line);
    Translation(UpdateLastCommand(st, TypedPrefix + line, now), TypeText(line) + [KeyDown(VkReturn), KeyUp(VkReturn)], false)
  }

  /** The events of a line typed out and then Enter: their layout, the scan
      codes they deliver, and the absence of Ctrl. */
  lemma TypedLine(line: string)
    ensures var enter := [KeyDown(VkReturn), KeyUp(VkReturn)];
      var events := TypeText(line) + enter;
      && |events| == 2 * |line| + 2
      && events[..2 * |line|] == TypeText(line)
      && events[2 * |line|..] == enter
      && Typed(events) == ScanCodes(line)
      && KeyDown(VkControl) !in events
  {
    var enter := [KeyDown(VkReturn), KeyUp(VkReturn)];
    var events := TypeText(line) + enter;
    assert Typed(events) == ScanCodes(line) by {
      TypedAppend(TypeText(line), enter);
      TypedTypeText(line);
      assert enter[1..] == [KeyUp(VkReturn)] && enter[1..][1..] == [];
      assert Typed(enter[1..][1..]) == [];
      assert Typed(enter[1..]) == [];
      assert Typed(enter) == [];
    }
    assert KeyDown(VkControl) !in events by {
      TypeTextHasNoKeyEvent(line, VkControl);
    }
    assert events[..2 * |line|] == TypeText(line);
  }

  /** The key codes the session reacts to; every other key is `OtherKey`. */
  datatype Key = Char(c: char) | Enter | Backspace | OtherKey

  /** The keys that switch mode or quit, whatever the mode. */
  predicate IsCommandKey(key: Key) {
    key == Char('1') || key == Char('2') || key == Char('q')
  }

  /** Running goes on; Quit is the exit on 'q'; Stopped is the loop ending on
      a failed serial write. */
  datatype Status = Running | Quit | Stopped

  /** The result of one step: status, state, injected events, text written to
      the serial port. */
  datatype Step = Step(status: Status, state: State, events: seq<Event>, written: string)

  /** The mode after a key: '1' selects Arrow, '2' selects Gcode, every other
      key keeps the mode. */
  function SwitchMode(mode: Mode, key: Key): Mode {
    if key == Char('1') then Arrow
    else if key == Char('2') then Gcode
    else mode
  }

  /** Handles one key pressed at the terminal; `writeOk` is whether writing to
      the serial port succeeds. The mode keys and 'q' act in both modes and
      never reach the buffer. In Gcode mode Enter sends a non-empty buffer and
      clears it, Backspace drops its last character, and any other character
      is appended. In Arrow mode nothing else has an effect. */
  function HandleKey(st: State, key: Key, writeOk: bool, now: nat): (s: Step)
    ensures s.events == []
    ensures s.status == Quit <==> key == Char('q')
    ensures s.status == Stopped <==> key == Enter && st.mode == Gcode && st.gcodeInput != [] && !writeOk
    ensures s.status != Running ==> s.state == st && s.written == []
    ensures s.status == Running ==> s.state.mode == SwitchMode(st.mode, key)
    ensures key == Char('1') || key == Char('2') ==> s.state == st.(mode := s.state.mode)
    ensures s.written != [] <==> s.status == Running && key == Enter && st.mode == Gcode && st.gcodeInput != []
    ensures s.written != [] ==> s.written == st.gcodeInput + "\n"
    ensures s.written != [] ==> s.state == UpdateLastCommand(st, SentPrefix + st.gcodeInput, now).(gcodeInput := [])
    ensures key == Enter && st.gcodeInput == [] ==> s == Step(Running, st, [], [])
    ensures key == Backspace && st.mode == Gcode ==>
              s.state == st.(gcodeInput := if st.gcodeInput == [] then [] else st.gcodeInput[..|st.gcodeInput| - 1])
    ensures key.Char? && !IsCommandKey(key) && st.mode == Gcode ==>
              s.state == st.(gcodeInput := st.gcodeInput + [key.c])
    ensures st.mode == Arrow && !IsCommandKey(key) ==> s == Step(Running, st, [], [])
    ensures key == OtherKey ==> s == Step(Running, st, [], [])
  {
    match key
    case Char('1') => Step(Running, st.(mode := Arrow), [], [])
    case Char('2') => Step(Running, st.(mode := Gcode), [], [])
    case Char('q') => Step(Quit, st, [], [])
    case Enter =>
      if st.mode != Gcode || st.gcodeInput == [] then Step(Running, st, [], [])
      else if !writeOk then Step(Stopped, st, [], [])
      else
        var sent := UpdateLastCommand(st, SentPrefix + st.gcodeInput, now).(gcodeInput := []);
        Step(Running, sent, [], st.gcodeInput + "\n")
    case Backspace =>
      if st.mode != Gcode || st.gcodeInput == [] then Step(Running, st, [], [])
      else Step(Running, st.(gcodeInput := st.gcodeInput[..|st.gcodeInput| - 1]), [], [])
    case Char(c) =>
      if st.mode != Gcode then Step(Running, st, [], [])
      else Step(Running, st.(gcodeInput := st.gcodeInput + [c]), [], [])
    case OtherKey => Step(Running, st, [], [])
  }
}
