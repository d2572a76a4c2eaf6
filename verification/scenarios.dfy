/** Concrete cases of the bridge's behaviour, each stated on one input. */
module Scenarios {
  import opened Basics
  import opened Text
  import opened Keys
  import opened Jog
  import opened Session
  import opened EventLoop

  /** The tick carrying one serial line and no key. */
  function LineTick(raw: string, now: nat): TickInput {
    TickInput(Some(raw), None, true, now)
  }

  /** A tick with a serial line and no key is the serial phase alone. */
  lemma LineTickIsReadPhase(st: State, raw: string, now: nat)
    ensures var r := ReadPhase(st, Some(raw), now);
      Tick(st, LineTick(raw, now)) == Step(Running, r.state, r.events, [])
  {
  }

  /** A match at the front of a command is the leftmost one. */
  lemma JogAtFront(c: string)
    requires StartsJog(c)
    ensures FindJog(c) == Some(JogAt(c))
  {
    assert c[0..] == c;
    assert Search(c) == Some(0);
  }

  /** A command that does not begin with the label is left alone. */
  lemma NoLabel(c: string)
    requires |c| >= 2 && c[1] != 'C'
    ensures StripLabel(c) == c
  {
  }

  /** A text with no white space at either end is its own trim. */
  lemma TrimmedTrim(c: string)
    requires Trimmed(c)
    ensures Trim(c) == c
  {
    assert [] + c + [] == c;
    TrimOfPadded([], c, []);
  }

  lemma CaptureRight()
    ensures StartsJog("G91G0X10.5")
    ensures JogAt("G91G0X10.5") == Jog(X, Numeral(false, "10", true, "5"))
  {
    var c := "G91G0X10.5";
    assert c[..5] == JogMarker;
    assert c[6..] == "10.5" && "10.5"[2..] == ".5" && ".5"[1..] == "5";
    assert DigitPrefix("") == [];
    assert DigitPrefix("5") == "5";
    assert DigitPrefix(".5") == [];
    assert DigitPrefix("0.5") == "0";
    assert DigitPrefix("10.5") == "10";
  }

  /** The labelled jog has no white space to trim. */
  lemma LabelledJogTrimmed()
    ensures Trim("GCODE: G91G0X10.5") == "GCODE: G91G0X10.5"
  {
    TrimmedTrim("GCODE: G91G0X10.5");
  }

  /** The labelled jog with its label cut off. */
  lemma LabelledJogStripped()
    ensures StripLabel("GCODE: G91G0X10.5") == "G91G0X10.5"
  {
    assert "GCODE: G91G0X10.5" == GcodeLabel + "G91G0X10.5";
  }

  /** The labelled jog captures what the bare one does. */
  lemma LabelledJogCapture()
    ensures FindJog("GCODE: G91G0X10.5") == Some(Jog(X, Numeral(false, "10", true, "5")))
  {
    CaptureRight();
    JogAtFront("G91G0X10.5");
    LabelledJogStripped();
    StripLabelKeepsJog("GCODE: G91G0X10.5");
  }

  /** A line whose trimmed text holds a jog with a parsable number: the
      chord for it is injected, and the command is recorded without its label. */
  lemma ArrowJogs(st: State, line: string, now: nat, j: Jog, key: KeyName)
    requires FindJog(Trim(line)) == Some(j) && Parses(j.amount)
    requires KeyFor(j.axis, IsPositive(j.amount)) == key
    ensures SerialToArrow(st, line, now).events == CtrlChord(key)
    ensures SerialToArrow(st, line, now).state.lastCommand == Some(StripLabel(Trim(line)))
  {
  }

  /** A non-empty serial line alone, received in Arrow mode, is the arrow path
      on its trimmed text. */
  lemma ArrowLineTick(st: State, raw: string, now: nat)
    requires st.mode == Arrow && raw != []
    ensures var r := SerialToArrow(st, Trim(raw), now);
      Tick(st, LineTick(raw, now)) == Step(Running, r.state, r.events, [])
  {
    LineTickIsReadPhase(st, raw, now);
  }

  /** A non-empty serial line alone, received in Gcode mode, is the typing
      path on its trimmed text. */
  lemma GcodeLineTick(st: State, raw: string, now: nat)
    requires st.mode == Gcode && raw != []
    ensures var r := SerialToGcode(st, Trim(raw), now);
      Tick(st, LineTick(raw, now)) == Step(Running, r.state, r.events, [])
  {
    LineTickIsReadPhase(st, raw, now);
  }

  lemma PositiveTenAndAHalf()
    ensures Parses(Numeral(false, "10", true, "5"))
    ensures KeyFor(X, IsPositive(Numeral(false, "10", true, "5"))) == Right
  {
    assert Digits(Numeral(false, "10", true, "5"))[0] != '0';
  }

  /** The arrow path on the labelled jog: the label goes, the jog stays. */
  lemma ArrowOnLabelledJog(st: State, now: nat)
    ensures var r := SerialToArrow(st, "GCODE: G91G0X10.5", now);
      && r.events == CtrlChord(Right)
      && r.state.lastCommand == Some("G91G0X10.5")
  {
    LabelledJogTrimmed();
    LabelledJogStripped();
    LabelledJogCapture();
    PositiveTenAndAHalf();
    ArrowJogs(st, "GCODE: G91G0X10.5", now, Jog(X, Numeral(false, "10", true, "5")), Right);
  }

  /** The labelled jog as it arrives, ended by a newline. */
  lemma LabelledLineTrim()
    ensures Trim("GCODE: G91G0X10.5\n") == "GCODE: G91G0X10.5"
  {
    var line := "GCODE: G91G0X10.5";
    assert "GCODE: G91G0X10.5\n" == [] + line + "\n";
    TrimOfPadded([], line, "\n");
  }

  /** A labelled jog to the right, with a fraction, received in Arrow mode:
      Ctrl+Right, and the command without its label is recorded. */
  lemma LabelledJogRight(st: State, now: nat)
    requires st.mode == Arrow
    ensures var s := Tick(st, LineTick("GCODE: G91G0X10.5\n", now));
      && s.events == CtrlChord(Right)
      && s.state.lastCommand == Some("G91G0X10.5")
      && s.state.mode == Arrow
  {
    LabelledLineTrim();
    ArrowOnLabelledJog(st, now);
    ArrowLineTick(st, "GCODE: G91G0X10.5\n", now);
  }

  lemma CaptureDown()
    ensures StartsJog("G91G0Y-3")
    ensures JogAt("G91G0Y-3") == Jog(Y, Numeral(true, "3", false, ""))
  {
    var c := "G91G0Y-3";
    assert c[..5] == JogMarker;
    assert c[6..] == "-3" && "-3"[1..] == "3";
    assert DigitPrefix("") == [];
    assert DigitPrefix("3") == "3";
  }

  lemma MinusThreeIsNotPositive()
    ensures Parses(Numeral(true, "3", false, ""))
    ensures KeyFor(Y, IsPositive(Numeral(true, "3", false, ""))) == Down
  {
  }

  lemma DownJogCapture()
    ensures Trim("G91G0Y-3") == "G91G0Y-3"
    ensures FindJog("G91G0Y-3") == Some(Jog(Y, Numeral(true, "3", false, "")))
  {
    TrimmedTrim("G91G0Y-3");
    CaptureDown();
    JogAtFront("G91G0Y-3");
  }

  /** The arrow path on a negative jog on Y. */
  lemma ArrowOnDownJog(st: State, now: nat)
    ensures SerialToArrow(st, "G91G0Y-3", now).events == CtrlChord(Down)
  {
    DownJogCapture();
    MinusThreeIsNotPositive();
    ArrowJogs(st, "G91G0Y-3", now, Jog(Y, Numeral(true, "3", false, "")), Down);
  }

  /** A negative jog on Y moves down. */
  lemma NegativeJogDown(st: State, now: nat)
    requires st.mode == Arrow
    ensures Tick(st, LineTick("G91G0Y-3", now)).events == CtrlChord(Down)
  {
    TrimmedTrim("G91G0Y-3");
    ArrowOnDownJog(st, now);
    ArrowLineTick(st, "G91G0Y-3", now);
  }

  lemma CaptureZero()
    ensures StartsJog("G91G0Z0")
    ensures JogAt("G91G0Z0") == Jog(Z, Numeral(false, "0", false, ""))
  {
    var c := "G91G0Z0";
    assert c[..5] == JogMarker;
    assert c[6..] == "0";
    assert DigitPrefix("") == [];
    assert DigitPrefix("0") == "0";
  }

  lemma ZeroIsNotPositive()
    ensures Parses(Numeral(false, "0", false, ""))
    ensures KeyFor(Z, IsPositive(Numeral(false, "0", false, ""))) == PageDown
  {
    assert Digits(Numeral(false, "0", false, "")) == "0";
  }

  lemma ZeroJogCapture()
    ensures Trim("G91G0Z0") == "G91G0Z0"
    ensures FindJog("G91G0Z0") == Some(Jog(Z, Numeral(false, "0", false, "")))
  {
    TrimmedTrim("G91G0Z0");
    CaptureZero();
    JogAtFront("G91G0Z0");
  }

  /** The arrow path on a jog by zero on Z. */
  lemma ArrowOnZeroJog(st: State, now: nat)
    ensures SerialToArrow(st, "G91G0Z0", now).events == CtrlChord(PageDown)
  {
    ZeroJogCapture();
    ZeroIsNotPositive();
    ArrowJogs(st, "G91G0Z0", now, Jog(Z, Numeral(false, "0", false, "")), PageDown);
  }

  /** A jog by zero takes the non-positive key: Z by 0 is Page Down. */
  lemma ZeroJogPagesDown(st: State, now: nat)
    requires st.mode == Arrow
    ensures Tick(st, LineTick("G91G0Z0", now)).events == CtrlChord(PageDown)
  {
    TrimmedTrim("G91G0Z0");
    ArrowOnZeroJog(st, now);
    ArrowLineTick(st, "G91G0Z0", now);
  }

  /** A line that is not a jog injects nothing in Arrow mode, and is still
      recorded as the last command. */
  lemma MismatchInjectsNothing(st: State, now: nat)
    requires st.mode == Arrow
    ensures var s := Tick(st, LineTick("G91G1X5", now));
      && s.events == []
      && s.state.lastCommand == Some("G91G1X5")
  {
    var c := "G91G1X5";
    TrimmedTrim(c);
    NoLabel(c);
    forall i | 0 <= i <= |c| ensures !StartsJog(c[i..]) {
      if i == 0 {
        assert c[..5][4] == '1';
      }
    }
    LineTickIsReadPhase(st, c, now);
  }

  /** A line ended by a carriage return and a newline loses both. */
  lemma HelloWorldTrim()
    ensures Trim("hello world\r\n") == "hello world"
  {
    var line := "hello world";
    assert "hello world\r\n" == [] + line + "\r\n";
    TrimOfPadded([], line, "\r\n");
  }

  /** In Gcode mode a serial line is typed out, followed by Enter, and
      recorded as typed. */
  lemma GcodeLineIsTyped(st: State, now: nat)
    requires st.mode == Gcode
    ensures var s := Tick(st, LineTick("hello world\r\n", now));
      && |s.events| == 24
      && s.events[22..] == [KeyDown(VkReturn), KeyUp(VkReturn)]
      && s.state.lastCommand == Some("Typed: hello world")
      && KeyDown(VkControl) !in s.events
  {
    HelloWorldTrim();
    assert TypedPrefix + "hello world" == "Typed: hello world";
    GcodeLineTick(st, "hello world\r\n", now);
  }

  lemma CaptureArabicIndic()
    ensures StartsJog("G91G0X\U{661}")
    ensures JogAt("G91G0X\U{661}") == Jog(X, Numeral(false, "\U{661}", false, ""))
  {
    var c := "G91G0X\U{661}";
    assert c[..5] == JogMarker;
    assert c[6..] == "\U{661}";
    assert DigitPrefix("") == [];
    assert DigitPrefix("\U{661}") == "\U{661}";
  }

  /** A number in Arabic-Indic digits: the regex matches it, the float parser
      refuses it. As written the bridge panics; the corrected path injects
      nothing and reports no jog. */
  lemma ArabicIndicDigitPanics(st: State, now: nat)
    ensures SerialToArrowAsWritten(st, "G91G0X\U{661}", now).Panicked?
    ensures var r := SerialToArrow(st, "G91G0X\U{661}", now);
      && !r.jogged
      && r.events == []
      && r.state.lastCommand == Some("G91G0X\U{661}")
  {
    var c := "G91G0X\U{661}";
    TrimmedTrim(c);
    NoLabel(c);
    CaptureArabicIndic();
    JogAtFront(c);
    assert !IsAsciiDigit("\U{661}"[0]);
  }

  lemma CaptureNko()
    ensures StartsJog("G91G0X\U{7C1}")
    ensures JogAt("G91G0X\U{7C1}") == Jog(X, Numeral(false, "\U{7C1}", false, ""))
  {
    var c := "G91G0X\U{7C1}";
    assert c[..5] == JogMarker;
    assert c[6..] == "\U{7C1}";
    assert DigitPrefix("") == [];
    assert DigitPrefix("\U{7C1}") == "\U{7C1}";
  }

  /** A number in NKo digits behaves like one in Arabic-Indic digits: the
      regex matches it and the float parser refuses it. */
  lemma NkoDigitPanics(st: State, now: nat)
    ensures SerialToArrowAsWritten(st, "G91G0X\U{7C1}", now).Panicked?
    ensures var r := SerialToArrow(st, "G91G0X\U{7C1}", now);
      && !r.jogged
      && r.events == []
      && r.state.lastCommand == Some("G91G0X\U{7C1}")
  {
    var c := "G91G0X\U{7C1}";
    TrimmedTrim(c);
    NoLabel(c);
    CaptureNko();
    JogAtFront(c);
    assert !IsAsciiDigit("\U{7C1}"[0]);
  }

  lemma CaptureMixedDigits()
    ensures StartsJog("G91G0X1\U{7C1}")
    ensures JogAt("G91G0X1\U{7C1}") == Jog(X, Numeral(false, "1\U{7C1}", false, ""))
  {
    var c := "G91G0X1\U{7C1}";
    assert c[..5] == JogMarker;
    assert c[6..] == "1\U{7C1}";
    assert DigitPrefix("") == [];
    assert DigitPrefix("\U{7C1}") == "\U{7C1}";
    assert "1\U{7C1}"[1..] == "\U{7C1}";
    assert DigitPrefix("1\U{7C1}") == "1\U{7C1}";
  }

  /** An ASCII digit followed by an NKo digit: the greedy `\d+` takes both, so
      the capture is not a number the float parser reads, and no jog is sent. */
  lemma TrailingNkoDigitIsNoJog(st: State, now: nat)
    ensures SerialToArrowAsWritten(st, "G91G0X1\U{7C1}", now).Panicked?
    ensures var r := SerialToArrow(st, "G91G0X1\U{7C1}", now);
      && !r.jogged
      && r.events == []
      && r.state.lastCommand == Some("G91G0X1\U{7C1}")
  {
    var c := "G91G0X1\U{7C1}";
    TrimmedTrim(c);
    NoLabel(c);
    CaptureMixedDigits();
    JogAtFront(c);
    assert !IsAsciiDigit("1\U{7C1}"[1]);
  }
}
