# pendant_watch in Dafny

pendant_watch is a Windows bridge between a CNC jog pendant on a serial port
and the desktop. It has two modes:

- In **Arrow** mode, every line the pendant sends is searched for a relative
  rapid move `G91G0<axis><amount>`. A match is turned into a Ctrl+arrow (or
  Ctrl+Page) chord for the CAD program in focus.
- In **Gcode** mode, every line is typed out character by character, followed
  by Enter. Keys typed at the terminal are collected into a buffer, and Enter
  sends the buffer to the serial port.

`'1'` and `'2'` switch the mode and `'q'` quits.

This project models the decision logic of `src/main.rs` as pure functions over
an explicit session state. Synthetic input becomes a log of `Event`s:
`KeyDown`, `KeyUp`, `CharDown` and `CharUp`. The serial write becomes an output
string. Each piece of the core has its properties proved.

| file | module | what it models |
|---|---|---|
| `basics.dfy` | `Basics` | `Option`, and the 16-bit unsigned integer of the Windows input API |
| `text.dfy` | `Text` | Rust's `str::trim` with the full Unicode White_Space set |
| `keys.dfy` | `Keys` | the virtual-key constants, the event log, the Ctrl chord, `type_text` and the `ch as u16` cast |
| `jog.dfy` | `Jog` | a hand-written leftmost matcher for `G91G0([XYZ])(-?\d+\.?\d*)`, the greedy capture of its groups, the sign test and the direction table |
| `session.dfy` | `Session` | `AppState`, `update_last_command`, `time_since_last_command`, `serial_to_arrow`, `serial_to_gcode`, `handle_key_press` |
| `event_loop.dfy` | `EventLoop` | one tick of `run_event_loop` (serial line first, then one key) and runs of ticks |
| `scenarios.dfy` | `Scenarios` | concrete lines and keys with their exact effects |

Design decisions:

- **Clock.** The clock is an abstract `now: nat`, passed in with each tick.
- **Serial read.** It is an `Option<string>`. A line is handled only when it is non-empty, which is the `n > 0` guard.
- **Key.** It is an `Option<Key>`.
- **Write success.** Whether a serial write succeeds is a boolean input of the tick.
- **Positivity.** The sign test is made on the captured digits. `Jog.PositiveIsAboveZero` ties it to the exact decimal value that the `f32` comparison approximates.
- **Failed write.** A failed write in `handle_key_press` propagates through `?` and ends the loop. The model follows the code: the step reports `Stopped` and the state is left as it was. It does not treat the failure as a report the loop survives.

## Model

| member | source | states |
|---|---|---|
| Text.Trim | src/main.rs:249 | the trimmed line is an infix of the input that neither starts nor ends with Unicode white space, and only white space lies before and after it |
| Text.TrimOfPadded | src/main.rs:350 | trimming is fully determined: white space, then a trimmed text, then white space trims to exactly that text |
| Text.TrimIdempotent | src/main.rs:249 | trimming the already trimmed line a second time in `serial_to_arrow` changes nothing |
| Keys.VirtualKey | src/main.rs:232-237 | no directional key shares its code with Ctrl (0x11) or Return (0x0D) |
| Keys.VirtualKeyInjective | src/main.rs:274-281 | two directional keys have the same code exactly when they are the same key |
| Keys.ScanCode | src/main.rs:128 | the scan code of a character inside the Basic Multilingual Plane is its code point; outside it, the cast keeps the low 16 bits |
| Keys.ChordNesting | src/main.rs:284-288 | after the chord, neither Ctrl nor the directional key is held, whatever was held before; the key goes down only while Ctrl is held; Ctrl is released only after the key is up |
| Keys.TypeText | src/main.rs:121-155 | typing a text emits 2·n events: for each character in order, its down event and then its up event |
| Keys.TypedTypeText | src/main.rs:121-155 | the characters a receiving application sees are exactly the scan codes of the text, in order |
| Keys.TypeTextHoldsNoKey | src/main.rs:121-155 | typing leaves the set of held virtual keys as it was |
| Keys.TypeTextHasNoKeyEvent | src/main.rs:121-155 | typing emits no virtual-key event, Ctrl included |
| Jog.AxisOf | src/main.rs:246 | a letter names an axis exactly when it is one of X, Y and Z, and each of the three letters names its own axis: X for 'X', Y for 'Y', Z for 'Z' |
| Jog.FirstJog | src/main.rs:258 | the result is the first position at or after the start where the pattern matches; if there is none, no position from the start onward matches |
| Jog.Search | src/main.rs:246-258 | the unanchored search finds a match exactly when some position starts one, and it returns the leftmost such position |
| Jog.DigitPrefix | src/main.rs:246 | `\d+` and `\d*` are greedy: the capture is a prefix made of decimal digits (Unicode category Nd), followed by the end of the text or by a non-digit |
| Jog.ReadNumeralSpec | src/main.rs:246 | the second group is a well-formed `-?\d+\.?\d*` that the text starts with, and the character after it can extend it neither by a digit nor by a second point |
| Jog.FindJog | src/main.rs:258 | the captures exist exactly when some position of the command starts a match |
| Jog.StripLabel | src/main.rs:250-252 | a command starting with `GCODE: ` loses exactly that label; any other command is left as it is |
| Jog.LabelHidesNoJog | src/main.rs:249-258 | no match starts inside the label, so a labelled command captures exactly what the bare command does |
| Jog.StripLabelKeepsJog | src/main.rs:248-258 | cutting off the label never changes whether a jog is found, nor what it captures |
| Jog.NatValuePositive | src/main.rs:261 | a string of ASCII digits has a non-zero value exactly when one of its digits is not zero |
| Jog.PositiveIsAboveZero | src/main.rs:261-267 | the digit-based sign test agrees with `value > 0.0` on the exact value of the number, so zero and minus zero are not positive |
| Jog.JogKeyTable | src/main.rs:264-282 | Y gives Up (0x26) when the value is above zero and Down (0x28) otherwise; X gives Right (0x27) or Left (0x25); Z gives Page Up (0x21) or Page Down (0x22) |
| Session.UpdateLastCommand | src/main.rs:63-66 | the command and its time stamp are recorded, and mode, connection and buffer are untouched |
| Session.TimeSinceLastCommand | src/main.rs:69-71 | an elapsed time exists exactly when a command has been recorded, and the stamp plus the elapsed time is the current time |
| Session.SerialToArrow | src/main.rs:244-294 | the trimmed, unlabelled line is always recorded first; a chord is sent exactly when a jog is found whose number parses; the chord is Ctrl around the key of the direction table; otherwise nothing is injected |
| Session.SerialToArrowAsWritten | src/main.rs:258-261 | as written, the arrow path panics exactly when the pattern matches a number that the float parser refuses; in every other case it agrees with `SerialToArrow` |
| Session.SerialToGcode | src/main.rs:221-229 | the line is typed out and then Enter is pressed and released; that is 2·n+2 events, delivering exactly the line's scan codes, never pressing Ctrl; `Typed: ` plus the line is recorded |
| Session.HandleKey | src/main.rs:377-417 | '1' and '2' set the mode from either mode and change nothing else; 'q' quits; in Gcode mode Enter sends a non-empty buffer with a newline, records `Sent: ` plus the buffer and clears it, and does nothing on an empty buffer; Backspace drops the last character, if any; other characters are appended; in Arrow mode nothing else has an effect; a failed write stops the loop with the state untouched |
| EventLoop.ReadPhase | src/main.rs:347-362 | an empty or missing read changes nothing; a non-empty line is trimmed and routed to the arrow path in Arrow mode and to the typing path in Gcode mode; neither path touches the mode or the buffer |
| EventLoop.TickContract | src/main.rs:345-373 | within a tick only the serial line injects events and only the key writes; the key is applied after the line, so a quit keeps what the line did; in Gcode mode no Ctrl is pressed; an idle tick changes nothing |
| EventLoop.ModeFollowsSwitchKeys | src/main.rs:383-390 | while the loop runs, the mode is decided by the last '1' or '2' pressed, and serial lines, editing and sending never change it |
| EventLoop.GcodeRunNeverChords | src/main.rs:351-357 | starting in Gcode mode, as long as '1' is never pressed, no serial line of the run produces a Ctrl press, whatever it says |
| EventLoop.SerialBeforeKey | src/main.rs:347-367 | a line arriving in the same tick as '1' is still typed out in Gcode mode, and only then does the mode become Arrow |
| EventLoop.TypingAppends | src/main.rs:410-412 | text typed in Gcode mode, without mode keys or 'q', lands in the buffer as typed; nothing is injected or written |
| EventLoop.BackspacesErase | src/main.rs:406-408 | n Backspaces in Gcode mode remove the last n characters of the buffer, or all of them when it holds fewer |
| EventLoop.EraseUndoesTyping | src/main.rs:406-412 | typing a text and then pressing Backspace once per character leaves the session as it was |
| EventLoop.TypeThenSend | src/main.rs:395-405 | typing a command and pressing Enter writes buffer plus newline, records it as sent, empties the buffer and stays in Gcode mode |
| EventLoop.QuitIsTerminal | src/main.rs:391-394 | 'q' ends the run at that tick in either mode: later ticks are never looked at, and nothing is written |
| EventLoop.IdleTickChangesNothing | src/main.rs:348-372 | a tick with no line, or an empty one, and no key changes nothing |
| EventLoop.FreshSessionTypesLines | src/main.rs:52-60 | a new session starts in Gcode mode, not connected, with no recorded command, no time stamp and an empty buffer, so its first serial line is typed out, not jogged |
| Scenarios.LabelledJogRight | src/main.rs:244-294 | in Arrow mode the line `GCODE: G91G0X10.5` with its newline gives Ctrl+Right and records `G91G0X10.5` |
| Scenarios.NegativeJogDown | src/main.rs:265 | in Arrow mode `G91G0Y-3` gives Ctrl+Down |
| Scenarios.ZeroJogPagesDown | src/main.rs:267 | in Arrow mode a jog by zero, `G91G0Z0`, takes the non-positive key, Ctrl+Page Down |
| Scenarios.MismatchInjectsNothing | src/main.rs:255-293 | in Arrow mode `G91G1X5` injects nothing but is still recorded as the last command |
| Scenarios.GcodeLineIsTyped | src/main.rs:221-229 | in Gcode mode `hello world` with CR LF gives 24 events ending in Enter down and up, records `Typed: hello world`, and presses no Ctrl |
| Scenarios.ArabicIndicDigitPanics | src/main.rs:246-261 | `G91G0X١` (U+0661) makes the code as written panic, while the corrected path injects nothing and still records the line |
| Scenarios.NkoDigitPanics | src/main.rs:246-261 | `G91G0X߁` (NKO DIGIT ONE, U+07C1) is matched too, so the code as written panics and the corrected path injects nothing |
| Scenarios.TrailingNkoDigitIsNoJog | src/main.rs:246-261 | in `G91G0X1߁` the greedy `\d+` captures both digits, so the capture does not parse: the code as written panics and the corrected path sends no jog |

## Left out

- `SendInput` and the `windows` crate calls in `send_key_down`, `send_key_up` and `type_text` are replaced by appending to the event log. Delivery to the focused window is not modelled.
- `native/src/lib.rs` is not part of this model. It holds thin FFI wrappers over `SendInput` with no decisions in them.
- Serial port opening and configuration, `BufReader::read_line` and its timeout (src/main.rs:298-316, 348) are I/O. A tick receives the line it read, if any. A read error is treated like an empty read, as the `_` arm does.
- The crossterm calls are terminal I/O and are not modelled: raw mode, `event::poll`, `event::read`, and the failures of these calls that would end the loop. A tick receives at most one key code. Non-key terminal events are no key. Every key event is handled alike, whatever its press, release or repeat kind, as the code does.
- `draw_status_bar` (src/main.rs:158-219) is pure terminal output. Its possible failure is not modelled either.
- `Instant` is replaced by an abstract natural clock. `TimeSinceLastCommand` saturates at zero if the clock goes backwards, which a monotonic clock never does.
- `f32` parsing and comparison are replaced by the exact decimal value of the captured number. A huge or tiny number that `f32` would round to infinity or to zero is outside the model.
- The `regex` crate is replaced by a hand-written leftmost, greedy matcher for this one pattern.
- Decimal digits: the class `\d` is the Unicode general category Nd as of Unicode 15.0: ASCII and the 67 other blocks of ten digits, 36 of them in the Basic Multilingual Plane (the doc comments of `Jog.IsOtherDigit` and `Jog.IsSupplementaryDigit` name each). Digit blocks added in later Unicode versions (Unicode 16.0 added, among others, Garay, Gurung Khema, Kirat Rai and Sunuwar digits) are not modelled.
- `std::process::exit(0)` on 'q' is the `Quit` status, which ends the run.
- Session.HandleKey: a write either succeeds whole or fails whole. A failure partway through `write_all` or in `flush` is one failure.
- The `connected` flag: `main` sets `connected` once the port is open (src/main.rs:318). The model carries the flag but no operation here changes it.
- Clock readings: both phases of a tick read the same clock value.

## Findings

| source | as written | input that shows it | evidently intended | confidence | as-written member | corrected member |
|---|---|---|---|---|---|---|
| src/main.rs:246-261 | the pattern's `\d` accepts any Unicode decimal digit, but the capture is read with `parse::<f32>().unwrap()`, which accepts only ASCII digits, so the unwrap panics and the bridge exits | the serial line `G91G0X١` (ARABIC-INDIC DIGIT ONE, U+0661) received in Arrow mode; likewise `G91G0X1߁`, where the greedy `\d+` takes the NKo digit along with the 1 | a line whose number cannot be read is not a jog: nothing is injected, the function returns `false`, and the loop goes on | high, not executed | Session.SerialToArrowAsWritten | Session.SerialToArrow |
