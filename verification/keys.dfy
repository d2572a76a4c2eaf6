/** The injection side of the bridge. Every synthetic input the bridge sends to
    the operating system is one `Event`, so a run of the bridge is described by
    the log of events it emits. */
module Keys {
  import opened Basics

  /** Windows virtual-key codes the bridge uses. */
  const VkReturn: u16 := 0x0D
  const VkControl: u16 := 0x11
  const VkPageUp: u16 := 0x21
  const VkPageDown: u16 := 0x22
  const VkLeft: u16 := 0x25
  const VkUp: u16 := 0x26
  const VkRight: u16 := 0x27
  const VkDown: u16 := 0x28

  /** One synthetic input: a virtual key going down or up, or a Unicode
      character (carried as a 16-bit scan code) going down or up. */
  datatype Event =
    | KeyDown(vk: u16)
    | KeyUp(vk: u16)
    | CharDown(unit: u16)
    | CharUp(unit: u16)

  /** The six directional keys a jog can press, named as the bridge names them. */
  datatype KeyName = Left | Up | Right | Down | PageUp | PageDown

  /** The virtual-key code of each directional key. */
  function VirtualKey(k: KeyName): (vk: u16)
    ensures vk != VkControl && vk != VkReturn
  {
    match k
    case Left => VkLeft
    case Up => VkUp
    case Right => VkRight
    case Down => VkDown
    case PageUp => VkPageUp
    case PageDown => VkPageDown
  }

  /** Distinct directional keys have distinct codes, so the key a chord presses
      tells which direction was meant. */
  lemma VirtualKeyInjective(a: KeyName, b: KeyName)
    ensures VirtualKey(a) == VirtualKey(b) <==> a == b
  {
  }

  /** A character's scan code as the 16-bit cast computes it: the code point
      itself inside the Basic Multilingual Plane, its low 16 bits outside it. */
  function ScanCode(c: char): (u: u16)
    ensures c as int < 0x1_0000 ==> u as int == c as int
    ensures c as int >= 0x1_0000 ==> u as int < c as int && (c as int - u as int) % 0x1_0000 == 0
  {
    (c as int % 0x1_0000) as u16
  }

  /** The set of virtual keys held down after the events, starting from `held`.
      Character events do not hold keys. */
  function Replay(held: set<u16>, events: seq<Event>): set<u16>
    decreases |events|
  {
    if |events| == 0 then held
    else
      var next := match events[0]
        case KeyDown(vk) => held + {vk}
        case KeyUp(vk) => held - {vk}
        case _ => held;
      Replay(next, events[1..])
  }

  /** Ctrl held around one press of a directional key. */
  function CtrlChord(k: KeyName): seq<Event> {
    [KeyDown(VkControl), KeyDown(VirtualKey(k)), KeyUp(VirtualKey(k)), KeyUp(VkControl)]
  }

  /** The chord nests strictly. Whatever keys were held before, afterwards
      neither Ctrl nor the directional key is held; the key goes down only
      while Ctrl is held, and Ctrl goes up only once the key is up again. */
  lemma ChordNesting(k: KeyName, held: set<u16>)
    ensures Replay(held, CtrlChord(k)) == held - {VkControl, VirtualKey(k)}
    ensures forall i :: 0 <= i < 4 && CtrlChord(k)[i] == KeyDown(VirtualKey(k))
              ==> VkControl in Replay(held, CtrlChord(k)[..i])
    ensures forall i :: 0 <= i < 4 && CtrlChord(k)[i] == KeyUp(VkControl)
              ==> VirtualKey(k) !in Replay(held, CtrlChord(k)[..i])
  {
    ChordReplay(held, VirtualKey(k));
  }

  /** The held-key sets along the four events of a Ctrl chord on `vk`. */
  lemma ChordReplay(held: set<u16>, vk: u16)
    requires vk != VkControl
    ensures var events := [KeyDown(VkControl), KeyDown(vk), KeyUp(vk), KeyUp(VkControl)];
      && Replay(held, events) == held - {VkControl, vk}
      && VkControl in Replay(held, events[..1])
      && vk !in Replay(held, events[..3])
  {
    var events := [KeyDown(VkControl), KeyDown(vk), KeyUp(vk), KeyUp(VkControl)];
    var h1, h2, h3 := held + {VkControl}, held + {VkControl} + {vk}, held + {VkControl} + {vk} - {vk};
    var t1, t2, t3 := events[1..], events[2..], events[3..];
    assert t1[1..] == t2 && t2[1..] == t3 && t3[1..] == [];
    assert Replay(held, events) == Replay(h1, t1) == Replay(h2, t2) == Replay(h3, t3);
    assert Replay(h3, t3) == h3 - {VkControl};
    var p1, p3 := events[..1], events[..3];
    assert p1[1..] == [];
    assert Replay(held, p1) == h1;
    assert p3[1..] == [KeyDown(vk), KeyUp(vk)] && p3[1..][1..] == [KeyUp(vk)] && p3[1..][1..][1..] == [];
    assert Replay(held, p3) == Replay(h1, p3[1..]) == Replay(h2, p3[1..][1..]) == h3;
  }

  /** The scan codes of a text, character by character. */
  function ScanCodes(text: string): (units: seq<u16>)
    ensures |units| == |text|
    ensures forall i :: 0 <= i < |text| ==> units[i] == ScanCode(text[i])
  {
    seq(|text|, i requires 0 <= i < |text| => ScanCode(text[i]))
  }

  /** Types a text: one character-down/character-up pair per character, in order. */
  function TypeText(text: string): (events: seq<Event>)
    ensures |events| == 2 * |text|
    ensures forall i :: 0 <= i < |text| ==>
              events[2 * i] == CharDown(ScanCode(text[i])) && events[2 * i + 1] == CharUp(ScanCode(text[i]))
    decreases |text|
  {
    if |text| == 0 then []
    else [CharDown(ScanCode(text[0])), CharUp(ScanCode(text[0]))] + TypeText(text[1..])
  }

  /** The characters a receiving application sees typed: the scan code of every
      character-down event, in order. */
  function Typed(events: seq<Event>): seq<u16>
    decreases |events|
  {
    if |events| == 0 then []
    else (if events[0].CharDown? then [events[0].unit] else []) + Typed(events[1..])
  }

  /** Typing a text delivers exactly its scan codes; for text inside the Basic
      Multilingual Plane these are its code points. */
  lemma {:induction false} TypedTypeText(text: string)
    ensures Typed(TypeText(text)) == ScanCodes(text)
    decreases |text|
  {
    if |text| > 0 {
      var e := TypeText(text);
      assert e == [CharDown(ScanCode(text[0]))] + ([CharUp(ScanCode(text[0]))] + TypeText(text[1..]));
      assert e[1..] == [CharUp(ScanCode(text[0]))] + TypeText(text[1..]);
      assert e[1..][1..] == TypeText(text[1..]);
      TypedTypeText(text[1..]);
      assert ScanCodes(text) == [ScanCode(text[0])] + ScanCodes(text[1..]);
    }
  }

  /** Typing a text presses no virtual key: the held keys are left as they were. */
  lemma {:induction false} TypeTextHoldsNoKey(held: set<u16>, text: string)
    ensures Replay(held, TypeText(text)) == held
    decreases |text|
  {
    if |text| > 0 {
      var e := TypeText(text);
      assert e[1..][1..] == TypeText(text[1..]);
      TypeTextHoldsNoKey(held, text[1..]);
    }
  }

  /** Typing a text emits no virtual-key event at all. */
  lemma TypeTextHasNoKeyEvent(text: string, vk: u16)
    ensures KeyDown(vk) !in TypeText(text) && KeyUp(vk) !in TypeText(text)
  {
    var e := TypeText(text);
    forall j | 0 <= j < |e| ensures e[j] != KeyDown(vk) && e[j] != KeyUp(vk) {
      var i := j / 2;
      assert j == 2 * i || j == 2 * i + 1;
    }
  }

  /** What is typed by two event logs in a row is what each types, in order. */
  lemma {:induction false} TypedAppend(a: seq<Event>, b: seq<Event>)
    ensures Typed(a + b) == Typed(a) + Typed(b)
    decreases |a|
  {
    if |a| == 0 {
      assert a + b == b;
    } else {
      assert (a + b)[0] == a[0];
      assert (a + b)[1..] == a[1..] + b;
      TypedAppend(a[1..], b);
    }
  }
}
