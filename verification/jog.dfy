/** The jog-command matcher: a hand-written leftmost search for the pattern
    `G91G0([XYZ])(-?\d+\.?\d*)`, the capture of its two groups, the reading of
    the captured number, and the table from axis and sign to directional key. */
module Jog {
  import opened Basics
  import opened Keys

  datatype Axis = X | Y | Z

  /** The literal that starts every jog command: relative positioning, rapid move. */
  const JogMarker: string := "G91G0"

  /** The label some pendants put in front of a line; it is cut off before matching. */
  const GcodeLabel: string := "GCODE: "

  predicate IsAsciiDigit(c: char) {
    '0' <= c <= '9'
  }

  predicate AllAsciiDigits(s: string) {
    forall i :: 0 <= i < |s| ==> IsAsciiDigit(s[i])
  }

  /** True if `c` is one of the ten code points starting at `first`. */
  predicate InDigitBlock(c: char, first: int) {
    first <= c as int < first + 10
  }

  /** A decimal digit (Unicode general category Nd, as of Unicode 15.0) other
      than the ASCII ones. Nd is made of blocks of ten consecutive code points,
      each named here by its first code point; the supplementary-plane blocks
      are listed at `IsSupplementaryDigit`. In the Basic Multilingual Plane:
      Arabic-Indic 0660, Extended Arabic-Indic 06F0, NKo 07C0, Devanagari 0966,
      Bengali 09E6, Gurmukhi 0A66, Gujarati 0AE6, Oriya 0B66,
      Tamil 0BE6, Telugu 0C66, Kannada 0CE6, Malayalam 0D66, Sinhala Lith
      0DE6, Thai 0E50, Lao 0ED0, Tibetan 0F20, Myanmar 1040, Myanmar Shan 1090,
      Khmer 17E0, Mongolian 1810, Limbu 1946, New Tai Lue 19D0, Tai Tham Hora
      1A80, Tai Tham Tham 1A90, Balinese 1B50, Sundanese 1BB0, Lepcha 1C40,
      Ol Chiki 1C50, Vai A620, Saurashtra A8D0, Kayah Li A900, Javanese A9D0,
      Myanmar Tai Laing A9F0, Cham AA50, Meetei Mayek ABF0 and full-width FF10. */
  predicate IsOtherDigit(c: char) {
    if c as int < 0x10000 then IsBmpDigit(c) else IsSupplementaryDigit(c)
  }

  /** The Basic Multilingual Plane part of `IsOtherDigit`. The blocks are
      sorted, and the test first narrows down by code point. */
  predicate IsBmpDigit(c: char) {
    var x := c as int;
    if x < 0x09E6 then
      InDigitBlock(c, 0x0660) || InDigitBlock(c, 0x06F0) || InDigitBlock(c, 0x07C0) || InDigitBlock(c, 0x0966)
    else if x < 0x0BE6 then
      InDigitBlock(c, 0x09E6) || InDigitBlock(c, 0x0A66) || InDigitBlock(c, 0x0AE6) || InDigitBlock(c, 0x0B66)
    else if x < 0x0DE6 then
      InDigitBlock(c, 0x0BE6) || InDigitBlock(c, 0x0C66) || InDigitBlock(c, 0x0CE6) || InDigitBlock(c, 0x0D66)
    else if x < 0x1040 then
      InDigitBlock(c, 0x0DE6) || InDigitBlock(c, 0x0E50) || InDigitBlock(c, 0x0ED0) || InDigitBlock(c, 0x0F20)
    else if x < 0x1946 then
      InDigitBlock(c, 0x1040) || InDigitBlock(c, 0x1090) || InDigitBlock(c, 0x17E0) || InDigitBlock(c, 0x1810)
    else if x < 0x1B50 then
      InDigitBlock(c, 0x1946) || InDigitBlock(c, 0x19D0) || InDigitBlock(c, 0x1A80) || InDigitBlock(c, 0x1A90)
    else if x < 0xA620 then
      InDigitBlock(c, 0x1B50) || InDigitBlock(c, 0x1BB0) || InDigitBlock(c, 0x1C40) || InDigitBlock(c, 0x1C50)
    else if x < 0xA9D0 then
      InDigitBlock(c, 0xA620) || InDigitBlock(c, 0xA8D0) || InDigitBlock(c, 0xA900)
    else
      InDigitBlock(c, 0xA9D0) || InDigitBlock(c, 0xA9F0) || InDigitBlock(c, 0xAA50) || InDigitBlock(c, 0xABF0)
      || InDigitBlock(c, 0xFF10)
  }

  /** The supplementary-plane part of `IsOtherDigit`: Osmanya 104A0, Hanifi
      Rohingya 10D30, Brahmi 11066, Sora Sompeng 110F0, Chakma 11136, Sharada
      111D0, Khudawadi 112F0, Newa 11450, Tirhuta 114D0, Modi 11650, Takri
      116C0, Ahom 11730, Warang Citi 118E0, Dives Akuru 11950, Bhaiksuki 11C50,
      Masaram Gondi 11D50, Gunjala Gondi 11DA0, Kawi 11F50, Mro 16A60, Tangsa
      16AC0, Pahawh Hmong 16B50, the five mathematical digit sets 1D7CE to
      1D7FF, Nyiakeng Puachue Hmong 1E140, Wancho 1E2F0, Nag Mundari 1E4F0,
      Adlam 1E950 and the segmented digits 1FBF0. */
  predicate IsSupplementaryDigit(c: char) {
    var x := c as int;
    if x < 0x11136 then
      InDigitBlock(c, 0x104A0) || InDigitBlock(c, 0x10D30) || InDigitBlock(c, 0x11066) || InDigitBlock(c, 0x110F0)
    else if x < 0x11650 then
      InDigitBlock(c, 0x11136) || InDigitBlock(c, 0x111D0) || InDigitBlock(c, 0x112F0) || InDigitBlock(c, 0x11450)
      || InDigitBlock(c, 0x114D0)
    else if x < 0x11C50 then
      InDigitBlock(c, 0x11650) || InDigitBlock(c, 0x116C0) || InDigitBlock(c, 0x11730) || InDigitBlock(c, 0x118E0)
      || InDigitBlock(c, 0x11950)
    else if x < 0x16A60 then
      InDigitBlock(c, 0x11C50) || InDigitBlock(c, 0x11D50) || InDigitBlock(c, 0x11DA0) || InDigitBlock(c, 0x11F50)
    else if x < 0x1E140 then
      InDigitBlock(c, 0x16A60) || InDigitBlock(c, 0x16AC0) || InDigitBlock(c, 0x16B50) || 0x1D7CE <= x < 0x1D800
    else
      InDigitBlock(c, 0x1E140) || InDigitBlock(c, 0x1E2F0) || InDigitBlock(c, 0x1E4F0) || InDigitBlock(c, 0x1E950)
      || InDigitBlock(c, 0x1FBF0)
  }

  /** The regex class `\d`, which the regex crate reads as the Unicode general
      category Nd rather than as ASCII digits alone. */
  predicate IsDecimalDigit(c: char) {
    IsAsciiDigit(c) || IsOtherDigit(c)
  }

  /** The axis a letter of the class `[XYZ]` names. */
  function AxisOf(c: char): (a: Option<Axis>)
    ensures a.Some? <==> c in "XYZ"
    ensures a == Some(X) <==> c == 'X'
    ensures a == Some(Y) <==> c == 'Y'
    ensures a == Some(Z) <==> c == 'Z'
  {
    if c == 'X' then Some(X)
    else if c == 'Y' then Some(Y)
    else if c == 'Z' then Some(Z)
    else None
  }

  /** The pattern matches at the very start of `t`: the marker, an axis letter,
      then an optional minus sign and at least one digit. */
  predicate StartsJog(t: string) {
    && |t| >= 7
    && t[..5] == JogMarker
    && AxisOf(t[5]).Some?
    && (IsDecimalDigit(t[6]) || (t[6] == '-' && |t| >= 8 && IsDecimalDigit(t[7])))
  }

  /** The leftmost position at or after `from` where the pattern matches. */
  function FirstJog(s: string, from: nat): (r: Option<nat>)
    requires from <= |s|
    ensures r.Some? ==> from <= r.value < |s| && StartsJog(s[r.value..])
    ensures r.Some? ==> forall j :: from <= j < r.value ==> !StartsJog(s[j..])
    ensures r.None? ==> forall j :: from <= j <= |s| ==> !StartsJog(s[j..])
    decreases |s| - from
  {
    if from == |s| then None
    else if StartsJog(s[from..]) then Some(from)
    else FirstJog(s, from + 1)
  }

  /** The unanchored search of the regex: the leftmost match position in `s`. */
  function Search(s: string): (r: Option<nat>)
    ensures r.Some? <==> exists i :: 0 <= i <= |s| && StartsJog(s[i..])
    ensures r.Some? ==> r.value < |s| && StartsJog(s[r.value..])
    ensures r.Some? ==> forall j :: 0 <= j < r.value ==> !StartsJog(s[j..])
  {
    FirstJog(s, 0)
  }

  /** The greedy `\d+` or `\d*` at the front of `s`: the longest prefix of
      decimal digits. */
  function DigitPrefix(s: string): (d: string)
    ensures d <= s
    ensures AllDecimalDigits(d)
    ensures |d| == |s| || !IsDecimalDigit(s[|d|])
  {
    if |s| == 0 || !IsDecimalDigit(s[0]) then []
    else
      var rest := DigitPrefix(s[1..]);
      assert s == [s[0]] + s[1..];
      [s[0]] + rest
  }

  /** The second capture group, split into its parts: the sign, the digits
      before the point, whether a point follows, the digits after it. */
  datatype Numeral = Numeral(negative: bool, whole: string, point: bool, frac: string)

  predicate AllDecimalDigits(s: string) {
    forall i :: 0 <= i < |s| ==> IsDecimalDigit(s[i])
  }

  function SignText(negative: bool): string {
    if negative then "-" else ""
  }

  function PointText(point: bool): string {
    if point then "." else ""
  }

  /** The text a numeral was captured from. */
  function NumeralText(n: Numeral): string {
    SignText(n.negative) + (n.whole + (PointText(n.point) + n.frac))
  }

  /** The shape `-?\d+\.?\d*`. */
  predicate WellFormed(n: Numeral) {
    && |n.whole| >= 1
    && AllDecimalDigits(n.whole)
    && AllDecimalDigits(n.frac)
    && (!n.point ==> n.frac == [])
  }

  /** The text can start the capture `-?\d+`. */
  predicate StartsNumber(s: string) {
    |s| > 0 && (IsDecimalDigit(s[0]) || (s[0] == '-' && |s| > 1 && IsDecimalDigit(s[1])))
  }

  /** The text after the optional minus sign. */
  function AfterSign(s: string): string
    requires |s| > 0
  {
    if s[0] == '-' then s[1..] else s
  }

  /** The text after the digits before the point. */
  function AfterWhole(s: string): string
    requires |s| > 0
  {
    AfterSign(s)[|DigitPrefix(AfterSign(s))|..]
  }

  /** A point follows the digits before it. */
  predicate HasPoint(s: string)
    requires |s| > 0
  {
    |AfterWhole(s)| > 0 && AfterWhole(s)[0] == '.'
  }

  /** The text after the optional point. */
  function AfterPoint(s: string): string
    requires |s| > 0
  {
    if HasPoint(s) then AfterWhole(s)[1..] else AfterWhole(s)
  }

  /** The digits after the point, if there is one; `\d*` takes none otherwise,
      as it stands right after `\d+`. */
  function Frac(s: string): string
    requires |s| > 0
  {
    if HasPoint(s) then DigitPrefix(AfterPoint(s)) else []
  }

  /** The text after the whole capture. */
  function AfterNumeral(s: string): string
    requires |s| > 0
  {
    AfterPoint(s)[|Frac(s)|..]
  }

  /** The greedy capture of `-?\d+\.?\d*` at the front of `s`; the lemma
      `ReadNumeralSpec` says what it is. */
  function ReadNumeral(s: string): Numeral
    requires StartsNumber(s)
  {
    Numeral(s[0] == '-', DigitPrefix(AfterSign(s)), HasPoint(s), Frac(s))
  }

  /** The capture at the front of `s` is a well-formed numeral that `s` starts
      with, and the character after it, if any, cannot extend it: it is not a
      digit, and it is not a point unless the numeral already has one. */
  lemma ReadNumeralSpec(s: string)
    requires StartsNumber(s)
    ensures var n := ReadNumeral(s);
      && WellFormed(n)
      && NumeralText(n) <= s
      && var e := |NumeralText(n)|;
         e == |s| || (!IsDecimalDigit(s[e]) && (n.point || s[e] != '.'))
  {
    ReadNumeralSpells(s);
    ReadNumeralEnds(s);
    assert IsDecimalDigit(AfterSign(s)[0]);
  }

  /** The capture followed by the text after it is the whole text. */
  lemma ReadNumeralSpells(s: string)
    requires StartsNumber(s)
    ensures s == NumeralText(ReadNumeral(s)) + AfterNumeral(s)
  {
    var sign := SignText(s[0] == '-');
    var whole := DigitPrefix(AfterSign(s));
    var point := PointText(HasPoint(s));
    var frac := Frac(s);
    var rest := AfterNumeral(s);
    assert s == sign + (whole + (point + (frac + rest))) by {
      assert s == sign + AfterSign(s);
      PrefixSplit(whole, AfterSign(s));
      PointSplit(AfterWhole(s), HasPoint(s));
      PrefixSplit(frac, AfterPoint(s));
    }
    RegroupFour(sign, whole, point, frac, rest);
  }

  /** The text after the capture starts neither with a digit nor, when the
      capture has no point, with a point. */
  lemma ReadNumeralEnds(s: string)
    requires StartsNumber(s)
    ensures var rest := AfterNumeral(s);
      rest == [] || (!IsDecimalDigit(rest[0]) && (HasPoint(s) || rest[0] != '.'))
  {
    if !HasPoint(s) {
      assert AfterNumeral(s) == AfterWhole(s);
    }
  }

  /** A text is its optional leading point followed by what comes after it. */
  lemma PointSplit(t: string, point: bool)
    requires point <==> |t| > 0 && t[0] == '.'
    ensures t == PointText(point) + (if point then t[1..] else t)
  {
    if point {
      assert t == [t[0]] + t[1..];
    }
  }

  /** Concatenation regrouped: the first four pieces, then the last. */
  lemma RegroupFour(a: string, b: string, c: string, d: string, e: string)
    ensures a + (b + (c + (d + e))) == (a + (b + (c + d))) + e
  {
  }

  /** A text is its prefix followed by what comes after it. */
  lemma PrefixSplit(d: string, s: string)
    requires d <= s
    ensures s == d + s[|d|..]
  {
  }

  /** What one match captures: the axis letter and the number after it. */
  datatype Jog = Jog(axis: Axis, amount: Numeral)

  /** The captures of a match that starts at the front of `t`. */
  function JogAt(t: string): Jog
    requires StartsJog(t)
  {
    Jog(AxisOf(t[5]).value, ReadNumeral(t[6..]))
  }

  /** `re.captures(command)`: the captures of the leftmost match, if there is one. */
  function FindJog(command: string): (r: Option<Jog>)
    ensures r.Some? <==> exists i :: 0 <= i <= |command| && StartsJog(command[i..])
  {
    match Search(command)
    case None => None
    case Some(i) => Some(JogAt(command[i..]))
  }

  /** Removes the label from the front of a command, if it is there. */
  function StripLabel(command: string): (r: string)
    ensures GcodeLabel <= command ==> command == GcodeLabel + r
    ensures !(GcodeLabel <= command) ==> r == command
  {
    if GcodeLabel <= command then command[|GcodeLabel|..] else command
  }

  /** No match starts inside the label. */
  lemma NoJogInLabel(rest: string, j: nat)
    requires j < |GcodeLabel|
    ensures !StartsJog((GcodeLabel + rest)[j..])
  {
    var t := GcodeLabel + rest;
    assert t[j] == GcodeLabel[j];
    if j == 0 {
      assert t[1] == 'C';
      assert |t| >= 5 ==> t[..5][1] == 'C';
    } else if |t| - j >= 5 {
      assert t[j..][..5][0] == t[j];
    }
  }

  /** Past the label, the labelled command reads like the bare one. */
  lemma PastLabel(rest: string, j: nat)
    requires |GcodeLabel| <= j <= |GcodeLabel + rest|
    ensures (GcodeLabel + rest)[j..] == rest[j - |GcodeLabel|..]
  {
  }

  /** No match can start inside the label, and past it the label changes
      nothing: a labelled command captures what the bare command does. */
  lemma LabelHidesNoJog(rest: string)
    ensures FindJog(GcodeLabel + rest) == FindJog(rest)
  {
    var t := GcodeLabel + rest;
    match Search(rest)
    case None =>
      forall j | 0 <= j <= |t| ensures !StartsJog(t[j..]) {
        if j < 7 {
          NoJogInLabel(rest, j);
        } else {
          PastLabel(rest, j);
        }
      }
    case Some(i) =>
      PastLabel(rest, i + 7);
      var p := Search(t).value;
      if p < 7 {
        NoJogInLabel(rest, p);
      } else if p < i + 7 {
        PastLabel(rest, p);
      } else {
        assert p == i + 7;
        PastLabel(rest, p);
      }
  }

  /** Cutting the label off changes only the text that gets recorded, never
      whether a jog is found nor what it captures. */
  lemma StripLabelKeepsJog(command: string)
    ensures FindJog(StripLabel(command)) == FindJog(command)
  {
    if GcodeLabel <= command {
      LabelHidesNoJog(StripLabel(command));
    }
  }

  /** The captured number parses as an `f32`. Rust's float parser takes
      `-?d+(.d*)?` with ASCII digits only, so given the shape of the capture it
      fails exactly when a digit outside ASCII was captured. */
  predicate Parses(n: Numeral) {
    AllAsciiDigits(n.whole) && AllAsciiDigits(n.frac)
  }

  /** All the digits of a numeral, the point left out. */
  function Digits(n: Numeral): string {
    n.whole + n.frac
  }

  /** The sign test of the bridge, read on the digits: no minus sign and at
      least one digit other than zero. Zero and minus zero are not positive. */
  predicate IsPositive(n: Numeral) {
    !n.negative && exists i :: 0 <= i < |Digits(n)| && Digits(n)[i] != '0'
  }

  /** The value of a string of ASCII digits. */
  function NatValue(ds: string): nat
    requires AllAsciiDigits(ds)
    decreases |ds|
  {
    if |ds| == 0 then 0
    else 10 * NatValue(ds[..|ds| - 1]) + (ds[|ds| - 1] as int - '0' as int)
  }

  function Pow10(k: nat): (p: nat)
    ensures p >= 1
  {
    if k == 0 then 1 else 10 * Pow10(k - 1)
  }

  /** The exact value of a parsed numeral: its digits as one integer, scaled
      down by the number of digits after the point, with its sign. */
  function Value(n: Numeral): real
    requires Parses(n)
  {
    assert AllAsciiDigits(Digits(n)) by {
      forall i | 0 <= i < |Digits(n)| ensures IsAsciiDigit(Digits(n)[i]) {
        if i >= |n.whole| { assert Digits(n)[i] == n.frac[i - |n.whole|]; }
      }
    }
    var magnitude := NatValue(Digits(n)) as real / Pow10(|n.frac|) as real;
    if n.negative then -magnitude else magnitude
  }

  /** A digit string has a non-zero value exactly when some digit is not zero. */
  lemma {:induction false} NatValuePositive(ds: string)
    requires AllAsciiDigits(ds)
    ensures NatValue(ds) > 0 <==> exists i :: 0 <= i < |ds| && ds[i] != '0'
    decreases |ds|
  {
    if |ds| > 0 {
      var init := ds[..|ds| - 1];
      NatValuePositive(init);
      if exists i :: 0 <= i < |init| && init[i] != '0' {
        var i :| 0 <= i < |init| && init[i] != '0';
        assert ds[i] != '0';
      }
      if exists i :: 0 <= i < |ds| && ds[i] != '0' {
        var i :| 0 <= i < |ds| && ds[i] != '0';
        if i < |ds| - 1 {
          assert init[i] != '0';
        }
      }
    }
  }

  /** The digit test agrees with the numeric one: a parsed numeral is positive
      exactly when its value is greater than zero. */
  lemma PositiveIsAboveZero(n: Numeral)
    requires Parses(n)
    ensures IsPositive(n) <==> Value(n) > 0.0
  {
    var ds := Digits(n);
    assert AllAsciiDigits(ds) by {
      forall i | 0 <= i < |ds| ensures IsAsciiDigit(ds[i]) {
        if i >= |n.whole| { assert ds[i] == n.frac[i - |n.whole|]; }
      }
    }
    NatValuePositive(ds);
    var p := Pow10(|n.frac|) as real;
    var m := NatValue(ds) as real;
    assert m > 0.0 <==> m / p > 0.0;
  }

  /** The direction table: the axis picks the key pair, the sign picks the key. */
  function KeyFor(axis: Axis, positive: bool): KeyName {
    match axis
    case Y => if positive then Up else Down
    case X => if positive then Right else Left
    case Z => if positive then PageUp else PageDown
  }

  /** The key a parsed jog presses, stated against the value it moves by:
      Y goes up or down, X right or left, Z page up or page down, and a move
      by zero takes the second key of the pair. */
  lemma JogKeyTable(j: Jog)
    requires Parses(j.amount)
    ensures var vk := VirtualKey(KeyFor(j.axis, IsPositive(j.amount)));
      && (j.axis == Y ==> vk == if Value(j.amount) > 0.0 then VkUp else VkDown)
      && (j.axis == X ==> vk == if Value(j.amount) > 0.0 then VkRight else VkLeft)
      && (j.axis == Z ==> vk == if Value(j.amount) > 0.0 then VkPageUp else VkPageDown)
  {
    PositiveIsAboveZero(j.amount);
  }
}
