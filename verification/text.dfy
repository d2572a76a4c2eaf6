/** Rust's `str::trim`: removal of leading and trailing white space, where white
    space is the Unicode White_Space property that `char::is_whitespace` tests. */
module Text {

  /** `char::is_whitespace`: the 25 characters with the Unicode White_Space property. */
  predicate IsWhitespace(c: char) {
    || ('\t' <= c <= '\r')
    || c == ' '
    || c == '\U{85}'
    || c == '\U{A0}'
    || c == '\U{1680}'
    || ('\U{2000}' <= c <= '\U{200A}')
    || c == '\U{2028}'
    || c == '\U{2029}'
    || c == '\U{202F}'
    || c == '\U{205F}'
    || c == '\U{3000}'
  }

  predicate AllWhitespace(s: string) {
    forall i :: 0 <= i < |s| ==> IsWhitespace(s[i])
  }

  /** True if `s` is empty or neither begins nor ends with white space. */
  predicate Trimmed(s: string) {
    |s| == 0 || (!IsWhitespace(s[0]) && !IsWhitespace(s[|s| - 1]))
  }

  /** The length of the white-space run at the front of `s`. */
  function LeadingSpace(s: string): (n: nat)
    ensures n <= |s|
    ensures AllWhitespace(s[..n])
    ensures n < |s| ==> !IsWhitespace(s[n])
  {
    if |s| == 0 || !IsWhitespace(s[0]) then 0
    else
      var n := LeadingSpace(s[1..]);
      assert s[..n + 1] == [s[0]] + s[1..][..n];
      n + 1
  }

  /** The length of the white-space run at the back of `s`. */
  function TrailingSpace(s: string): (n: nat)
    ensures n <= |s|
    ensures AllWhitespace(s[|s| - n..])
    ensures n < |s| ==> !IsWhitespace(s[|s| - n - 1])
  {
    if |s| == 0 || !IsWhitespace(s[|s| - 1]) then 0
    else
      var init := s[..|s| - 1];
      var n := TrailingSpace(init);
      assert s[|s| - (n + 1)..] == init[|init| - n..] + [s[|s| - 1]];
      n + 1
  }

  /** `str::trim`: what is left of `s` once the white space at both ends is cut
      away. The result is a trimmed infix of `s`, and only white space lies
      around it. */
  function Trim(s: string): (r: string)
    ensures Trimmed(r)
    ensures LeadingSpace(s) + |r| <= |s|
    ensures r == s[LeadingSpace(s)..LeadingSpace(s) + |r|]
    ensures AllWhitespace(s[LeadingSpace(s) + |r|..])
  {
    var a := LeadingSpace(s);
    var rest := s[a..];
    var b := TrailingSpace(rest);
    assert |rest| - b < |rest| ==> !IsWhitespace(rest[|rest| - b - 1]);
    rest[..|rest| - b]
  }

  /** The leading-space count is fixed by the two facts its contract states. */
  lemma LeadingSpaceUnique(s: string, k: nat)
    requires k <= |s| && AllWhitespace(s[..k]) && (k < |s| ==> !IsWhitespace(s[k]))
    ensures LeadingSpace(s) == k
  {
    var n := LeadingSpace(s);
    if n < k {
      WhitespaceAt(s, 0, k, n);
    } else if k < n {
      WhitespaceAt(s, 0, n, k);
    }
  }

  /** Every position inside a white-space slice holds white space. */
  lemma WhitespaceAt(s: string, lo: nat, hi: nat, i: nat)
    requires lo <= i < hi <= |s| && AllWhitespace(s[lo..hi])
    ensures IsWhitespace(s[i])
  {
    assert s[lo..hi][i - lo] == s[i];
  }

  /** A concatenation of white-space runs is a white-space run. */
  lemma AllWhitespaceConcat(p: string, q: string)
    requires AllWhitespace(p) && AllWhitespace(q)
    ensures AllWhitespace(p + q)
  {
    forall i | 0 <= i < |p + q| ensures IsWhitespace((p + q)[i]) {
      if i >= |p| { assert (p + q)[i] == q[i - |p|]; }
    }
  }

  /** Trimming is characterised by its contract: any text that is trimmed and
      surrounded only by white space is what `Trim` returns. */
  lemma TrimOfPadded(p: string, t: string, q: string)
    requires AllWhitespace(p) && AllWhitespace(q) && Trimmed(t)
    ensures Trim(p + t + q) == t
  {
    var s := p + t + q;
    if |t| == 0 {
      assert s == p + q;
      AllWhitespaceConcat(p, q);
      LeadingSpaceUnique(s, |s|);
    } else {
      assert s[..|p|] == p;
      assert s[|p|] == t[0];
      LeadingSpaceUnique(s, |p|);
      TrimOfPaddedTail(p, t, q);
    }
  }

  /** The tail case of `TrimOfPadded`, once the leading run is known to be `p`. */
  lemma TrimOfPaddedTail(p: string, t: string, q: string)
    requires AllWhitespace(q) && |t| > 0 && Trimmed(t)
    requires LeadingSpace(p + t + q) == |p|
    ensures Trim(p + t + q) == t
  {
    var s := p + t + q;
    var r := Trim(s);
    assert s[|p|..] == t + q;
    assert s[|p| + |t| - 1] == t[|t| - 1];
    if |r| < |t| {
      assert false;
    } else if |r| > |t| {
      assert false;
    } else {
      assert r == s[|p|..|p| + |t|];
    }
  }

  /** Trimming twice is trimming once, so the second `trim` in
      `serial_to_arrow` of an already trimmed line changes nothing. */
  lemma TrimIdempotent(s: string)
    ensures Trim(Trim(s)) == Trim(s)
  {
    var t := Trim(s);
    assert [] + t + [] == t;
    TrimOfPadded([], t, []);
  }
}
