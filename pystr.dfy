/** The few pieces of Python's `str` behaviour that the modelled code relies on. */
module PyStr {

  /**
   * `c.isspace()`: the characters Python counts as whitespace; `\s` in a `str` regex
   * matches the same ones.
   */
  predicate IsSpace(c: char) {
    || ('\t' <= c <= '\r')                   // tab, newline, vertical tab, form feed, carriage return
    || ('\U{001C}' <= c <= '\U{001F}')       // the four information separators
    || c == ' ' || c == '\U{0085}' || c == '\U{00A0}' || c == '\U{1680}'
    || ('\U{2000}' <= c <= '\U{200A}')
    || c == '\U{2028}' || c == '\U{2029}' || c == '\U{202F}' || c == '\U{205F}' || c == '\U{3000}'
  }

  /** `s.lstrip(chars)`: drop every leading character for which `strip` holds. */
  function TrimLeft(s: string, strip: char -> bool): (r: string)
    ensures |r| <= |s| && r == s[|s| - |r|..]
    ensures forall i :: 0 <= i < |s| - |r| ==> strip(s[i])
    ensures r != [] ==> !strip(r[0])
  {
    if s != [] && strip(s[0]) then TrimLeft(s[1..], strip) else s
  }

  /** `s.rstrip(chars)`: drop every trailing character for which `strip` holds. */
  function TrimRight(s: string, strip: char -> bool): (r: string)
    ensures |r| <= |s| && r == s[..|r|]
    ensures forall i :: |r| <= i < |s| ==> strip(s[i])
    ensures r != [] ==> !strip(r[|r| - 1])
  {
    if s != [] && strip(s[|s| - 1]) then TrimRight(s[..|s| - 1], strip) else s
  }

  /** `r` is `s` from index `i` on, with only characters for which `strip` holds cut from before and after it. */
  predicate InnerAt(s: string, r: string, strip: char -> bool, i: nat) {
    && i + |r| <= |s| && r == s[i..][..|r|]
    && (forall k :: 0 <= k < i ==> strip(s[k]))
    && (forall k :: i + |r| <= k < |s| ==> strip(s[k]))
  }

  /** `s.strip(chars)`: both ends. The result is empty exactly when every character is stripped. */
  function StripChars(s: string, strip: char -> bool): (r: string)
    ensures r != [] ==> !strip(r[0]) && !strip(r[|r| - 1])
    ensures r == [] <==> forall i :: 0 <= i < |s| ==> strip(s[i])
    ensures |r| <= |s|
    ensures InnerAt(s, r, strip, |s| - |TrimLeft(s, strip)|)
  {
    TrimBothInner(s, strip);
    TrimRight(TrimLeft(s, strip), strip)
  }

  /** Trimming the left end, then the right, leaves the slice of `s` between two strippable runs. */
  lemma TrimBothInner(s: string, strip: char -> bool)
    ensures InnerAt(s, TrimRight(TrimLeft(s, strip), strip), strip, |s| - |TrimLeft(s, strip)|)
  {
    var l := TrimLeft(s, strip);
    var r := TrimRight(l, strip);
    var i := |s| - |l|;
    assert r == s[i..][..|r|];
    assert forall k :: i + |r| <= k < |s| ==> s[k] == l[k - i];
  }

  /** `s.strip()` with no argument: surrounding whitespace. */
  function Strip(s: string): (r: string)
    ensures r != [] ==> !IsSpace(r[0]) && !IsSpace(r[|r| - 1])
    ensures r == [] <==> forall i :: 0 <= i < |s| ==> IsSpace(s[i])
    ensures |r| <= |s|
    ensures InnerAt(s, r, IsSpace, |s| - |TrimLeft(s, IsSpace)|)
  {
    StripChars(s, IsSpace)
  }

  /** Stripping twice is stripping once: a stripped string has nothing left to strip. */
  lemma {:induction false} StripCharsIdempotent(s: string, strip: char -> bool)
    ensures StripChars(StripChars(s, strip), strip) == StripChars(s, strip)
  {
    var r := StripChars(s, strip);
    if r != [] {
      assert TrimLeft(r, strip) == r;
      assert TrimRight(r, strip) == r;
    }
  }

  /** A string with nothing to strip at either end is its own strip. */
  lemma StripCharsKeeps(s: string, strip: char -> bool)
    requires s != [] && !strip(s[0]) && !strip(s[|s| - 1])
    ensures StripChars(s, strip) == s
  {
    assert TrimLeft(s, strip) == s;
    assert TrimRight(s, strip) == s;
  }

  /** One strippable character on each side of a text with nothing to strip at its ends is cut off. */
  lemma StripCharsEnclosed(c1: char, t: string, c2: char, strip: char -> bool)
    requires strip(c1) && strip(c2)
    requires t != [] && !strip(t[0]) && !strip(t[|t| - 1])
    ensures StripChars([c1] + t + [c2], strip) == t
  {
    var s := [c1] + t + [c2];
    assert s[1..] == t + [c2];
    assert TrimLeft(t + [c2], strip) == t + [c2];
    assert TrimLeft(s, strip) == t + [c2];
    assert (t + [c2])[..|t|] == t;
    assert TrimRight(t, strip) == t;
    assert TrimRight(t + [c2], strip) == t;
  }

  /** Decimal digits of a natural number, as `str(n)` prints them. */
  function NatToString(n: nat): string
    decreases n
  {
    if n < 10 then [DigitChar(n)] else NatToString(n / 10) + [DigitChar(n % 10)]
  }

  function DigitChar(d: nat): char
    requires d < 10
  {
    "0123456789"[d]
  }

  /** `str(n)` for any integer. */
  function IntToString(n: int): string {
    if n < 0 then "-" + NatToString(-n) else NatToString(n)
  }
}
