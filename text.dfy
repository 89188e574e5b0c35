/** The string primitives of Python that the converter relies on:
    `str.isspace` (also what the regex class `\s` matches), `str.strip`,
    `str.lower`, `str.isdigit` and `int` on a digit string. Digits and case
    folding are restricted to ASCII. */
module Text {

  /** `str.isspace()`: the characters `str.strip()` removes and `\s` matches. */
  predicate IsSpace(c: char) {
    ('\t' <= c <= '\r') || ('\U{1C}' <= c <= '\U{1F}') || c == ' '
    || c == '\U{85}' || c == '\U{A0}' || c == '\U{1680}'
    || ('\U{2000}' <= c <= '\U{200A}') || c == '\U{2028}' || c == '\U{2029}'
    || c == '\U{202F}' || c == '\U{205F}' || c == '\U{3000}'
  }

  ghost predicate AllSpace(s: string) {
    forall k :: 0 <= k < |s| ==> IsSpace(s[k])
  }

  /** Removes leading whitespace: the result is the suffix of `s` that starts
      at its first non-space character. */
  function StripLeading(s: string): (r: string)
    ensures |r| <= |s| && r == s[|s| - |r|..]
    ensures forall k :: 0 <= k < |s| - |r| ==> IsSpace(s[k])
    ensures r != [] ==> !IsSpace(r[0])
  {
    if s != [] && IsSpace(s[0]) then StripLeading(s[1..]) else s
  }

  /** Removes trailing whitespace: the result is the prefix of `s` that ends
      at its last non-space character. */
  function StripTrailing(s: string): (r: string)
    ensures |r| <= |s| && r == s[..|r|]
    ensures forall k :: |r| <= k < |s| ==> IsSpace(s[k])
    ensures r != [] ==> !IsSpace(r[|r| - 1])
  {
    if s != [] && IsSpace(s[|s| - 1]) then StripTrailing(s[..|s| - 1]) else s
  }

  /** `str.strip()` */
  function Strip(s: string): string {
    StripTrailing(StripLeading(s))
  }

  lemma {:induction false} StripLeadingPadded(a: string, x: string)
    requires AllSpace(a)
    requires x != [] ==> !IsSpace(x[0])
    ensures StripLeading(a + x) == x
  {
    if a == [] {
      assert a + x == x;
    } else {
      assert (a + x)[1..] == a[1..] + x;
      StripLeadingPadded(a[1..], x);
    }
  }

  lemma {:induction false} StripTrailingPadded(x: string, b: string)
    requires AllSpace(b)
    requires x != [] ==> !IsSpace(x[|x| - 1])
    ensures StripTrailing(x + b) == x
  {
    if b == [] {
      assert x + b == x;
    } else {
      assert (x + b)[..|x + b| - 1] == x + b[..|b| - 1];
      StripTrailingPadded(x, b[..|b| - 1]);
    }
  }

  /** Strip cuts away exactly the whitespace padding around a core whose
      first and last characters are not whitespace. */
  lemma StripPadded(a: string, d: string, b: string)
    requires AllSpace(a) && AllSpace(b)
    requires d != [] && !IsSpace(d[0]) && !IsSpace(d[|d| - 1])
    ensures Strip(a + d + b) == d
  {
    assert a + d + b == a + (d + b);
    StripLeadingPadded(a, d + b);
    StripTrailingPadded(d, b);
  }

  /** `Strip(s)` is `s` without a whitespace prefix `a` and a whitespace suffix `b`. */
  lemma StripParts(s: string) returns (a: string, b: string)
    ensures s == a + Strip(s) + b && AllSpace(a) && AllSpace(b)
  {
    var l := StripLeading(s);
    a := s[..|s| - |l|];
    var t := StripTrailing(l);
    b := l[|t|..];
    assert Strip(s) == t;
    SpaceSlice(s, 0, |s| - |l|);
    SpaceSlice(l, |t|, |l|);
    JoinParts(s, a, l, t, b);
  }

  lemma SpaceSlice(s: string, i: nat, j: nat)
    requires i <= j <= |s| && forall k :: i <= k < j ==> IsSpace(s[k])
    ensures AllSpace(s[i..j])
  {
    forall k | 0 <= k < j - i ensures IsSpace(s[i..j][k]) {
      assert s[i..j][k] == s[i + k];
    }
  }

  lemma JoinParts(s: string, a: string, l: string, t: string, b: string)
    requires |l| <= |s| && a == s[..|s| - |l|] && l == s[|s| - |l|..]
    requires |t| <= |l| && t == l[..|t|] && b == l[|t|..]
    ensures s == a + t + b
  {
    assert l == t + b;
    assert s == a + l;
  }

  /** Every character of `s` that is not whitespace survives in `Strip(s)`. */
  lemma StripKeeps(s: string, k: nat)
    requires k < |s| && !IsSpace(s[k])
    ensures exists j :: 0 <= j < |Strip(s)| && Strip(s)[j] == s[k]
  {
    var l := StripLeading(s);
    var i := |s| - |l|;
    assert i <= k;
    assert l[k - i] == s[k];
    var t := StripTrailing(l);
    assert k - i < |t|;
    assert t[k - i] == s[k];
    assert Strip(s) == t;
  }

  predicate IsDigit(c: char) {
    '0' <= c <= '9'
  }

  /** `str.isdigit()` (ASCII digits): non-empty and nothing but digits. */
  predicate AllDigits(s: string) {
    |s| > 0 && forall k :: 0 <= k < |s| ==> IsDigit(s[k])
  }

  function DigitValue(c: char): (d: nat)
    requires IsDigit(c)
    ensures d < 10
  {
    (c as int) - ('0' as int)
  }

  function DigitChar(d: nat): (c: char)
    requires d < 10
    ensures IsDigit(c) && DigitValue(c) == d
  {
    ('0' as int + d) as char
  }

  /** `int(s)` for a string of ASCII digits (leading zeros allowed). */
  function Value(s: string): nat
    requires forall k :: 0 <= k < |s| ==> IsDigit(s[k])
  {
    if s == [] then 0 else Value(s[..|s| - 1]) * 10 + DigitValue(s[|s| - 1])
  }

  /** `str(n)`: the decimal digits of `n`, without leading zeros. */
  function Digits(n: nat): (s: string)
    ensures AllDigits(s)
    ensures s[0] != '0' || n == 0
  {
    if n < 10 then [DigitChar(n)] else Digits(n / 10) + [DigitChar(n % 10)]
  }

  lemma {:induction false} ValueOfDigits(n: nat)
    ensures Value(Digits(n)) == n
  {
    if n >= 10 {
      var s := Digits(n);
      assert s[..|s| - 1] == Digits(n / 10);
      ValueOfDigits(n / 10);
    }
  }

  /** Leading zeros do not change the value. */
  lemma {:induction false} ValueLeadingZeros(z: string, s: string)
    requires forall k :: 0 <= k < |z| ==> z[k] == '0'
    requires forall k :: 0 <= k < |s| ==> IsDigit(s[k])
    ensures Value(z + s) == Value(s)
  {
    if s == [] {
      ZerosValue(z);
      assert z + s == z;
    } else {
      var s' := s[..|s| - 1];
      assert (z + s)[..|z + s| - 1] == z + s';
      ValueLeadingZeros(z, s');
    }
  }

  lemma {:induction false} ZerosValue(z: string)
    requires forall k :: 0 <= k < |z| ==> z[k] == '0'
    ensures Value(z) == 0
  {
    if z != [] {
      ZerosValue(z[..|z| - 1]);
    }
  }

  /** `str.lower()` on one character (ASCII letters only). */
  function LowerChar(c: char): char {
    if 'A' <= c <= 'Z' then (c as int + 32) as char else c
  }

  /** `str.lower()`: same length, each character lower-cased. */
  function Lower(s: string): (r: string)
    ensures |r| == |s|
    ensures forall k :: 0 <= k < |s| ==> r[k] == LowerChar(s[k])
  {
    seq(|s|, k requires 0 <= k < |s| => LowerChar(s[k]))
  }

  /** `s.endswith(suffix)`. */
  predicate EndsWith(s: string, suffix: string) {
    |suffix| <= |s| && s[|s| - |suffix|..] == suffix
  }
}
