/**
 The two pieces of JavaScript string behaviour the core relies on:
 `String.prototype.trim` and the decimal rendering of a non-negative integer
 inside a template literal.
 */
module Text {

  /** The code points `trim` strips: the WhiteSpace and LineTerminator
      productions of ECMA-262 (10th edition, sections 11.2 and 11.3), with the
      Unicode "Zs" category written out. */
  predicate IsJsSpace(c: char) {
    || c == '\t' || c == '\n' || c == '\U{000B}' || c == '\U{000C}' || c == '\r'
    || c == ' ' || c == '\U{00A0}' || c == '\U{1680}'
    || ('\U{2000}' <= c <= '\U{200A}')
    || c == '\U{2028}' || c == '\U{2029}' || c == '\U{202F}' || c == '\U{205F}'
    || c == '\U{3000}' || c == '\U{FEFF}'
  }

  predicate AllSpace(s: string) {
    forall i :: 0 <= i < |s| ==> IsJsSpace(s[i])
  }
  /** The number of white-space characters `s` starts with. */
  function LeadingSpace(s: string): (k: nat)
    ensures k <= |s| && AllSpace(s[..k])
    ensures k < |s| ==> !IsJsSpace(s[k])
  {
    if s != [] && IsJsSpace(s[0]) then 1 + LeadingSpace(s[1..]) else 0
  }
  /** The number of white-space characters `s` ends with. */
  function TrailingSpace(s: string): (m: nat)
    ensures m <= |s| && AllSpace(s[|s| - m..])
    ensures m < |s| ==> !IsJsSpace(s[|s| - m - 1])
  {
    if s != [] && IsJsSpace(s[|s| - 1]) then 1 + TrailingSpace(s[..|s| - 1]) else 0
  }
  /** `s.trim()`: the slice of `s` left once white space is dropped from both
      ends. It is empty exactly when `s` is blank. */
  function Trim(s: string): (r: string)
    ensures var k := LeadingSpace(s);
      && k + |r| <= |s|
      && r == s[k..k + |r|]
      && AllSpace(s[..k])
      && AllSpace(s[k + |r|..])
    ensures r == [] || (!IsJsSpace(r[0]) && !IsJsSpace(r[|r| - 1]))
    ensures r == [] <==> AllSpace(s)
  {
    var k := LeadingSpace(s);
    var m := TrailingSpace(s[k..]);
    TrimSlice(s, k, m);
    s[k..|s| - m]
  }
  lemma TrimSlice(s: string, k: nat, m: nat)
    requires k <= |s| && AllSpace(s[..k]) && (k < |s| ==> !IsJsSpace(s[k]))
    requires m <= |s| - k && AllSpace(s[k..][|s| - k - m..])
    requires m < |s| - k ==> !IsJsSpace(s[k..][|s| - k - m - 1])
    ensures k <= |s| - m
    ensures AllSpace(s[|s| - m..])
    ensures k < |s| - m ==> !IsJsSpace(s[k]) && !IsJsSpace(s[|s| - m - 1])
    ensures k == |s| - m <==> AllSpace(s)
  {
  }

  /** Trimming is idempotent. */
  lemma TrimIdempotent(s: string)
    ensures Trim(Trim(s)) == Trim(s)
  {
  }

  predicate IsDigit(c: char) {
    '0' <= c <= '9'
  }

  predicate AllDigits(s: string) {
    forall i :: 0 <= i < |s| ==> IsDigit(s[i])
  }

  function DigitChar(d: nat): (c: char)
    requires d < 10
    ensures IsDigit(c) && c as int - '0' as int == d
  {
    ('0' as int + d) as char
  }

  /** The decimal text of `n` as `${n}` renders it: at least one digit and no
      leading zero. */
  function NatToString(n: nat): (s: string)
    ensures |s| >= 1 && AllDigits(s)
    ensures s[0] == '0' ==> n == 0 && |s| == 1
    decreases n
  {
    if n < 10 then [DigitChar(n)] else NatToString(n / 10) + [DigitChar(n % 10)]
  }

  /** The value of a string of decimal digits. */
  function DecimalValue(s: string): nat
    requires AllDigits(s)
  {
    if s == [] then 0 else 10 * DecimalValue(s[..|s| - 1]) + (s[|s| - 1] as int - '0' as int)
  }

  /** Reading back the rendered digits gives the number again; so the
      rendering is injective. */
  lemma {:induction false} DecimalRoundTrip(n: nat)
    ensures DecimalValue(NatToString(n)) == n
    decreases n
  {
    var s := NatToString(n);
    if n >= 10 {
      DecimalRoundTrip(n / 10);
      assert s[..|s| - 1] == NatToString(n / 10);
    }
  }
}
