/**
 * The pieces of Go's `strings` and `strconv` behaviour the program depends on:
 * splitting a line into whitespace-separated fields (`strings.Fields`) and
 * writing a natural number in decimal, optionally zero-padded (as `%v` and
 * the time layout do).
 */
module Text {

  /** Go's `unicode.IsSpace`, the separator test of `strings.Fields`. */
  predicate IsSpace(c: char) {
    || c == '\t' || c == '\n' || c == '\U{000B}' || c == '\U{000C}' || c == '\r' || c == ' '
    || c == '\U{0085}' || c == '\U{00A0}' || c == '\U{1680}'
    || ('\U{2000}' <= c <= '\U{200A}')
    || c == '\U{2028}' || c == '\U{2029}' || c == '\U{202F}' || c == '\U{205F}' || c == '\U{3000}'
  }

  /** No character of `s` is a separator. */
  predicate NoSpace(s: string) {
    forall i :: 0 <= i < |s| ==> !IsSpace(s[i])
  }

  /** A field: a non-empty run of non-separator characters. */
  predicate IsWord(s: string) {
    |s| > 0 && NoSpace(s)
  }

  lemma NoSpaceConcat(a: string, b: string)
    requires NoSpace(a) && NoSpace(b)
    ensures NoSpace(a + b)
  {
    forall i | 0 <= i < |a + b| ensures !IsSpace((a + b)[i]) {
      if i >= |a| { assert (a + b)[i] == b[i - |a|]; }
    }
  }

  /** Length of the longest separator-free prefix of `s`. */
  function WordLen(s: string): (n: nat)
    ensures n <= |s|
    ensures NoSpace(s[..n])
    ensures n < |s| ==> IsSpace(s[n])
  {
    if s == [] || IsSpace(s[0]) then 0
    else
      var m := WordLen(s[1..]);
      assert s[..m + 1] == [s[0]] + s[1..][..m];
      m + 1
  }

  /** `strings.Fields`: the maximal separator-free runs of `s`, in order. */
  function Fields(s: string): (fs: seq<string>)
    ensures forall k :: 0 <= k < |fs| ==> IsWord(fs[k])
    decreases |s|
  {
    if s == [] then []
    else if IsSpace(s[0]) then Fields(s[1..])
    else
      var n := WordLen(s);
      [s[..n]] + Fields(s[n..])
  }

  /** A word followed by a blank is split off as the first field. */
  lemma {:induction false} FieldsAfterWord(w: string, rest: string)
    requires IsWord(w)
    ensures Fields(w + " " + rest) == [w] + Fields(rest)
  {
    var s := w + " " + rest;
    var n := WordLen(s);
    assert s[|w|] == ' ';
    assert s[..|w|] == w;
    assert n == |w|;
    assert s[n..][1..] == rest;
  }

  /** Two words, each followed by a blank, are the first two fields. */
  lemma TwoFields(a: string, b: string, rest: string)
    requires IsWord(a) && IsWord(b)
    ensures Fields(a + " " + b + " " + rest) == [a, b] + Fields(rest)
  {
    assert a + " " + b + " " + rest == a + " " + (b + " " + rest);
    FieldsAfterWord(a, b + " " + rest);
    FieldsAfterWord(b, rest);
  }

  predicate IsDigit(c: char) {
    '0' <= c <= '9'
  }

  predicate IsDigits(s: string) {
    forall i :: 0 <= i < |s| ==> IsDigit(s[i])
  }

  function DigitChar(d: nat): (c: char)
    requires d < 10
    ensures IsDigit(c) && c as int - '0' as int == d
  {
    (d + '0' as int) as char
  }

  /** Decimal rendering of `n` with no leading zeros (Go's `%v` on an integer). */
  function NatText(n: nat): (s: string)
    ensures |s| > 0 && IsDigits(s)
  {
    if n < 10 then [DigitChar(n)] else NatText(n / 10) + [DigitChar(n % 10)]
  }

  /** The number a string of decimal digits denotes. */
  function DigitsValue(s: string): nat
    requires IsDigits(s)
  {
    if s == [] then 0
    else DigitsValue(s[..|s| - 1]) * 10 + (s[|s| - 1] as int - '0' as int)
  }

  /** Reading back the decimal rendering gives the number. */
  lemma {:induction false} NatTextRoundTrip(n: nat)
    ensures DigitsValue(NatText(n)) == n
  {
    if n >= 10 {
      var s := NatText(n);
      assert s[..|s| - 1] == NatText(n / 10);
      NatTextRoundTrip(n / 10);
    }
  }

  /** Decimal rendering zero-padded on the left to at least `width` digits. */
  function Pad(n: nat, width: nat): (s: string)
    ensures |s| >= width && IsWord(s) && IsDigits(s)
  {
    var d := NatText(n);
    var s := if |d| >= width then d else seq(width - |d|, _ => '0') + d;
    assert IsDigits(s);
    s
  }
}
