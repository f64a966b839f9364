/** String helpers the event formatter relies on: Python's `str.capitalize`
    (restricted to ASCII letters), the 60-character comment snippet, and the
    decimal rendering that an f-string gives an integer. */
module Text {

  /** ASCII upper-casing of one character; every other character is kept. */
  function ToUpper(c: char): (u: char)
    ensures 'a' <= c <= 'z' ==> 'A' <= u <= 'Z' && u as int == c as int - 32
    ensures !('a' <= c <= 'z') ==> u == c
  {
    if 'a' <= c <= 'z' then (c as int - 32) as char else c
  }

  /** ASCII lower-casing of one character; every other character is kept. */
  function ToLower(c: char): (l: char)
    ensures 'A' <= c <= 'Z' ==> 'a' <= l <= 'z' && l as int == c as int + 32
    ensures !('A' <= c <= 'Z') ==> l == c
  {
    if 'A' <= c <= 'Z' then (c as int + 32) as char else c
  }

  predicate IsUpperLetter(c: char) { 'A' <= c <= 'Z' }

  /** Lower-cases every character of `s`. */
  function LowerAll(s: string): (r: string)
    ensures |r| == |s|
    ensures forall i :: 0 <= i < |s| ==> r[i] == ToLower(s[i])
  {
    if s == [] then [] else [ToLower(s[0])] + LowerAll(s[1..])
  }

  /** Python's `str.capitalize`: the first character upper-cased and the
      remainder lower-cased. */
  function Capitalize(s: string): (r: string)
    ensures |r| == |s|
    ensures |s| > 0 ==> r[0] == ToUpper(s[0])
    ensures forall i :: 1 <= i < |s| ==> r[i] == ToLower(s[i]) && !IsUpperLetter(r[i])
  {
    if s == [] then [] else [ToUpper(s[0])] + LowerAll(s[1..])
  }

  /** Capitalising twice is capitalising once. */
  lemma CapitalizeIdempotent(s: string)
    ensures Capitalize(Capitalize(s)) == Capitalize(s)
  {
    var c, cc := Capitalize(s), Capitalize(Capitalize(s));
    forall i | 0 <= i < |s| ensures cc[i] == c[i] {
      if i > 0 {
        assert cc[i] == ToLower(c[i]);
      }
    }
  }

  /** Longest comment body shown in full. */
  const SnippetLimit: nat := 60

  /** The single ellipsis character (U+2026) marking a cut comment. */
  const Ellipsis: char := '\U{2026}'

  /** The comment snippet: the body itself when it is at most 60 characters
      long, otherwise its first 60 characters followed by one ellipsis. */
  function Snippet(body: string): (r: string)
    ensures |body| <= SnippetLimit ==> r == body
    ensures |body| > SnippetLimit ==>
      |r| == SnippetLimit + 1 && r[..SnippetLimit] == body[..SnippetLimit] && r[SnippetLimit] == Ellipsis
    ensures |r| <= SnippetLimit + 1
  {
    if |body| > SnippetLimit then body[..SnippetLimit] + [Ellipsis] else body
  }

  /** The snippet always begins with the body's first min(60, |body|) characters. */
  lemma SnippetKeepsPrefix(body: string)
    ensures var k := if |body| < SnippetLimit then |body| else SnippetLimit;
      |Snippet(body)| >= k && Snippet(body)[..k] == body[..k]
  {
  }

  predicate IsDigit(c: char) { '0' <= c <= '9' }

  function DigitChar(d: nat): (c: char)
    requires d < 10
    ensures IsDigit(c) && c as int - '0' as int == d
  {
    ('0' as int + d) as char
  }

  /** Decimal digits of `n`, most significant first, with no leading zero. */
  function NatDigits(n: nat): (s: string)
    ensures |s| > 0
    ensures forall i :: 0 <= i < |s| ==> IsDigit(s[i])
    ensures |s| > 1 ==> s[0] != '0'
    decreases n
  {
    if n < 10 then [DigitChar(n)] else NatDigits(n / 10) + [DigitChar(n % 10)]
  }

  /** `str(i)` for a Python integer: a minus sign before the digits of a
      negative value. */
  function IntToDecimal(i: int): (s: string)
    ensures |s| > 0
    ensures i >= 0 ==> IsDigit(s[0])
    ensures i < 0 ==> s[0] == '-'
  {
    if i < 0 then "-" + NatDigits(-i) else NatDigits(i)
  }

  /** Value of a string of decimal digits (the reading direction, used to
      show that the rendering loses nothing). */
  function DigitsValue(s: string): int
    requires forall i :: 0 <= i < |s| ==> IsDigit(s[i])
  {
    if s == [] then 0 else 10 * DigitsValue(s[..|s| - 1]) + (s[|s| - 1] as int - '0' as int)
  }

  function DecimalValue(s: string): int
    requires |s| > 0
    requires s[0] == '-' ==> forall i :: 1 <= i < |s| ==> IsDigit(s[i])
    requires s[0] != '-' ==> forall i :: 0 <= i < |s| ==> IsDigit(s[i])
  {
    if s[0] == '-' then -DigitsValue(s[1..]) else DigitsValue(s)
  }

  lemma {:induction false} NatDigitsRoundTrip(n: nat)
    ensures DigitsValue(NatDigits(n)) == n
    decreases n
  {
    if n >= 10 {
      NatDigitsRoundTrip(n / 10);
      var s := NatDigits(n);
      assert s[..|s| - 1] == NatDigits(n / 10);
    }
  }

  /** Reading back the rendering of any integer gives that integer. */
  lemma IntToDecimalRoundTrip(i: int)
    ensures DecimalValue(IntToDecimal(i)) == i
  {
    if i < 0 {
      NatDigitsRoundTrip(-i);
      assert IntToDecimal(i)[1..] == NatDigits(-i);
    } else {
      NatDigitsRoundTrip(i);
    }
  }

  /** Different integers render differently. */
  lemma IntToDecimalInjective(i: int, j: int)
    requires IntToDecimal(i) == IntToDecimal(j)
    ensures i == j
  {
    IntToDecimalRoundTrip(i);
    IntToDecimalRoundTrip(j);
  }
}
