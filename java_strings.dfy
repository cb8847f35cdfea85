/**
 * The few java.lang.String and Integer operations the client relies on:
 * decimal rendering of numbers, substring search and case-insensitive comparison.
 */
module JavaStrings {

  predicate IsDigit(c: char) {
    '0' <= c <= '9'
  }

  predicate AllDigits(s: string) {
    forall i :: 0 <= i < |s| ==> IsDigit(s[i])
  }

  function DigitChar(d: nat): (c: char)
    requires d < 10
    ensures IsDigit(c)
  {
    ('0' as int + d) as char
  }

  function DigitValue(c: char): nat
    requires IsDigit(c)
  {
    c as int - '0' as int
  }

  /** The decimal digits of a natural number, most significant first, without leading zeros. */
  function Digits(n: nat): (s: string)
    ensures |s| > 0 && AllDigits(s)
    ensures |s| > 1 ==> s[0] != '0'
  {
    if n < 10 then [DigitChar(n)] else Digits(n / 10) + [DigitChar(n % 10)]
  }

  /** Integer.toString / Long.toString: an optional minus sign followed by the digits of the magnitude. */
  function DecimalString(n: int): (s: string)
    ensures |s| > 0
    ensures (s[0] == '-') <==> n < 0
    ensures AllDigits(if n < 0 then s[1..] else s)
  {
    if n < 0 then "-" + Digits(-n) else Digits(n)
  }

  /** Reads a string of decimal digits back as a number. */
  function ParseDigits(s: string): nat
    requires AllDigits(s)
  {
    if s == [] then 0 else ParseDigits(s[..|s| - 1]) * 10 + DigitValue(s[|s| - 1])
  }

  /** Reads back what DecimalString writes. */
  function ParseDecimal(s: string): int
    requires |s| > 0
    requires AllDigits(if s[0] == '-' then s[1..] else s)
  {
    if s[0] == '-' then -(ParseDigits(s[1..]) as int) else ParseDigits(s)
  }

  lemma {:induction false} DigitsRoundTrip(n: nat)
    ensures ParseDigits(Digits(n)) == n
  {
    if n >= 10 {
      var s := Digits(n);
      assert s[..|s| - 1] == Digits(n / 10);
      DigitsRoundTrip(n / 10);
    }
  }

  /** Rendering a number in decimal and reading it back gives the number. */
  lemma DecimalRoundTrip(n: int)
    ensures ParseDecimal(DecimalString(n)) == n
  {
    var s := DecimalString(n);
    if n < 0 {
      assert s[1..] == Digits(-n);
      DigitsRoundTrip(-n);
    } else {
      DigitsRoundTrip(n);
    }
  }

  /** Different numbers have different decimal renderings. */
  lemma DecimalStringInjective(m: int, n: int)
    requires DecimalString(m) == DecimalString(n)
    ensures m == n
  {
    DecimalRoundTrip(m);
    DecimalRoundTrip(n);
  }

  /** `pattern` occurs in `text` starting at index `i`. */
  predicate OccursAt(text: string, pattern: string, i: int) {
    0 <= i && i + |pattern| <= |text| && text[i..i + |pattern|] == pattern
  }

  /** String.contains: `pattern` occurs somewhere in `text` (the empty pattern occurs everywhere). */
  function Contains(text: string, pattern: string): (b: bool)
    ensures b <==> exists i :: OccursAt(text, pattern, i)
    decreases |text|
  {
    if |text| < |pattern| then
      false
    else if pattern <= text then
      assert OccursAt(text, pattern, 0);
      true
    else
      var b := Contains(text[1..], pattern);
      if b then
        var i :| OccursAt(text[1..], pattern, i);
        assert OccursAt(text, pattern, i + 1);
        true
      else
        assert forall i :: OccursAt(text, pattern, i) ==> i > 0 && OccursAt(text[1..], pattern, i - 1);
        false
  }

  /** Character.toUpperCase restricted to ASCII letters. */
  function ToUpperAscii(c: char): char {
    if 'a' <= c <= 'z' then (c as int - 32) as char else c
  }

  /** Character.toLowerCase restricted to ASCII letters. */
  function ToLowerAscii(c: char): char {
    if 'A' <= c <= 'Z' then (c as int + 32) as char else c
  }

  /** The per-character test of String.regionMatches with ignoreCase set. */
  predicate CharEqualsIgnoreCase(a: char, b: char) {
    a == b
    || ToUpperAscii(a) == ToUpperAscii(b)
    || ToLowerAscii(ToUpperAscii(a)) == ToLowerAscii(ToUpperAscii(b))
  }

  /** String.equalsIgnoreCase: equal lengths and every pair of characters equal up to case. */
  predicate EqualsIgnoreCase(s: string, t: string)
    ensures s == t ==> EqualsIgnoreCase(s, t)
    ensures EqualsIgnoreCase(s, t) ==> |s| == |t|
  {
    |s| == |t| && forall i :: 0 <= i < |s| ==> CharEqualsIgnoreCase(s[i], t[i])
  }

  /** The string with every ASCII capital replaced by its small letter. */
  function LowerAscii(s: string): (r: string)
    ensures |r| == |s|
  {
    seq(|s|, i requires 0 <= i < |s| => ToLowerAscii(s[i]))
  }

  lemma CharEqualsIgnoreCaseIffSameLower(a: char, b: char)
    ensures CharEqualsIgnoreCase(a, b) <==> ToLowerAscii(a) == ToLowerAscii(b)
  {
  }

  /** equalsIgnoreCase holds exactly when both strings fold to the same lower-case string. */
  lemma EqualsIgnoreCaseIffSameLower(s: string, t: string)
    ensures EqualsIgnoreCase(s, t) <==> LowerAscii(s) == LowerAscii(t)
  {
    if |s| == |t| {
      forall i | 0 <= i < |s|
        ensures CharEqualsIgnoreCase(s[i], t[i]) <==> LowerAscii(s)[i] == LowerAscii(t)[i]
      {
        CharEqualsIgnoreCaseIffSameLower(s[i], t[i]);
      }
      if LowerAscii(s) != LowerAscii(t) {
        var k :| 0 <= k < |s| && LowerAscii(s)[k] != LowerAscii(t)[k];
      }
    }
  }
}
