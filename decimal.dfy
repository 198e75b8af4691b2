/**
 * Python's built-in `int()` applied to a text token, as `add_car` applies it to
 * car distances, and its inverse `str()` on integers.
 *
 * Accepted text: an optional `+` or `-` followed by one or more ASCII decimal
 * digits (leading zeros allowed). Anything else makes `int()` raise ValueError,
 * which the model writes as `None`.
 */
module Decimal {
  import opened Wrappers

  predicate IsDigit(ch: char) {
    '0' <= ch <= '9'
  }

  predicate AllDigits(s: string) {
    forall i :: 0 <= i < |s| ==> IsDigit(s[i])
  }

  function DigitValue(ch: char): nat
    requires IsDigit(ch)
  {
    ch as int - '0' as int
  }

  function DigitChar(d: nat): (ch: char)
    requires d < 10
    ensures IsDigit(ch) && DigitValue(ch) == d
  {
    ('0' as int + d) as char
  }

  /** The value of a run of digits, most significant first. */
  function DigitsValue(s: string): nat
    requires AllDigits(s)
  {
    if s == [] then 0 else 10 * DigitsValue(s[..|s| - 1]) + DigitValue(s[|s| - 1])
  }

  /** `int(text)`: `None` where Python raises ValueError. */
  function ParseInt(text: string): Option<int> {
    if |text| > 0 && (text[0] == '+' || text[0] == '-') then
      var digits := text[1..];
      if digits != [] && AllDigits(digits) then
        var magnitude: int := DigitsValue(digits);
        Some(if text[0] == '-' then -magnitude else magnitude)
      else
        None
    else if text != [] && AllDigits(text) then
      Some(DigitsValue(text))
    else
      None
  }

  /** The decimal digits of a natural number, without leading zeros. */
  function DigitsText(n: nat): (s: string)
    ensures s != [] && AllDigits(s)
  {
    if n < 10 then [DigitChar(n)] else DigitsText(n / 10) + [DigitChar(n % 10)]
  }

  /** `str(n)` for an integer `n`. */
  function IntText(n: int): string {
    if n < 0 then "-" + DigitsText(-n) else DigitsText(n)
  }

  lemma {:induction false} DigitsRoundTrip(n: nat)
    ensures DigitsValue(DigitsText(n)) == n
  {
    var s := DigitsText(n);
    if n >= 10 {
      DigitsRoundTrip(n / 10);
      assert s[..|s| - 1] == DigitsText(n / 10);
    }
  }

  /** `int(str(n)) == n` for every integer: the parser reads back what `str` writes. */
  lemma ParseIntRoundTrip(n: int)
    ensures ParseInt(IntText(n)) == Some(n)
  {
    if n < 0 {
      DigitsRoundTrip(-n);
      assert IntText(n)[1..] == DigitsText(-n);
    } else {
      DigitsRoundTrip(n);
    }
  }

  /** A token that contains a character other than a digit after its first position is refused. */
  lemma ParseIntRejectsNonDigit(text: string, i: nat)
    requires 0 < i < |text| && !IsDigit(text[i])
    ensures ParseInt(text) == None
  {
    if text[0] == '+' || text[0] == '-' {
      assert !IsDigit(text[1..][i - 1]);
    }
  }
}
