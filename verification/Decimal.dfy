/** Decimal numerals, as the standard formatter writes them and the integer parser reads them. */
module Decimal {
  import opened Prelude

  predicate IsDigit(c: char) { '0' <= c <= '9' }

  predicate AllDigits(s: string) { forall i :: 0 <= i < |s| ==> IsDigit(s[i]) }

  function Digit(d: nat): char
    requires d < 10
  {
    '0' + d as char
  }

  function DigitValue(c: char): nat
    requires IsDigit(c)
  {
    (c - '0') as nat
  }

  function Numeral(n: nat): (s: string)
    ensures |s| > 0 && AllDigits(s)
  {
    if n < 10 then [Digit(n)] else Numeral(n / 10) + [Digit(n % 10)]
  }

  /** The value of a string of digits, most significant first. */
  function Value(s: string): nat
    requires AllDigits(s)
  {
    if s == [] then 0 else 10 * Value(s[..|s| - 1]) + DigitValue(s[|s| - 1])
  }

  lemma {:induction false} NumeralRoundTrip(n: nat)
    ensures Value(Numeral(n)) == n
  {
    if n >= 10 {
      NumeralRoundTrip(n / 10);
      assert Numeral(n)[..|Numeral(n)| - 1] == Numeral(n / 10);
    } else {
      assert Numeral(n)[..0] == [];
    }
  }

  const DIGITS := "0123456789"

  /** Both ways the most significant digit comes first and the digits are the usual ones. */
  lemma DigitsInOrder(n: nat, s: string, d: nat)
    requires d < 10 && AllDigits(s)
    ensures Numeral(d) == [DIGITS[d]]
    ensures n > 0 ==> Numeral(10 * n + d) == Numeral(n) + [DIGITS[d]]
    ensures AllDigits(s + [DIGITS[d]]) && Value(s + [DIGITS[d]]) == 10 * Value(s) + d
  {
    assert Digit(d) == DIGITS[d];
    assert (10 * n + d) / 10 == n && (10 * n + d) % 10 == d;
    assert (s + [DIGITS[d]])[..|s|] == s;
  }

  const I64_MAX: int := 0x7FFF_FFFF_FFFF_FFFF

  /** Parsing a signed 64-bit integer: an optional sign, digits, and a value in range. */
  function ParseI64(s: string): Option<int> {
    var negative := s != [] && s[0] == '-';
    var digits := if s != [] && s[0] in {'+', '-'} then s[1..] else s;
    if digits == [] || !AllDigits(digits) then None
    else
      var v: int := if negative then 0 - Value(digits) else Value(digits);
      if -I64_MAX - 1 <= v <= I64_MAX then Some(v) else None
  }

  /** Either sign is read, and a number out of range is not. */
  lemma ParseSigned(n: nat)
    ensures ParseI64("+" + Numeral(n)) == if n <= I64_MAX then Some(n) else None
    ensures ParseI64("-" + Numeral(n)) == if n <= I64_MAX + 1 then Some(0 - n) else None
    ensures ParseI64("") == ParseI64("+") == ParseI64("-") == None
  {
    NumeralRoundTrip(n);
    hide Numeral, Value;
    assert ("+" + Numeral(n))[1..] == Numeral(n) && ("-" + Numeral(n))[1..] == Numeral(n);
  }

  lemma ParseNumeral(n: nat)
    requires n <= I64_MAX
    ensures ParseI64(Numeral(n)) == Some(n)
  {
    NumeralRoundTrip(n);
    assert IsDigit(Numeral(n)[0]);
  }
}
