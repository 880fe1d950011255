/**
 * Decimal text of an Integer, as Ruby's `Integer#to_s` and string
 * interpolation `"#{n}"` produce it: an optional minus sign followed by
 * the digits, most significant first, without leading zeros.
 */
module Numerals {

  function DigitChar(d: nat): (c: char)
    requires d < 10
    ensures '0' <= c <= '9'
  {
    "0123456789"[d]
  }

  function DigitValue(c: char): nat
  {
    if '0' <= c <= '9' then (c as int - '0' as int) as nat else 0
  }

  /** Digits of a natural number. */
  function Digits(n: nat): (s: string)
    ensures |s| >= 1
    ensures forall i :: 0 <= i < |s| ==> '0' <= s[i] <= '9'
    ensures n >= 10 ==> |s| >= 2
    decreases n
  {
    if n < 10 then [DigitChar(n)] else Digits(n / 10) + [DigitChar(n % 10)]
  }

  function Decimal(n: int): (s: string)
    ensures |s| >= 1
    ensures s[0] == '-' <==> n < 0
    ensures forall j :: (if n < 0 then 1 else 0) <= j < |s| ==> '0' <= s[j] <= '9'
  {
    if n < 0 then "-" + Digits(-n) else Digits(n)
  }

  /** Reads back a string of digits; the inverse of `Digits`. */
  function ParseDigits(s: string): nat
  {
    if s == [] then 0 else ParseDigits(s[..|s| - 1]) * 10 + DigitValue(s[|s| - 1])
  }

  /** Reads back the text `Decimal` produces. */
  function ParseDecimal(s: string): int
  {
    if |s| > 0 && s[0] == '-' then -(ParseDigits(s[1..]) as int) else ParseDigits(s)
  }

  lemma {:induction false} DigitsRoundTrip(n: nat)
    ensures ParseDigits(Digits(n)) == n
    decreases n
  {
    if n >= 10 {
      var s := Digits(n);
      assert s[..|s| - 1] == Digits(n / 10);
      DigitsRoundTrip(n / 10);
      assert DigitValue(DigitChar(n % 10)) == n % 10;
    } else {
      assert DigitValue(DigitChar(n)) == n;
    }
  }

  /** A minus sign in front of digits reads back as the negated number. */
  lemma ParseSigned(t: string)
    requires |t| >= 1 && t[0] != '-'
    ensures ParseDecimal("-" + t) == -(ParseDigits(t) as int)
    ensures ParseDecimal(t) == ParseDigits(t)
  {
    assert ("-" + t)[1..] == t;
  }

  lemma DecimalRoundTrip(n: int)
    ensures ParseDecimal(Decimal(n)) == n
  {
    var t := Digits(if n < 0 then -n else n);
    assert '0' <= t[0] <= '9';
    ParseSigned(t);
    DigitsRoundTrip(if n < 0 then -n else n);
  }

  /** Different integers have different decimal texts. */
  lemma DecimalInjective(a: int, b: int)
    requires Decimal(a) == Decimal(b)
    ensures a == b
  {
    DecimalRoundTrip(a);
    DecimalRoundTrip(b);
  }
}
