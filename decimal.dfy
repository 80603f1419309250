/** Decimal text of integers, as JavaScript's Number::toString prints an
    integer-valued number below 10^21, and the matching parser. */
module Decimal {
  import opened Wrappers

  predicate IsDigit(c: char) {
    '0' <= c <= '9'
  }

  function DigitChar(d: nat): (c: char)
    requires d < 10
    ensures IsDigit(c) && c as int - '0' as int == d
  {
    ('0' as int + d) as char
  }

  function DigitValue(c: char): (d: nat)
    requires IsDigit(c)
    ensures d < 10
  {
    c as int - '0' as int
  }

  predicate AllDigits(s: string) {
    forall i :: 0 <= i < |s| ==> IsDigit(s[i])
  }

  /** The shortest decimal text of `n`: at least one digit, no leading zero. */
  function Digits(n: nat): (s: string)
    ensures 1 <= |s| && AllDigits(s)
    ensures |s| > 1 ==> s[0] != '0'
    ensures n == 0 <==> s == "0"
    decreases n
  {
    if n < 10 then [DigitChar(n)] else Digits(n / 10) + [DigitChar(n % 10)]
  }

  /** The value of a string of decimal digits, most significant first. */
  function DigitsValue(s: string): nat
    requires AllDigits(s)
    decreases |s|
  {
    if s == [] then 0 else DigitsValue(s[..|s| - 1]) * 10 + DigitValue(s[|s| - 1])
  }

  /** `n.toString()` for an integer-valued JavaScript number with |n| < 10^21:
      a minus sign exactly for negative numbers, then digits. */
  function DecimalString(n: int): (s: string)
    ensures 1 <= |s| && (s[0] == '-' <==> n < 0)
  {
    if n < 0 then "-" + Digits(-n) else Digits(n)
  }

  /** Reads back what `DecimalString` prints: an optional minus sign, then digits. */
  function ParseDecimal(s: string): Option<int> {
    if 2 <= |s| && s[0] == '-' && AllDigits(s[1..]) then Some(-(DigitsValue(s[1..]) as int))
    else if 1 <= |s| && AllDigits(s) then Some(DigitsValue(s))
    else None
  }

  lemma {:induction false} DigitsRoundTrip(n: nat)
    ensures DigitsValue(Digits(n)) == n
    decreases n
  {
    if n >= 10 {
      DigitsRoundTrip(n / 10);
      var s := Digits(n);
      assert s[..|s| - 1] == Digits(n / 10);
    }
  }

  /** Printing and parsing back gives the number: the text names exactly one integer. */
  lemma DecimalRoundTrip(n: int)
    ensures ParseDecimal(DecimalString(n)) == Some(n)
  {
    if n < 0 {
      ParseNegative(-n);
    } else {
      ParseNonNegative(n);
    }
  }

  lemma ParseNegative(m: nat)
    ensures ParseDecimal("-" + Digits(m)) == Some(-(m as int))
  {
    var d := Digits(m);
    var s := "-" + d;
    assert s[1..] == d && s[0] == '-';
    DigitsRoundTrip(m);
  }

  lemma ParseNonNegative(n: nat)
    ensures ParseDecimal(Digits(n)) == Some(n)
  {
    var d := Digits(n);
    assert IsDigit(d[0]);
    DigitsRoundTrip(n);
  }

  lemma DigitsTimesTen(n: nat)
    requires n >= 1
    ensures Digits(n * 10) == Digits(n) + "0"
  {
    assert (n * 10) / 10 == n && (n * 10) % 10 == 0;
  }

  function Pow10(k: nat): (p: nat)
    ensures p >= 1
  {
    if k == 0 then 1 else Pow10(k - 1) * 10
  }

  function Zeros(k: nat): (z: string)
    ensures |z| == k
  {
    if k == 0 then "" else Zeros(k - 1) + "0"
  }

  lemma MulStep(n: nat, k: nat)
    requires n >= 1 && k >= 1
    ensures n * Pow10(k) == n * Pow10(k - 1) * 10
    ensures n * Pow10(k - 1) >= 1
  {
    var p := Pow10(k - 1);
    assert n * p >= 1 * p by {
      assert (n - 1) * p >= 0;
    }
  }

  /** Multiplying a nonzero number by 10^k appends exactly k zero digits. */
  lemma {:induction false} DigitsTimesPow10(n: nat, k: nat)
    requires n >= 1
    ensures Digits(n * Pow10(k)) == Digits(n) + Zeros(k)
  {
    if k > 0 {
      DigitsTimesPow10(n, k - 1);
      MulStep(n, k);
      DigitsTimesTen(n * Pow10(k - 1));
      assert Digits(n) + Zeros(k - 1) + "0" == Digits(n) + Zeros(k);
    }
  }

  /** Multiplying a nonzero number by 10^6 appends exactly six zero digits. */
  lemma DigitsTimesMillion(n: nat)
    requires n >= 1
    ensures Digits(n * 1000000) == Digits(n) + "000000"
  {
    DigitsTimesPow10(n, 6);
    assert Pow10(6) == 1000000;
    assert Zeros(6) == "000000";
  }
}
