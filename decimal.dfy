/** Decimal text of integers: what `n.toString()` and React's rendering of
    a number produce, and what `Number(s)` makes of such text. */
module Decimal {
  import opened Types

  predicate IsDigit(c: char) { '0' <= c <= '9' }

  function DigitChar(d: nat): (c: char)
    requires d < 10
    ensures IsDigit(c)
  {
    "0123456789"[d]
  }

  function DigitValue(c: char): (d: nat)
    requires IsDigit(c)
    ensures d < 10
  {
    (c as int - '0' as int) as nat
  }

  lemma DigitRoundTrip(d: nat)
    requires d < 10
    ensures DigitValue(DigitChar(d)) == d
  {
  }

  /** The digits of a natural number, most significant first, without
      leading zeros. */
  function Digits(n: nat): (s: string)
    ensures |s| >= 1 && forall i :: 0 <= i < |s| ==> IsDigit(s[i])
    ensures n >= 10 ==> s[0] != '0'
  {
    if n < 10 then [DigitChar(n)] else Digits(n / 10) + [DigitChar(n % 10)]
  }

  /** `n.toString()` for an integer. */
  function DecimalString(n: int): (s: string)
    ensures |s| >= 1
    ensures n >= 0 <==> IsDigit(s[0])
  {
    if n < 0 then "-" + Digits(-n) else Digits(n)
  }

  predicate AllDigits(s: string) {
    forall i :: 0 <= i < |s| ==> IsDigit(s[i])
  }

  /** The value of a digit string (leading zeros allowed). */
  function DigitsValue(s: string): (v: nat)
    requires AllDigits(s)
  {
    if s == [] then 0 else 10 * DigitsValue(s[..|s| - 1]) + DigitValue(s[|s| - 1])
  }

  /** `Number(s)` on the strings a node id can hold: the empty string is 0,
      an optional '-' followed by decimal digits is that integer, and
      anything else is NaN (None). */
  function ParseNumber(s: string): (r: Option<int>)
    ensures AllDigits(s) ==> r == Some(DigitsValue(s))
    ensures s != [] && !IsDigit(s[0]) && s[0] != '-' ==> r.None?
  {
    if AllDigits(s) then Some(DigitsValue(s))
    else if |s| >= 2 && s[0] == '-' && AllDigits(s[1..]) then Some(0 - DigitsValue(s[1..]) as int)
    else None
  }

  lemma {:induction false} DigitsValueOfDigits(n: nat)
    ensures DigitsValue(Digits(n)) == n
  {
    if n >= 10 {
      var s := Digits(n);
      assert s[..|s| - 1] == Digits(n / 10);
      DigitsValueOfDigits(n / 10);
      DigitRoundTrip(n % 10);
    } else {
      DigitRoundTrip(n);
    }
  }

  /** `Number(n.toString()) === n`: a node id made from a task id reads
      back as that task id. */
  lemma DecimalRoundTrip(n: int)
    ensures ParseNumber(DecimalString(n)) == Some(n)
  {
    if n < 0 {
      NegativeRoundTrip(n);
    } else {
      DigitsValueOfDigits(n);
    }
  }

  /** A negative number's text is '-' and the digits of its magnitude. */
  lemma NegativeRoundTrip(n: int)
    requires n < 0
    ensures ParseNumber(DecimalString(n)) == Some(n)
  {
    var m: nat := -n;
    var d := Digits(m);
    assert DigitsValue(d) == m by { DigitsValueOfDigits(m); }
    assert DecimalString(n) == "-" + d;
    ParseNegative(DecimalString(n), d, m);
  }

  /** `Number("-" + digits)` is the negated value of the digits. */
  lemma ParseNegative(s: string, d: string, m: nat)
    requires d != [] && AllDigits(d) && DigitsValue(d) == m && s == "-" + d
    ensures ParseNumber(s) == Some(-(m as int))
  {
    assert !IsDigit(s[0]);
    assert s[1..] == d;
  }

  /** Distinct integers have distinct decimal strings. */
  lemma DecimalInjective(m: int, n: int)
    requires DecimalString(m) == DecimalString(n)
    ensures m == n
  {
    DecimalRoundTrip(m);
    DecimalRoundTrip(n);
  }
}
