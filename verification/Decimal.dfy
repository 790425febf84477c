/** Decimal notation: the reference that printing and parsing are proved against. */
module Decimal {

  predicate IsDigit(c: char) { '0' <= c <= '9' }

  function DigitValue(c: char): (d: nat)
    requires IsDigit(c)
    ensures d < 10
  {
    c as int - '0' as int
  }

  function DigitChar(d: nat): (c: char)
    requires d < 10
    ensures IsDigit(c) && DigitValue(c) == d
  {
    (d + '0' as int) as char
  }

  predicate AllDigits(s: string) { forall i :: 0 <= i < |s| ==> IsDigit(s[i]) }

  /** The number a digit string denotes; leading zeros allowed. */
  function Value(s: string): nat
    requires AllDigits(s)
  {
    if |s| == 0 then 0 else 10 * Value(s[..|s| - 1]) + DigitValue(s[|s| - 1])
  }

  /** The decimal notation of a number, without leading zeros. */
  function Digits(v: nat): (s: string)
    ensures |s| > 0 && AllDigits(s)
  {
    if v < 10 then [DigitChar(v)] else Digits(v / 10) + [DigitChar(v % 10)]
  }

  function DecimalLength(v: nat): (n: nat)
    ensures n >= 1
  {
    if v < 10 then 1 else 1 + DecimalLength(v / 10)
  }

  function Pow10(n: nat): (p: nat)
    ensures p >= 1
  {
    if n == 0 then 1 else 10 * Pow10(n - 1)
  }

  lemma {:induction false} DigitsLength(v: nat)
    ensures |Digits(v)| == DecimalLength(v)
  {
    if v >= 10 {
      DigitsLength(v / 10);
    }
  }

  lemma {:induction false} ValueOfDigits(v: nat)
    ensures Value(Digits(v)) == v
  {
    if v >= 10 {
      ValueOfDigits(v / 10);
      assert Digits(v)[..|Digits(v)| - 1] == Digits(v / 10);
    }
  }

  /** The digits, one by one. */
  lemma DigitsAre()
    ensures DigitValue('0') == 0 && DigitValue('1') == 1 && DigitValue('2') == 2 && DigitValue('3') == 3
    ensures DigitValue('4') == 4 && DigitValue('5') == 5 && DigitValue('6') == 6 && DigitValue('7') == 7
    ensures DigitValue('8') == 8 && DigitValue('9') == 9
  {
  }

  /** Writing a number down that was read gives the same text, if that has no leading zero. */
  lemma {:induction false} DigitsOfValue(s: string)
    requires |s| > 0 && AllDigits(s) && (|s| > 1 ==> s[0] != '0')
    ensures Digits(Value(s)) == s && (|s| > 1 ==> Value(s) > 0)
    decreases |s|
  {
    var n := |s| - 1;
    assert s == s[..n] + [s[n]];
    if n > 0 {
      DigitsOfValue(s[..n]);
      assert n == 1 ==> Value(s[..1][..0]) == 0;
    } else {
      assert s[..n] == [] && Value(s[..n]) == 0;
    }
  }

  /** The length of a number places it between powers of ten. */
  lemma {:induction false} LengthBounds(v: nat)
    ensures v < Pow10(DecimalLength(v))
    ensures v > 0 ==> Pow10(DecimalLength(v) - 1) <= v
  {
    if v >= 10 {
      LengthBounds(v / 10);
    }
  }

  lemma {:induction false} Pow10Monotone(a: nat, b: nat)
    requires a <= b
    ensures Pow10(a) <= Pow10(b)
    decreases b - a
  {
    if a < b {
      Pow10Monotone(a, b - 1);
    }
  }

  /** ... and only one length does. */
  lemma LengthUnique(v: nat, n: nat)
    requires n >= 1 && v < Pow10(n) && (v > 0 ==> Pow10(n - 1) <= v) && (v == 0 ==> n == 1)
    ensures DecimalLength(v) == n
  {
    LengthBounds(v);
    var m := DecimalLength(v);
    if m < n {
      Pow10Monotone(m, n - 1);
    } else if n < m {
      Pow10Monotone(n, m - 1);
    }
  }

  /** A string of n digits denotes less than 10^n, and at least 10^(n-1) if it
      does not start with a zero. */
  lemma {:induction false} ValueBounds(s: string)
    requires AllDigits(s)
    ensures Value(s) < Pow10(|s|)
    ensures |s| > 0 && s[0] != '0' ==> Pow10(|s| - 1) <= Value(s)
  {
    if |s| > 0 {
      ValueBounds(s[..|s| - 1]);
    }
  }

  /** The value of a concatenation. */
  lemma {:induction false} ValueConcat(s: string, t: string)
    requires AllDigits(s) && AllDigits(t)
    ensures AllDigits(s + t)
    ensures Value(s + t) == Value(s) * Pow10(|t|) + Value(t)
    decreases |t|
  {
    if |t| == 0 {
      assert s + t == s;
    } else {
      var u := t[..|t| - 1];
      ValueConcat(s, u);
      assert (s + t)[..|s + t| - 1] == s + u;
      assert Value(s) * Pow10(|t|) == 10 * (Value(s) * Pow10(|u|));
    }
  }
}
