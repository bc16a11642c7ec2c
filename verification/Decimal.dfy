/** Decimal text of integers, as Python's `str(n)` and PostgreSQL's `n::TEXT` print it. */
module Decimal {

  function DigitChar(d: nat): char
    requires d < 10
  {
    (d + 48) as char
  }

  predicate IsDigit(c: char)
  {
    '0' <= c <= '9'
  }

  function DigitValue(c: char): nat
    requires IsDigit(c)
  {
    c as int - 48
  }

  /** The digits of n, most significant first, without leading zeros. */
  function Text(n: nat): string
  {
    if n < 10 then [DigitChar(n)] else Text(n / 10) + [DigitChar(n % 10)]
  }

  predicate AllDigits(s: string)
  {
    forall i | 0 <= i < |s| :: IsDigit(s[i])
  }

  /** What a string of digits denotes. */
  function Value(s: string): nat
    requires AllDigits(s)
  {
    if s == [] then 0 else 10 * Value(s[..|s| - 1]) + DigitValue(s[|s| - 1])
  }

  function IntText(n: int): string
  {
    if n < 0 then "-" + Text(-n) else Text(n)
  }

  /** Printing and reading back gives the number, so printing loses nothing. */
  lemma {:induction false} TextDenotes(n: nat)
    ensures AllDigits(Text(n)) && Text(n) != []
    ensures Value(Text(n)) == n
  {
    if n >= 10 {
      TextDenotes(n / 10);
      assert Text(n)[..|Text(n)| - 1] == Text(n / 10);
    } else {
      assert Text(n)[..0] == [];
    }
  }

  lemma TextInjective(m: nat, n: nat)
    requires Text(m) == Text(n)
    ensures m == n
  {
    TextDenotes(m);
    TextDenotes(n);
  }

  lemma IntTextInjective(m: int, n: int)
    requires IntText(m) == IntText(n)
    ensures m == n
  {
    TextDenotes(if m < 0 then -m else m);
    TextDenotes(if n < 0 then -n else n);
    assert m < 0 <==> IntText(m)[0] == '-';
    assert n < 0 <==> IntText(n)[0] == '-';
    if m < 0 {
      assert IntText(m)[1..] == Text(-m) && IntText(n)[1..] == Text(-n);
      TextInjective(-m, -n);
    } else {
      TextInjective(m, n);
    }
  }

  /** A number has at most k digits exactly when it is below 10^k. */
  lemma {:induction false} TextLength(n: nat, k: nat)
    requires 0 < k
    ensures |Text(n)| <= k <==> n < Pow10(k)
  {
    if k == 1 {
      assert Pow10(1) == 10 * Pow10(0) == 10;
      if n >= 10 { TextDenotes(n / 10); }
    } else if n >= 10 {
      TextLength(n / 10, k - 1);
      assert Pow10(k) == 10 * Pow10(k - 1);
    } else {
      Pow10Grows(k);
    }
  }

  function Pow10(k: nat): nat
  {
    if k == 0 then 1 else 10 * Pow10(k - 1)
  }

  lemma {:induction false} Pow10Grows(k: nat)
    requires 0 < k
    ensures Pow10(k) >= 10
  {
    if k > 1 { Pow10Grows(k - 1); } else { assert Pow10(0) == 1; }
  }
}
