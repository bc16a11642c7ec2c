/** Comma-grouped figures, `f"{int(n):,}"`, and their agreement with the amount in words. */
module AmountFigures {
  import opened Collections
  import opened Decimal
  import AmountWords
  import EnglishNumbers

  /** Three digits of n < 1000, zero-padded. */
  function Three(n: nat): string
    requires n < 1000
  {
    [DigitChar(n / 100), DigitChar(n / 10 % 10), DigitChar(n % 10)]
  }

  function Grouped(n: nat): string
  {
    if n < 1000 then Text(n) else Grouped(n / 1000) + "," + Three(n % 1000)
  }

  /** Python's `int()` on a number: the fraction is dropped, towards zero. */
  function Truncate(x: real): int
  {
    if x >= 0.0 then x.Floor else -((-x).Floor)
  }

  /** `format_amount` */
  function Format(x: real): string
  {
    if Truncate(x) < 0 then "-" + Grouped(-Truncate(x)) else Grouped(Truncate(x))
  }

  // ----- Reading figures -----

  function WithoutCommas(s: string): string
  {
    if s == "" then "" else (if s[0] == ',' then "" else [s[0]]) + WithoutCommas(s[1..])
  }

  lemma {:induction false} WithoutCommasAppend(a: string, b: string)
    ensures WithoutCommas(a + b) == WithoutCommas(a) + WithoutCommas(b)
  {
    if a == "" {
      assert a + b == b;
    } else {
      assert (a + b)[1..] == a[1..] + b;
      WithoutCommasAppend(a[1..], b);
    }
  }

  lemma {:induction false} DigitsHaveNoCommas(s: string)
    requires AllDigits(s)
    ensures WithoutCommas(s) == s
  {
    if s != "" {
      DigitsHaveNoCommas(s[1..]);
      assert [s[0]] + s[1..] == s;
    }
  }

  lemma DigitsOf(n: nat)
    ensures n / 10 / 10 == n / 100 && n / 100 / 10 == n / 1000
    ensures n % 1000 / 100 == n / 100 % 10 && n % 1000 / 10 % 10 == n / 10 % 10 && n % 1000 % 10 == n % 10
  {
  }

  lemma TextByThousands(n: nat)
    requires n >= 1000
    ensures Text(n) == Text(n / 1000) + Three(n % 1000)
  {
    DigitsOf(n);
    assert Text(n) == Text(n / 10) + [DigitChar(n % 10)];
    assert Text(n / 10) == Text(n / 10 / 10) + [DigitChar(n / 10 % 10)];
    assert Text(n / 100) == Text(n / 100 / 10) + [DigitChar(n / 100 % 10)];
  }

  /** Without its commas the figure is the plain decimal text. */
  lemma {:induction false} GroupedDigits(n: nat)
    ensures WithoutCommas(Grouped(n)) == Text(n)
  {
    if n < 1000 {
      TextDenotes(n);
      DigitsHaveNoCommas(Text(n));
    } else {
      GroupedDigits(n / 1000);
      TextByThousands(n);
      WithoutCommasAppend(Grouped(n / 1000) + ",", Three(n % 1000));
      WithoutCommasAppend(Grouped(n / 1000), ",");
      DigitsHaveNoCommas(Three(n % 1000));
    }
  }

  /** Commas exactly before each third digit from the right, and none in front. */
  predicate WellGrouped(s: string)
  {
    s != "" && s[0] != ',' && forall j | 0 <= j < |s| :: s[j] == ',' <==> (|s| - 1 - j) % 4 == 3
  }

  lemma ShortIsGrouped(n: nat)
    requires n < 1000
    ensures WellGrouped(Text(n))
  {
    TextDenotes(n);
    assert Pow10(3) == 10 * Pow10(2) == 1000;
    TextLength(n, 3);
  }

  lemma OneMoreGroup(t: string, r: nat)
    requires WellGrouped(t) && r < 1000
    ensures WellGrouped(t + "," + Three(r))
  {
    var s := t + "," + Three(r);
    assert |s| == |t| + 4;
    forall j | 0 <= j < |s| ensures s[j] == ',' <==> (|s| - 1 - j) % 4 == 3 {
      if j < |t| {
        assert s[j] == t[j];
        assert |s| - 1 - j == |t| - 1 - j + 4;
      }
    }
  }

  lemma {:induction false} GroupedCommas(n: nat)
    ensures WellGrouped(Grouped(n))
  {
    if n < 1000 {
      ShortIsGrouped(n);
    } else {
      GroupedCommas(n / 1000);
      OneMoreGroup(Grouped(n / 1000), n % 1000);
    }
  }

  /** The reader of a figure: drop the commas and read the digits. */
  function FigureValue(s: string): Option<nat>
  {
    if AllDigits(WithoutCommas(s)) then Some(Value(WithoutCommas(s))) else None
  }

  lemma FigureDenotes(n: nat)
    ensures FigureValue(Grouped(n)) == Some(n)
  {
    GroupedDigits(n);
    TextDenotes(n);
  }

  lemma {:induction false} NoLeadingZero(n: nat)
    ensures Grouped(n) != "" && (Grouped(n)[0] == '0' <==> n == 0)
  {
    if n < 1000 {
      assert n >= 10 ==> Text(n) == Text(n / 10) + [DigitChar(n % 10)];
      assert n >= 100 ==> Text(n / 10) == Text(n / 100) + [DigitChar(n / 10 % 10)];
    } else {
      NoLeadingZero(n / 1000);
    }
  }

  /** Cents are dropped, towards zero; a negative amount is the figure of its opposite behind a minus. */
  lemma FormatDenotes(x: real)
    ensures x >= 0.0 ==> FigureValue(Format(x)) == Some(x.Floor)
    ensures -1.0 < x < 0.0 ==> Format(x) == "0"
    ensures x <= -1.0 ==> Format(x) == "-" + Format(-x)
  {
    if x >= 0.0 { FigureDenotes(x.Floor); }
  }

  // ----- Words and figures side by side -----

  /** Do the figure and the words printed for the same amount denote the same number? */
  predicate Agree(x: real)
    requires x >= 0.0
  {
    FigureValue(Format(x)) == EnglishNumbers.Parse(AmountWords.Text(x.Floor)) == Some(x.Floor)
  }

  lemma ModIsSelf(n: nat, k: nat)
    requires k > 0
    ensures n % k == n <==> n < k
  {
  }

  lemma WholeAmountsAgree(n: nat)
    ensures FigureValue(Grouped(n)) == Some(n)
    ensures EnglishNumbers.Parse(AmountWords.Text(n)) == Some(n) <==> n < 1_000_000_000_000
  {
    FigureDenotes(n);
    AmountWords.WordsDenote(n);
    ModIsSelf(n, 1_000_000_000_000);
  }

  /** They agree exactly for amounts below 10^12. */
  lemma AgreeIff(x: real)
    requires x >= 0.0
    ensures Agree(x) <==> x < 1_000_000_000_000.0
  {
    WholeAmountsAgree(x.Floor);
    assert Format(x) == Grouped(x.Floor);
  }

  /** A monthly rent stored in Numeric(12, 2). */
  predicate FitsNumeric12_2(x: real)
  {
    0.0 <= x < 10_000_000_000.0
  }

  lemma AdvanceBound(rent: real, months: nat)
    requires FitsNumeric12_2(rent) && months <= 12
    ensures 0.0 <= rent * months as real < 1_000_000_000_000.0
  {
    assert rent * months as real <= rent * 12.0;
  }

  /** So every rent, deposit and advance of up to twelve months is worded as it is written. */
  lemma LeaseAmountsAgree(rent: real, deposit: real, advanceMonths: nat)
    requires FitsNumeric12_2(rent) && FitsNumeric12_2(deposit) && advanceMonths <= 12
    ensures Agree(rent) && Agree(deposit)
    ensures rent * advanceMonths as real >= 0.0 && Agree(rent * advanceMonths as real)
  {
    AdvanceBound(rent, advanceMonths);
    AgreeIff(rent);
    AgreeIff(deposit);
    AgreeIff(rent * advanceMonths as real);
  }
}
