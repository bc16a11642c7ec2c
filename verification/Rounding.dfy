/** Python's `round(x, n)` in exact arithmetic: to the nearest multiple, ties to the even one. */
module Rounding {

  function HalfEven(x: real): int
  {
    var f := x.Floor;
    if x - f as real < 0.5 then f
    else if x - f as real > 0.5 then f + 1
    else if f % 2 == 0 then f else f + 1
  }

  /** The nearest integer, and on a tie the even one: no other integer meets this. */
  lemma HalfEvenIsNearest(x: real, n: int)
    ensures HalfEven(x) == n
            <==> n as real - 0.5 <= x <= n as real + 0.5 && ((x == n as real - 0.5 || x == n as real + 0.5) ==> n % 2 == 0)
  {
    var f := x.Floor;
    assert f as real <= x < f as real + 1.0;
    if n < f {
      assert n as real + 1.0 <= f as real;
    } else if n > f + 1 {
      assert f as real + 2.0 <= n as real;
    }
  }

  lemma HalfEvenMonotone(x: real, y: real)
    requires x <= y
    ensures HalfEven(x) <= HalfEven(y)
  {
    if x.Floor < y.Floor {
      assert HalfEven(x) <= x.Floor + 1 <= y.Floor <= HalfEven(y);
    }
  }

  /** The two precisions in use: `round(x, 2)` and `round(x, 3)`. */
  datatype Precision = Cents | Thousandths

  function Scaled(x: real, p: Precision): real
  {
    match p
    case Cents => x * 100.0
    case Thousandths => x * 1000.0
  }

  function RoundTo(x: real, p: Precision): real
  {
    match p
    case Cents => HalfEven(Scaled(x, p)) as real / 100.0
    case Thousandths => HalfEven(Scaled(x, p)) as real / 1000.0
  }

  lemma RoundToClose(x: real, p: Precision)
    ensures -0.5 <= Scaled(RoundTo(x, p) - x, p) <= 0.5
  {
    HalfEvenIsNearest(Scaled(x, p), HalfEven(Scaled(x, p)));
  }

  lemma RoundToMonotone(x: real, y: real, p: Precision)
    requires x <= y
    ensures RoundTo(x, p) <= RoundTo(y, p)
  {
    HalfEvenMonotone(Scaled(x, p), Scaled(y, p));
  }

  predicate IsMultiple(x: real, p: Precision)
  {
    Scaled(x, p) == Scaled(x, p).Floor as real
  }

  /** Rounding leaves exact multiples alone, and always produces one. */
  lemma RoundToExact(x: real, p: Precision)
    ensures IsMultiple(RoundTo(x, p), p)
    ensures IsMultiple(x, p) ==> RoundTo(x, p) == x
  {
    if IsMultiple(x, p) {
      HalfEvenIsNearest(Scaled(x, p), Scaled(x, p).Floor);
    }
  }
}
