/** Sorting dated amounts into calendar months: what `GROUP BY DATE_TRUNC('month', ...)` and the
    per-month queries of the dashboard have in common. */
module Buckets {
  import opened Collections
  import opened Calendar

  /** A row that a WHERE clause kept: the date column and the column being summed (1 for COUNT). */
  datatype Entry = Entry(date: Option<ValidDate>, amount: int) {
    /** A NULL date is in no month and passes no comparison. */
    predicate In(m: Month) { date.Some? && date.value.month == m }

    predicate InWindow(m: Month, n: nat)
    {
      date.Some? && m.Index() - n < date.value.month.Index() <= m.Index()
    }

    predicate After(m: Month) { date.Some? && date.value.month.Index() > m.Index() }

    predicate Since(start: ValidDate) { date.Some? && !date.value.Before(start) }
  }

  function AsSeq(e: Option<Entry>): seq<Entry>
  {
    if e.Some? then [e.value] else []
  }

  /** The entries of the rows that a WHERE clause keeps, in the order of the table. */
  function Select<R>(rows: seq<R>, entry: R -> Option<Entry>): seq<Entry>
  {
    if rows == [] then [] else AsSeq(entry(rows[0])) + Select(rows[1..], entry)
  }

  lemma {:induction false} SelectAppend<R>(a: seq<R>, b: seq<R>, entry: R -> Option<Entry>)
    ensures Select(a + b, entry) == Select(a, entry) + Select(b, entry)
  {
    if a == [] {
      assert a + b == b;
    } else {
      assert (a + b)[1..] == a[1..] + b;
      SelectAppend(a[1..], b, entry);
    }
  }

  /** What one row, wherever it stands, adds to the entries. */
  lemma SelectRow<R>(before: seq<R>, row: R, behind: seq<R>, entry: R -> Option<Entry>)
    ensures Select(before + [row] + behind, entry) == Select(before, entry) + AsSeq(entry(row)) + Select(behind, entry)
  {
    SelectAppend(before + [row], behind, entry);
    SelectAppend(before, [row], entry);
    assert Select([row][1..], entry) == [];
  }

  function Total(es: seq<Entry>, keep: Entry -> bool): int
  {
    if es == [] then 0 else (if keep(es[0]) then es[0].amount else 0) + Total(es[1..], keep)
  }

  function MonthTotal(es: seq<Entry>, m: Month): int
  {
    Total(es, (e: Entry) => e.In(m))
  }

  /** The amounts dated in one of the n months that end with month m. */
  function WindowTotal(es: seq<Entry>, m: Month, n: nat): int
  {
    Total(es, (e: Entry) => e.InWindow(m, n))
  }

  function LaterTotal(es: seq<Entry>, m: Month): int
  {
    Total(es, (e: Entry) => e.After(m))
  }

  function SinceTotal(es: seq<Entry>, start: ValidDate): int
  {
    Total(es, (e: Entry) => e.Since(start))
  }

  /** The totals of the last n months, oldest first. */
  function MonthlyTotals(es: seq<Entry>, m: Month, n: nat): seq<int>
  {
    seq(n, k requires 0 <= k < n => MonthTotal(es, MonthsEndingAt(m, n)[k]))
  }

  /** A date in the window falls in exactly one of its months. */
  lemma ExactlyOneMonth(e: Entry, m: Month, n: nat)
    requires e.InWindow(m, n)
    ensures exists k :: 0 <= k < n && e.In(MonthsEndingAt(m, n)[k])
    ensures forall j, k :: 0 <= j < n && 0 <= k < n && e.In(MonthsEndingAt(m, n)[j]) && e.In(MonthsEndingAt(m, n)[k]) ==> j == k
  {
    forall k | 0 <= k < n ensures MonthsEndingAt(m, n)[k].Index() == m.Index() - (n - 1 - k) {
      BackIndex(m, n - 1 - k);
    }
    var k := e.date.value.month.Index() - m.Index() + n - 1;
    IndexInjective(MonthsEndingAt(m, n)[k], e.date.value.month);
  }

  lemma {:induction false} NothingInEmptyWindow(es: seq<Entry>, m: Month)
    ensures WindowTotal(es, m, 0) == 0
  {
    if es != [] { NothingInEmptyWindow(es[1..], m); }
  }

  lemma {:induction false} WindowOpens(es: seq<Entry>, m: Month, n: nat)
    ensures WindowTotal(es, m, n + 1) == MonthTotal(es, m.Back(n)) + WindowTotal(es, m, n)
  {
    if es != [] {
      BackIndex(m, n);
      if es[0].InWindow(m, n + 1) && !es[0].InWindow(m, n) {
        IndexInjective(es[0].date.value.month, m.Back(n));
      }
      WindowOpens(es[1..], m, n);
    }
  }

  /** Bucketing by month neither loses nor double-counts an amount of the window. */
  lemma {:induction false} BucketsConserve(es: seq<Entry>, m: Month, n: nat)
    ensures Sum(MonthlyTotals(es, m, n)) == WindowTotal(es, m, n)
    decreases n
  {
    if n == 0 {
      NothingInEmptyWindow(es, m);
    } else {
      BucketsConserve(es, m, n - 1);
      WindowOpens(es, m, n - 1);
      assert MonthlyTotals(es, m, n)[0] == MonthTotal(es, m.Back(n - 1));
      assert MonthlyTotals(es, m, n)[1..] == MonthlyTotals(es, m, n - 1);
    }
  }

  /** Everything from the first day of the window on lies in the window or after its last month. */
  lemma {:induction false} WindowAndLater(es: seq<Entry>, m: Month, n: nat)
    requires n > 0
    ensures SinceTotal(es, Date(m.Back(n - 1), 1)) == WindowTotal(es, m, n) + LaterTotal(es, m)
  {
    if es != [] {
      BackIndex(m, n - 1);
      if es[0].date.Some? { FirstOpensMonth(es[0].date.value, m.Back(n - 1)); }
      WindowAndLater(es[1..], m, n);
    }
  }

  /** The `SUM(amount)` of month m's group in `WHERE date >= :start GROUP BY month`. */
  function GroupTotal(es: seq<Entry>, start: ValidDate, m: Month): int
  {
    Total(es, (e: Entry) => e.Since(start) && e.In(m))
  }

  /** A month from `start` on is not affected by the comparison with `start`. */
  lemma {:induction false} SinceKeepsMonth(es: seq<Entry>, start: ValidDate, m: Month)
    requires start.day == 1 && start.month.Index() <= m.Index()
    ensures GroupTotal(es, start, m) == MonthTotal(es, m)
  {
    if es != [] {
      if es[0].date.Some? { FirstOpensMonth(es[0].date.value, start.month); }
      SinceKeepsMonth(es[1..], start, m);
    }
  }

  lemma {:induction false} NoEntryNoTotal(es: seq<Entry>, start: ValidDate, m: Month)
    requires forall e <- es :: !(e.Since(start) && e.In(m))
    ensures GroupTotal(es, start, m) == 0
  {
    if es != [] { NoEntryNoTotal(es[1..], start, m); }
  }

  /** One column of a table of rows. */
  function Column<R>(rows: seq<R>, cell: R -> int): seq<int>
  {
    seq(|rows|, k requires 0 <= k < |rows| => cell(rows[k]))
  }
}
