/** The proleptic Gregorian calendar as Python's `datetime` counts it, and the two ways the
    service lists the months up to the current one: by stepping back 28 days at a time
    (billing charts) and by decrementing the month number (dashboard series). */
module Calendar {

  type MonthNumber = n: int | 1 <= n <= 12 witness 1

  predicate IsLeap(year: int)
  {
    year % 4 == 0 && (year % 100 != 0 || year % 400 == 0)
  }

  datatype Month = Month(year: int, number: MonthNumber) {
    function Length(): int
    {
      if number == 2 then (if IsLeap(year) then 29 else 28)
      else if number == 4 || number == 6 || number == 9 || number == 11 then 30
      else 31
    }

    function Prev(): Month
    {
      if number == 1 then Month(year - 1, 12) else Month(year, number - 1)
    }

    /** The month n months earlier. */
    function Back(n: nat): Month
      decreases n
    {
      if n == 0 then this else Prev().Back(n - 1)
    }

    /** Months on one running count. */
    function Index(): int { 12 * year + number }
  }

  datatype Date = Date(month: Month, day: int) {
    predicate Valid()
    {
      1 <= day <= month.Length()
    }

    predicate Before(d: Date)
    {
      month.year < d.month.year
      || (month.year == d.month.year && month.number < d.month.number)
      || (month == d.month && day < d.day)
    }
  }

  type ValidDate = d: Date | d.Valid() witness Date(Month(1, 1), 1)

  /** Dates from the first of a month on are those of that month and later ones. */
  lemma FirstOpensMonth(d: ValidDate, m: Month)
    ensures !d.Before(Date(m, 1)) <==> d.month.Index() >= m.Index()
  {
  }

  // ----- Day numbers -----

  /** Days in the years before `year`, counted from 1 January of year 1. */
  function DaysBeforeYear(year: int): int
  {
    var y := year - 1;
    365 * y + y / 4 - y / 100 + y / 400
  }

  function DaysBeforeMonth(year: int, number: MonthNumber): int
    decreases number
  {
    if number == 1 then 0
    else DaysBeforeMonth(year, number - 1) + Month(year, number - 1).Length()
  }

  /** The day number `date.toordinal` gives. */
  function Ordinal(d: Date): int
  {
    DaysBeforeYear(d.month.year) + DaysBeforeMonth(d.month.year, d.month.number) + d.day
  }

  lemma LeapDays(y: int)
    ensures (y + 1) / 4 - y / 4 == if (y + 1) % 4 == 0 then 1 else 0
    ensures (y + 1) / 100 - y / 100 == if (y + 1) % 100 == 0 then 1 else 0
    ensures (y + 1) / 400 - y / 400 == if (y + 1) % 400 == 0 then 1 else 0
  {
  }

  lemma FourHundred(year: int)
    ensures year % 400 == 0 ==> year % 100 == 0
    ensures year % 100 == 0 ==> year % 4 == 0
  {
  }

  lemma YearLength(year: int)
    ensures DaysBeforeYear(year + 1) == DaysBeforeYear(year) + DaysBeforeMonth(year, 12) + 31
    ensures DaysBeforeYear(year + 1) >= DaysBeforeYear(year) + 365
  {
    LeapDays(year - 1);
    FourHundred(year);
    assert DaysBeforeMonth(year, 4) == 90 + if IsLeap(year) then 1 else 0;
    assert DaysBeforeMonth(year, 8) == DaysBeforeMonth(year, 4) + 122;
    assert DaysBeforeMonth(year, 12) == DaysBeforeMonth(year, 8) + 122;
  }

  lemma {:induction false} YearsGrow(y1: int, y2: int)
    requires y1 <= y2
    ensures DaysBeforeYear(y1) <= DaysBeforeYear(y2)
    decreases y2 - y1
  {
    if y1 < y2 {
      YearsGrow(y1, y2 - 1);
      YearLength(y2 - 1);
    }
  }

  lemma {:induction false} MonthsGrow(year: int, n1: MonthNumber, n2: MonthNumber)
    requires n1 < n2
    ensures DaysBeforeMonth(year, n1) + Month(year, n1).Length() <= DaysBeforeMonth(year, n2)
    decreases n2
  {
    if n1 < n2 - 1 {
      MonthsGrow(year, n1, n2 - 1);
    }
  }

  lemma InYear(d: Date)
    requires d.Valid()
    ensures DaysBeforeYear(d.month.year) < Ordinal(d) <= DaysBeforeYear(d.month.year + 1)
  {
    YearLength(d.month.year);
    if d.month.number < 12 { MonthsGrow(d.month.year, d.month.number, 12); }
    if 1 < d.month.number { MonthsGrow(d.month.year, 1, d.month.number); }
  }

  lemma EarlierOrdinal(a: Date, b: Date)
    requires a.Valid() && b.Valid() && a.Before(b)
    ensures Ordinal(a) < Ordinal(b)
  {
    if a.month.year < b.month.year {
      InYear(a);
      InYear(b);
      YearsGrow(a.month.year + 1, b.month.year);
    } else if a.month.number < b.month.number {
      MonthsGrow(a.month.year, a.month.number, b.month.number);
    }
  }

  /** Ordinals order dates as the calendar does, so no two dates share one. */
  lemma OrdinalOrdersDates(a: Date, b: Date)
    requires a.Valid() && b.Valid()
    ensures a.Before(b) <==> Ordinal(a) < Ordinal(b)
    ensures a == b <==> Ordinal(a) == Ordinal(b)
  {
    if a.Before(b) {
      EarlierOrdinal(a, b);
    } else if b.Before(a) {
      EarlierOrdinal(b, a);
    }
  }

  /** The days before a month by the rule of thirds: from March on, months alternate as 153 days in five. */
  lemma DaysBeforeMonthRule(year: int, number: MonthNumber)
    ensures var leap := if year % 4 == 0 && (year % 100 != 0 || year % 400 == 0) then 1 else 0;
            DaysBeforeMonth(year, number)
            == if number == 1 then 0 else if number == 2 then 31 else 59 + leap + (153 * (number - 3) + 2) / 5
  {
    assert DaysBeforeMonth(year, 4) == 90 + if IsLeap(year) then 1 else 0;
    assert DaysBeforeMonth(year, 8) == DaysBeforeMonth(year, 4) + 122;
    assert DaysBeforeMonth(year, 12) == DaysBeforeMonth(year, 8) + 122;
  }

  /** 1 January of year 1 is day 1, as in `date.toordinal`, and 1 January 2000 is day 730120. */
  lemma FirstDays()
    ensures Ordinal(Date(Month(1, 1), 1)) == 1 && Ordinal(Date(Month(2000, 1), 1)) == 730120
  {
  }

  // ----- Subtracting days -----

  /** `d - timedelta(days=k)`; MinusDaysOrdinal says which date that is. */
  function MinusDays(d: Date, k: nat): (r: Date)
    requires d.Valid()
    ensures r.Valid()
    decreases k
  {
    if k < d.day then d.(day := d.day - k)
    else MinusDays(Date(d.month.Prev(), d.month.Prev().Length()), k - d.day)
  }

  lemma LastOfPrevious(m: Month)
    ensures Ordinal(Date(m.Prev(), m.Prev().Length())) == Ordinal(Date(m, 0))
  {
    if m.number == 1 {
      YearLength(m.year - 1);
    }
  }

  /** The date k days earlier is the one whose day number is k smaller. */
  lemma {:induction false} MinusDaysOrdinal(d: Date, k: nat)
    requires d.Valid()
    ensures Ordinal(MinusDays(d, k)) == Ordinal(d) - k
    decreases k
  {
    if k >= d.day {
      LastOfPrevious(d.month);
      MinusDaysOrdinal(Date(d.month.Prev(), d.month.Prev().Length()), k - d.day);
    }
  }

  /** The number of days in the n months before m. */
  function DaysBefore(m: Month, n: nat): int
    decreases n
  {
    if n == 0 then 0 else m.Prev().Length() + DaysBefore(m.Prev(), n - 1)
  }

  /** Going back k days crosses exactly n month boundaries when the n months before hold the
      days left over and n - 1 of them do not. */
  lemma {:induction false} MonthsCrossed(d: Date, k: nat, n: nat)
    requires d.Valid()
    requires if n == 0 then k < d.day else d.day + DaysBefore(d.month, n - 1) <= k < d.day + DaysBefore(d.month, n)
    ensures MinusDays(d, k).month == d.month.Back(n)
    decreases n
  {
    if n > 0 {
      var p := d.month.Prev();
      DaysBeforeGrows(d.month, 0, n - 1);
      MonthsCrossed(Date(p, p.Length()), k - d.day, n - 1);
    }
  }

  lemma {:induction false} DaysBeforeGrows(m: Month, i: nat, n: nat)
    requires i <= n
    ensures DaysBefore(m, i) + 28 * (n - i) <= DaysBefore(m, n)
    decreases n
  {
    if i > 0 {
      DaysBeforeGrows(m.Prev(), i - 1, n - 1);
    } else if n > 0 {
      DaysBeforeGrows(m.Prev(), 0, n - 1);
    }
  }

  // ----- Stepping back 28 days at a time -----

  /** The month the billing chart reaches from month m after i steps of 28 days. */
  function Stepped(m: Month, i: nat): Month
  {
    MinusDays(Date(m, 1), 28 * i).month
  }

  /** The longest that the n months before the month numbered `number` can be, in any year. */
  function LongestBefore(number: MonthNumber, n: nat): int
    decreases n
  {
    if n == 0 then 0
    else
      var prev := if number == 1 then 12 else number - 1;
      LongestMonth(prev) + LongestBefore(prev, n - 1)
  }

  function LongestMonth(number: MonthNumber): int
  {
    if number == 2 then 29
    else if number == 4 || number == 6 || number == 9 || number == 11 then 30
    else 31
  }

  lemma {:induction false} DaysBeforeBound(m: Month, n: nat)
    ensures DaysBefore(m, n) <= LongestBefore(m.number, n)
    decreases n
  {
    if n > 0 { DaysBeforeBound(m.Prev(), n - 1); }
  }

  lemma FiveLongest(number: MonthNumber)
    ensures LongestBefore(number, 5) <= 153
  {
    match number
    case 1 => assert LongestBefore(1, 5) <= 153;
    case 2 => assert LongestBefore(2, 5) <= 153;
    case 3 => assert LongestBefore(3, 5) <= 153;
    case 4 => assert LongestBefore(4, 5) <= 153;
    case 5 => assert LongestBefore(5, 5) <= 153;
    case 6 => assert LongestBefore(6, 5) <= 153;
    case 7 => assert LongestBefore(7, 5) <= 153;
    case 8 => assert LongestBefore(8, 5) <= 153;
    case 9 => assert LongestBefore(9, 5) <= 153;
    case 10 => assert LongestBefore(10, 5) <= 153;
    case 11 => assert LongestBefore(11, 5) <= 153;
    case 12 => assert LongestBefore(12, 5) <= 153;
  }

  lemma {:induction false} DaysBeforeSplit(m: Month, i: nat, n: nat)
    ensures DaysBefore(m, i + n) == DaysBefore(m, i) + DaysBefore(m.Back(i), n)
    decreases i
  {
    if i > 0 { DaysBeforeSplit(m.Prev(), i - 1, n); }
  }

  /** No ten consecutive months are longer than 306 days. */
  lemma TenMonths(m: Month)
    ensures DaysBefore(m, 10) <= 306
  {
    DaysBeforeSplit(m, 5, 5);
    DaysBeforeBound(m, 5);
    DaysBeforeBound(m.Back(5), 5);
    FiveLongest(m.number);
    FiveLongest(m.Back(5).number);
  }

  /** Up to eleven steps of 28 days land in that many different, consecutive months. */
  lemma ElevenStepsExact(m: Month, i: nat)
    requires i <= 11
    ensures Stepped(m, i) == m.Back(i)
  {
    if i > 0 {
      TenMonths(m);
      DaysBeforeGrows(m, 0, i);
      DaysBeforeGrows(m, i - 1, 10);
    }
    MonthsCrossed(Date(m, 1), 28 * i, i);
  }

  lemma {:induction false} NoFebruaryBefore(m: Month, n: nat)
    requires n < m.number - 2 || (m.number <= 2 && n <= m.number + 9)
    ensures DaysBefore(m, n) == LongestBefore(m.number, n)
    decreases n
  {
    if n > 0 { NoFebruaryBefore(m.Prev(), n - 1); }
  }

  /** From a February the twelfth step falls short: it lands in the same March as the eleventh. */
  lemma TwelfthStepFromFebruary(year: int)
    ensures Stepped(Month(year, 2), 12) == Month(year, 2).Back(11)
  {
    var m := Month(year, 2);
    NoFebruaryBefore(m, 10);
    NoFebruaryBefore(m, 11);
    assert LongestBefore(2, 10) == 306 && LongestBefore(2, 11) == 337;
    MonthsCrossed(Date(m, 1), 336, 11);
  }

  lemma {:induction false} BackIndex(m: Month, n: nat)
    ensures m.Back(n).Index() == m.Index() - n
    decreases n
  {
    if n > 0 { BackIndex(m.Prev(), n - 1); }
  }

  lemma {:induction false} BackPrev(m: Month, n: nat)
    ensures m.Back(n).Prev() == m.Back(n + 1)
    decreases n
  {
    if n > 0 { BackPrev(m.Prev(), n - 1); }
  }

  /** The running count tells months apart. */
  lemma IndexInjective(a: Month, b: Month)
    requires a.Index() == b.Index()
    ensures a == b
  {
  }

  // ----- The two month lists -----

  /** The n months that end with month m, oldest first. */
  function MonthsEndingAt(m: Month, n: nat): seq<Month>
  {
    seq(n, k requires 0 <= k < n => m.Back(n - 1 - k))
  }

  /** The n months a chart of length n reaches by steps of 28 days, oldest first. */
  function SteppedMonths(m: Month, n: nat): seq<Month>
  {
    seq(n, k requires 0 <= k < n => Stepped(m, n - 1 - k))
  }

  lemma StepsListMonths(m: Month, n: nat)
    requires n <= 12
    ensures SteppedMonths(m, n) == MonthsEndingAt(m, n)
  {
    forall k | 0 <= k < n ensures SteppedMonths(m, n)[k] == MonthsEndingAt(m, n)[k] {
      ElevenStepsExact(m, n - 1 - k);
    }
  }

  lemma StepsRepeatMarch(year: int, n: nat)
    requires n > 12
    ensures SteppedMonths(Month(year, 2), n) != MonthsEndingAt(Month(year, 2), n)
  {
    var m := Month(year, 2);
    TwelfthStepFromFebruary(year);
    BackIndex(m, 11);
    BackIndex(m, 12);
    assert SteppedMonths(m, n)[n - 13] == m.Back(11);
    assert MonthsEndingAt(m, n)[n - 13] == m.Back(12);
  }

  /** Stepping by 28 days lists the last n months, whatever the current month, up to n = 12 and
      for no longer list. */
  lemma TwelveIsTheLimit(n: nat)
    ensures (forall m :: SteppedMonths(m, n) == MonthsEndingAt(m, n)) <==> n <= 12
  {
    if n <= 12 {
      forall m ensures SteppedMonths(m, n) == MonthsEndingAt(m, n) {
        StepsListMonths(m, n);
      }
    } else {
      StepsRepeatMarch(2024, n);
    }
  }

  /** The billing charts' list, as the loop of `get_billing_analytics_charts` builds it. */
  method BillingMonths(now: ValidDate) returns (months: seq<ValidDate>)
    ensures |months| == 12
    ensures forall k | 0 <= k < 12 :: months[k] == Date(MonthsEndingAt(now.month, 12)[k], 1)
  {
    months := [];
    var i := 11;
    while i > -1
      invariant -1 <= i <= 11
      invariant |months| == 11 - i
      invariant forall k | 0 <= k < |months| :: months[k] == Date(Stepped(now.month, 11 - k), 1)
    {
      var first := MinusDays(now.(day := 1), i * 28).(day := 1);
      months := months + [first];
      i := i - 1;
    }
    StepsListMonths(now.month, 12);
    forall k | 0 <= k < 12 ensures months[k] == Date(MonthsEndingAt(now.month, 12)[k], 1) {
      assert SteppedMonths(now.month, 12)[k] == Stepped(now.month, 11 - k);
    }
  }

  /** `_months_back`: the last n months as (year, month) pairs, oldest first. */
  method MonthsBack(now: ValidDate, n: nat) returns (result: seq<(int, int)>)
    ensures |result| == n
    ensures forall k | 0 <= k < n ::
              result[k] == (MonthsEndingAt(now.month, n)[k].year, MonthsEndingAt(now.month, n)[k].number)
  {
    var newestFirst: seq<(int, int)> := [];
    var year, month := now.month.year, now.month.number as int;
    for i := 0 to n
      invariant 1 <= month <= 12 && now.month.Back(i) == Month(year, month)
      invariant |newestFirst| == i
      invariant forall k | 0 <= k < i :: newestFirst[k] == (now.month.Back(k).year, now.month.Back(k).number)
    {
      BackPrev(now.month, i);
      newestFirst := newestFirst + [(year, month)];
      month := month - 1;
      if month == 0 {
        month := 12;
        year := year - 1;
      }
    }
    result := seq(n, k requires 0 <= k < n => newestFirst[n - 1 - k]);
  }
}
