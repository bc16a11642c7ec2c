/** The time series of the superadmin billing dashboard: verified revenue and new and cancelled
    subscriptions for each of the last twelve months. */
module BillingCharts {
  import opened Collections
  import opened Calendar
  import opened Buckets
  import Decimal

  datatype PaymentStatus = Pending | PendingVerification | Verified | Rejected | Refunded

  datatype SubscriptionPayment = SubscriptionPayment(
    amount: int, currency: string, status: PaymentStatus, verifiedAt: Option<ValidDate>)

  datatype Subscription = Subscription(billingCycle: string, createdAt: ValidDate, cancelledAt: Option<ValidDate>)

  // ----- Labels: strftime("%b %Y") -----

  function MonthAbbr(n: MonthNumber): string
  {
    match n
    case 1 => "Jan" case 2 => "Feb" case 3 => "Mar" case 4 => "Apr"
    case 5 => "May" case 6 => "Jun" case 7 => "Jul" case 8 => "Aug"
    case 9 => "Sep" case 10 => "Oct" case 11 => "Nov" case 12 => "Dec"
  }

  function Label(m: Month): string
  {
    MonthAbbr(m.number) + " " + Decimal.IntText(m.year)
  }

  lemma AbbrInjective(a: MonthNumber, b: MonthNumber)
    ensures |MonthAbbr(a)| == 3
    ensures MonthAbbr(a) == MonthAbbr(b) ==> a == b
  {
    if MonthAbbr(a) == MonthAbbr(b) {
      assert MonthAbbr(a)[0] == MonthAbbr(b)[0];
      assert MonthAbbr(a)[1] == MonthAbbr(b)[1];
      assert MonthAbbr(a)[2] == MonthAbbr(b)[2];
    }
  }

  /** No two months share a label, so a dict keyed by labels keeps every month apart. */
  lemma LabelInjective(a: Month, b: Month)
    requires Label(a) == Label(b)
    ensures a == b
  {
    AbbrInjective(a.number, b.number);
    AbbrInjective(b.number, a.number);
    assert Label(a)[..3] == MonthAbbr(a.number) && Label(b)[..3] == MonthAbbr(b.number);
    assert Label(a)[4..] == Decimal.IntText(a.year) && Label(b)[4..] == Decimal.IntText(b.year);
    Decimal.IntTextInjective(a.year, b.year);
  }

  // ----- The grouped query and its dict -----

  /** The months of the groups that `WHERE date >= :start GROUP BY DATE_TRUNC('month', date)` returns. */
  function Groups(es: seq<Entry>, start: ValidDate): set<Month>
  {
    set e | e in es && e.Since(start) :: e.date.value.month
  }

  ghost predicate Injective(name: Month -> string)
  {
    forall a, b :: name(a) == name(b) ==> a == b
  }

  /** The dict comprehension `{name(g): total(g) for g in groups}`. */
  function Keyed(groups: set<Month>, name: Month -> string, total: Month -> int): map<string, int>
    requires Injective(name)
  {
    map g | g in groups :: name(g) := total(g)
  }

  lemma KeyedEntry(groups: set<Month>, name: Month -> string, total: Month -> int, m: Month)
    requires Injective(name)
    ensures name(m) in Keyed(groups, name, total) <==> m in groups
    ensures m in groups ==> Keyed(groups, name, total)[name(m)] == total(m)
  {
  }

  lemma LabelsInjective()
    ensures Injective(Label)
  {
    forall a, b | Label(a) == Label(b) ensures a == b { LabelInjective(a, b); }
  }

  /** The dict from label to total that is built from the groups. */
  function TotalsByLabel(es: seq<Entry>, start: ValidDate): map<string, int>
  {
    LabelsInjective();
    Keyed(Groups(es, start), Label, (m: Month) => GroupTotal(es, start, m))
  }

  /** `totals.get(key, 0)` */
  function Get(totals: map<string, int>, key: string): int
  {
    if key in totals then totals[key] else 0
  }

  /** Looking a month up by its label finds that month's total and no other's. */
  lemma GetIsMonthTotal(es: seq<Entry>, start: ValidDate, m: Month)
    requires start.day == 1 && start.month.Index() <= m.Index()
    ensures Get(TotalsByLabel(es, start), Label(m)) == MonthTotal(es, m)
  {
    LabelsInjective();
    KeyedEntry(Groups(es, start), Label, (x: Month) => GroupTotal(es, start, x), m);
    SinceKeepsMonth(es, start, m);
    if m !in Groups(es, start) {
      assert forall e <- es :: !(e.Since(start) && e.In(m));
      NoEntryNoTotal(es, start, m);
    }
  }

  // ----- The queries -----

  /** `WHERE status = 'verified' AND currency = 'UGX'`, dated by verified_at. */
  function VerifiedUgx(payments: seq<SubscriptionPayment>): seq<Entry>
  {
    Select(payments, (p: SubscriptionPayment) =>
      if p.status == Verified && p.currency == "UGX" then Some(Entry(p.verifiedAt, p.amount)) else None)
  }

  /** `WHERE billing_cycle != 'none'`, dated by created_at. */
  function Created(subs: seq<Subscription>): seq<Entry>
  {
    Select(subs, (s: Subscription) => if s.billingCycle != "none" then Some(Entry(Some(s.createdAt), 1)) else None)
  }

  /** `WHERE cancelled_at IS NOT NULL`, dated by cancelled_at. */
  function Cancelled(subs: seq<Subscription>): seq<Entry>
  {
    Select(subs, (s: Subscription) => if s.cancelledAt.Some? then Some(Entry(s.cancelledAt, 1)) else None)
  }

  lemma {:induction false} MonthTotalAppend(a: seq<Entry>, b: seq<Entry>, m: Month)
    ensures MonthTotal(a + b, m) == MonthTotal(a, m) + MonthTotal(b, m)
  {
    if a == [] {
      assert a + b == b;
    } else {
      assert (a + b)[1..] == a[1..] + b;
      MonthTotalAppend(a[1..], b, m);
    }
  }

  lemma TotalOne(e: Entry, keep: Entry -> bool)
    ensures Total([e], keep) == if keep(e) then e.amount else 0
  {
    assert Total([e][1..], keep) == 0;
  }

  /** One payment more, wherever it stands in the table, adds its amount to the bar of the month in which it was
      verified, if it was verified and is in UGX, and changes nothing otherwise. */
  lemma PaymentCounts(before: seq<SubscriptionPayment>, p: SubscriptionPayment, behind: seq<SubscriptionPayment>, m: Month)
    ensures MonthTotal(VerifiedUgx(before + [p] + behind), m)
            == MonthTotal(VerifiedUgx(before), m) + MonthTotal(VerifiedUgx(behind), m)
               + if p.status == Verified && p.currency == "UGX" && p.verifiedAt.Some? && p.verifiedAt.value.month == m
                 then p.amount else 0
  {
    var entry := (p: SubscriptionPayment) =>
      if p.status == Verified && p.currency == "UGX" then Some(Entry(p.verifiedAt, p.amount)) else None;
    SelectRow(before, p, behind, entry);
    RowCounts(Select(before, entry), entry(p), Select(behind, entry), m);
  }

  lemma RowCounts(before: seq<Entry>, e: Option<Entry>, behind: seq<Entry>, m: Month)
    ensures MonthTotal(before + AsSeq(e) + behind, m)
            == MonthTotal(before, m) + MonthTotal(behind, m) + if e.Some? && e.value.In(m) then e.value.amount else 0
  {
    MonthTotalAppend(before + AsSeq(e), behind, m);
    MonthTotalAppend(before, AsSeq(e), m);
    if e.Some? { TotalOne(e.value, (x: Entry) => x.In(m)); }
  }

  /** One subscription more counts as created in the month it was created, unless it has no billing cycle, and as
      cancelled in the month it was cancelled, if it was. */
  lemma SubscriptionCounts(before: seq<Subscription>, s: Subscription, behind: seq<Subscription>, m: Month)
    ensures MonthTotal(Created(before + [s] + behind), m)
            == MonthTotal(Created(before), m) + MonthTotal(Created(behind), m)
               + if s.billingCycle != "none" && s.createdAt.month == m then 1 else 0
    ensures MonthTotal(Cancelled(before + [s] + behind), m)
            == MonthTotal(Cancelled(before), m) + MonthTotal(Cancelled(behind), m)
               + if s.cancelledAt.Some? && s.cancelledAt.value.month == m then 1 else 0
  {
    var created := (s: Subscription) => if s.billingCycle != "none" then Some(Entry(Some(s.createdAt), 1)) else None;
    var cancelled := (s: Subscription) => if s.cancelledAt.Some? then Some(Entry(s.cancelledAt, 1)) else None;
    SelectRow(before, s, behind, created);
    SelectRow(before, s, behind, cancelled);
    RowCounts(Select(before, created), created(s), Select(behind, created), m);
    RowCounts(Select(before, cancelled), cancelled(s), Select(behind, cancelled), m);
  }

  /** Without rows every bar is 0. */
  lemma NoRowsNoBars(m: Month)
    ensures MonthTotal(VerifiedUgx([]), m) == MonthTotal(Created([]), m) == MonthTotal(Cancelled([]), m) == 0
  {
  }

  /** A label is the English abbreviation of the month and the year. */
  lemma LabelReads(year: int, number: MonthNumber)
    ensures Label(Month(year, number))
            == ["Jan", "Feb", "Mar", "Apr", "May", "Jun", "Jul", "Aug", "Sep", "Oct", "Nov", "Dec"][number - 1]
               + " " + Decimal.IntText(year)
  {
  }

  datatype GrowthRow = GrowthRow(month: string, created: int, cancelled: int)

  lemma WindowOrder(m: Month, n: nat, k: nat)
    requires k < n
    ensures MonthsEndingAt(m, n)[0].Index() <= MonthsEndingAt(m, n)[k].Index()
  {
    BackIndex(m, n - 1);
    BackIndex(m, n - 1 - k);
  }

  // ----- Conservation -----

  /** The bars of a chart, whichever rows it counts, add up to everything dated since its first
      month less what is dated after the current month. */
  lemma ChartConserves(es: seq<Entry>, now: Month)
    ensures Sum(MonthlyTotals(es, now, 12)) == SinceTotal(es, Date(now.Back(11), 1)) - LaterTotal(es, now)
  {
    BucketsConserve(es, now, 12);
    WindowAndLater(es, now, 12);
  }

  lemma {:induction false} LaterTotalSign(es: seq<Entry>, m: Month)
    requires forall e <- es :: e.amount > 0
    ensures LaterTotal(es, m) >= 0
    ensures LaterTotal(es, m) == 0 <==> forall e <- es :: !e.After(m)
  {
    if es != [] {
      LaterTotalSign(es[1..], m);
      assert forall e <- es :: e == es[0] || e in es[1..];
      assert es[0] in es && forall e <- es[1..] :: e in es;
    }
  }

  /** A chart shows everything since its first month exactly when nothing is totalled after the current
      month; with positive amounts, exactly when no row is dated there. */
  lemma ChartCompleteIff(es: seq<Entry>, now: Month)
    ensures Sum(MonthlyTotals(es, now, 12)) == SinceTotal(es, Date(now.Back(11), 1)) <==> LaterTotal(es, now) == 0
    ensures (forall e <- es :: e.amount > 0) ==> (LaterTotal(es, now) == 0 <==> forall e <- es :: !e.After(now))
  {
    ChartConserves(es, now);
    if forall e <- es :: e.amount > 0 { LaterTotalSign(es, now); }
  }

  /** Everything dated since the first month of the charts, less what is dated after the current one. */
  function ShownTotal(es: seq<Entry>, now: Month): int
  {
    SinceTotal(es, Date(now.Back(11), 1)) - LaterTotal(es, now)
  }

  lemma ColumnConserves<R>(rows: seq<R>, cell: R -> int, es: seq<Entry>, now: Month)
    requires |rows| == 12 && forall k | 0 <= k < 12 :: cell(rows[k]) == MonthTotal(es, MonthsEndingAt(now, 12)[k])
    ensures Sum(Column(rows, cell)) == ShownTotal(es, now)
  {
    assert Column(rows, cell) == MonthlyTotals(es, now, 12);
    ChartConserves(es, now);
  }

  // ----- The charts -----

  /** The `revenue_trend` and `subscription_growth` charts. */
  method Charts(payments: seq<SubscriptionPayment>, subs: seq<Subscription>, now: ValidDate)
    returns (revenue: seq<(string, int)>, growth: seq<GrowthRow>)
    ensures |revenue| == |growth| == 12
    ensures forall k | 0 <= k < 12 :: var m := MonthsEndingAt(now.month, 12)[k];
              revenue[k] == (Label(m), MonthTotal(VerifiedUgx(payments), m))
    ensures forall k | 0 <= k < 12 :: var m := MonthsEndingAt(now.month, 12)[k];
              growth[k] == GrowthRow(Label(m), MonthTotal(Created(subs), m), MonthTotal(Cancelled(subs), m))
    ensures Sum(Column(revenue, (r: (string, int)) => r.1)) == ShownTotal(VerifiedUgx(payments), now.month)
    ensures Sum(Column(growth, (r: GrowthRow) => r.created)) == ShownTotal(Created(subs), now.month)
    ensures Sum(Column(growth, (r: GrowthRow) => r.cancelled)) == ShownTotal(Cancelled(subs), now.month)
  {
    var months := BillingMonths(now);
    var start := months[0];
    var revMap := TotalsByLabel(VerifiedUgx(payments), start);
    var newMap := TotalsByLabel(Created(subs), start);
    var canMap := TotalsByLabel(Cancelled(subs), start);
    revenue := seq(12, k requires 0 <= k < 12 => (Label(months[k].month), Get(revMap, Label(months[k].month))));
    growth := seq(12, k requires 0 <= k < 12 =>
      GrowthRow(Label(months[k].month), Get(newMap, Label(months[k].month)), Get(canMap, Label(months[k].month))));
    forall k | 0 <= k < 12
      ensures Get(revMap, Label(months[k].month)) == MonthTotal(VerifiedUgx(payments), months[k].month)
      ensures Get(newMap, Label(months[k].month)) == MonthTotal(Created(subs), months[k].month)
      ensures Get(canMap, Label(months[k].month)) == MonthTotal(Cancelled(subs), months[k].month)
    {
      WindowOrder(now.month, 12, k);
      GetIsMonthTotal(VerifiedUgx(payments), start, months[k].month);
      GetIsMonthTotal(Created(subs), start, months[k].month);
      GetIsMonthTotal(Cancelled(subs), start, months[k].month);
    }
    ColumnConserves(revenue, (r: (string, int)) => r.1, VerifiedUgx(payments), now.month);
    ColumnConserves(growth, (r: GrowthRow) => r.created, Created(subs), now.month);
    ColumnConserves(growth, (r: GrowthRow) => r.cancelled, Cancelled(subs), now.month);
  }
}
