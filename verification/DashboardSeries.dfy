/** The monthly revenue and cash-flow series of the organisation dashboard. Amounts are in cents. */
module DashboardSeries {
  import opened Collections
  import opened Calendar
  import opened Buckets
  import opened BillingCharts

  datatype RentStatus = Confirmed | Completed | OtherStatus

  datatype RentPayment = RentPayment(organisation: nat, lease: nat, amount: int, status: RentStatus, paidAt: Option<ValidDate>)

  datatype Schedule = Schedule(organisation: nat, lease: nat, amountDue: int, lateFee: int, dueDate: ValidDate)

  datatype Issue = Issue(organisation: nat, property: nat, actualCost: Option<int>, resolvedAt: Option<ValidDate>)

  /** Whose rows a query may see: one organisation or all of them, and for caretakers and read-only
      landlords only certain properties and the leases on them. */
  datatype Scope = Scope(organisation: Option<nat>, properties: Option<set<nat>>, leases: Option<set<nat>>) {
    predicate SeesOrg(o: nat) { organisation.None? || organisation.value == o }

    predicate SeesLease(o: nat, l: nat) { SeesOrg(o) && (leases.None? || l in leases.value) }

    predicate SeesProperty(o: nat, p: nat) { SeesOrg(o) && (properties.None? || p in properties.value) }
  }

  /** Successful payments, dated by paid_at. */
  function Collected(ps: seq<RentPayment>, scope: Scope): seq<Entry>
  {
    Select(ps, (p: RentPayment) =>
      if scope.SeesLease(p.organisation, p.lease) && (p.status == Confirmed || p.status == Completed)
      then Some(Entry(p.paidAt, p.amount)) else None)
  }

  /** Rent scheduled on active leases, dated by due_date. */
  function Expected(ss: seq<Schedule>, active: set<nat>, scope: Scope): seq<Entry>
  {
    Select(ss, (s: Schedule) =>
      if scope.SeesLease(s.organisation, s.lease) && s.lease in active then Some(Entry(Some(s.dueDate), s.amountDue)) else None)
  }

  function LateFees(ss: seq<Schedule>, active: set<nat>, scope: Scope): seq<Entry>
  {
    Select(ss, (s: Schedule) =>
      if scope.SeesLease(s.organisation, s.lease) && s.lease in active && s.lateFee > 0
      then Some(Entry(Some(s.dueDate), s.lateFee)) else None)
  }

  /** Maintenance costs, dated by resolved_at. Only the property filter narrows this query further. */
  function Costs(issues: seq<Issue>, scope: Scope): seq<Entry>
  {
    Select(issues, (i: Issue) =>
      if scope.SeesProperty(i.organisation, i.property) && i.actualCost.Some?
      then Some(Entry(i.resolvedAt, i.actualCost.value)) else None)
  }

  /** A query without organisation sees all of them, and one without a list of leases or properties all of those. */
  predicate Sees(only: Option<nat>, o: nat, listed: Option<set<nat>>, item: nat)
  {
    (only == None || only == Some(o)) && (listed == None || item in listed.value)
  }

  /** One payment more adds its amount to what was collected in the month it was paid, if it is confirmed or
      completed and in sight, and changes nothing otherwise. */
  lemma PaymentCollected(before: seq<RentPayment>, p: RentPayment, behind: seq<RentPayment>, scope: Scope, m: Month)
    ensures MonthTotal(Collected(before + [p] + behind, scope), m)
            == MonthTotal(Collected(before, scope), m) + MonthTotal(Collected(behind, scope), m)
               + if Sees(scope.organisation, p.organisation, scope.leases, p.lease) && p.status in {Confirmed, Completed}
                    && p.paidAt.Some? && p.paidAt.value.month == m
                 then p.amount else 0
  {
    var entry := (p: RentPayment) =>
      if scope.SeesLease(p.organisation, p.lease) && (p.status == Confirmed || p.status == Completed)
      then Some(Entry(p.paidAt, p.amount)) else None;
    SelectRow(before, p, behind, entry);
    RowCounts(Select(before, entry), entry(p), Select(behind, entry), m);
  }

  /** One schedule more adds its rent, and its late fee if it has one, to what is expected in the month it is due, if
      its lease is active and in sight. */
  lemma ScheduleExpected(before: seq<Schedule>, s: Schedule, behind: seq<Schedule>, active: set<nat>, scope: Scope, m: Month)
    ensures var seen := Sees(scope.organisation, s.organisation, scope.leases, s.lease);
            var counts := seen && s.lease in active && s.dueDate.month == m;
            MonthTotal(Expected(before + [s] + behind, active, scope), m)
            == MonthTotal(Expected(before, active, scope), m) + MonthTotal(Expected(behind, active, scope), m)
               + (if counts then s.amountDue else 0)
            && MonthTotal(LateFees(before + [s] + behind, active, scope), m)
               == MonthTotal(LateFees(before, active, scope), m) + MonthTotal(LateFees(behind, active, scope), m)
                  + (if counts && s.lateFee > 0 then s.lateFee else 0)
  {
    var due := (s: Schedule) =>
      if scope.SeesLease(s.organisation, s.lease) && s.lease in active then Some(Entry(Some(s.dueDate), s.amountDue)) else None;
    var late := (s: Schedule) =>
      if scope.SeesLease(s.organisation, s.lease) && s.lease in active && s.lateFee > 0
      then Some(Entry(Some(s.dueDate), s.lateFee)) else None;
    SelectRow(before, s, behind, due);
    SelectRow(before, s, behind, late);
    RowCounts(Select(before, due), due(s), Select(behind, due), m);
    RowCounts(Select(before, late), late(s), Select(behind, late), m);
  }

  /** One maintenance issue more adds its cost to the month it was resolved, if it has a cost and its property is in
      sight. */
  lemma IssueCosts(before: seq<Issue>, i: Issue, behind: seq<Issue>, scope: Scope, m: Month)
    ensures MonthTotal(Costs(before + [i] + behind, scope), m)
            == MonthTotal(Costs(before, scope), m) + MonthTotal(Costs(behind, scope), m)
               + if Sees(scope.organisation, i.organisation, scope.properties, i.property) && i.actualCost.Some?
                    && i.resolvedAt.Some? && i.resolvedAt.value.month == m
                 then i.actualCost.value else 0
  {
    var entry := (i: Issue) =>
      if scope.SeesProperty(i.organisation, i.property) && i.actualCost.Some?
      then Some(Entry(i.resolvedAt, i.actualCost.value)) else None;
    SelectRow(before, i, behind, entry);
    RowCounts(Select(before, entry), entry(i), Select(behind, entry), m);
  }

  datatype RevenueRow = RevenueRow(month: string, collected: int, expected: int, lateFees: int)

  datatype CashRow = CashRow(month: string, inflow: int, outflow: int, net: int)

  /** The queries of one month. */
  function RevenueRowFor(ps: seq<RentPayment>, ss: seq<Schedule>, active: set<nat>, scope: Scope, m: Month): RevenueRow
  {
    RevenueRow(Label(m), MonthTotal(Collected(ps, scope), m), MonthTotal(Expected(ss, active, scope), m),
               MonthTotal(LateFees(ss, active, scope), m))
  }

  function CashRowFor(ps: seq<RentPayment>, issues: seq<Issue>, scope: Scope, m: Month): CashRow
  {
    var inflow := MonthTotal(Collected(ps, scope), m);
    var outflow := MonthTotal(Costs(issues, scope), m);
    CashRow(Label(m), inflow, outflow, inflow - outflow)
  }

  lemma RevenueColumns(ps: seq<RentPayment>, ss: seq<Schedule>, active: set<nat>, scope: Scope, m: Month, rows: seq<RevenueRow>)
    requires forall k | 0 <= k < |rows| :: rows[k] == RevenueRowFor(ps, ss, active, scope, MonthsEndingAt(m, |rows|)[k])
    ensures Sum(Column(rows, (r: RevenueRow) => r.collected)) == WindowTotal(Collected(ps, scope), m, |rows|)
    ensures Sum(Column(rows, (r: RevenueRow) => r.expected)) == WindowTotal(Expected(ss, active, scope), m, |rows|)
    ensures Sum(Column(rows, (r: RevenueRow) => r.lateFees)) == WindowTotal(LateFees(ss, active, scope), m, |rows|)
  {
    assert Column(rows, (r: RevenueRow) => r.collected) == MonthlyTotals(Collected(ps, scope), m, |rows|);
    assert Column(rows, (r: RevenueRow) => r.expected) == MonthlyTotals(Expected(ss, active, scope), m, |rows|);
    assert Column(rows, (r: RevenueRow) => r.lateFees) == MonthlyTotals(LateFees(ss, active, scope), m, |rows|);
    BucketsConserve(Collected(ps, scope), m, |rows|);
    BucketsConserve(Expected(ss, active, scope), m, |rows|);
    BucketsConserve(LateFees(ss, active, scope), m, |rows|);
  }

  /** The loop that both series share: one row per month, oldest first. */
  method RowPerMonth<R>(now: ValidDate, n: nat, row: Month -> R) returns (result: seq<R>)
    ensures |result| == n
    ensures forall k | 0 <= k < n :: result[k] == row(MonthsEndingAt(now.month, n)[k])
  {
    var months := MonthsBack(now, n);
    result := [];
    for i := 0 to n
      invariant |result| == i
      invariant forall k | 0 <= k < i :: result[k] == row(MonthsEndingAt(now.month, n)[k])
    {
      var (year, month) := months[i];
      result := result + [row(Month(year, month))];
    }
  }

  /** `get_revenue_series`: one row per month, and every column adds up to its whole window. */
  method RevenueSeries(ps: seq<RentPayment>, ss: seq<Schedule>, active: set<nat>, scope: Scope, now: ValidDate, n: nat)
    returns (result: seq<RevenueRow>)
    ensures |result| == n
    ensures forall k | 0 <= k < n :: result[k] == RevenueRowFor(ps, ss, active, scope, MonthsEndingAt(now.month, n)[k])
    ensures Sum(Column(result, (r: RevenueRow) => r.collected)) == WindowTotal(Collected(ps, scope), now.month, n)
    ensures Sum(Column(result, (r: RevenueRow) => r.expected)) == WindowTotal(Expected(ss, active, scope), now.month, n)
    ensures Sum(Column(result, (r: RevenueRow) => r.lateFees)) == WindowTotal(LateFees(ss, active, scope), now.month, n)
  {
    result := RowPerMonth(now, n, m => RevenueRowFor(ps, ss, active, scope, m));
    RevenueColumns(ps, ss, active, scope, now.month, result);
  }

  lemma {:induction false} SumOfDifferences(a: seq<int>, b: seq<int>, c: seq<int>)
    requires |a| == |b| == |c| && forall k | 0 <= k < |a| :: c[k] == a[k] - b[k]
    ensures Sum(c) == Sum(a) - Sum(b)
  {
    if a != [] { SumOfDifferences(a[1..], b[1..], c[1..]); }
  }

  /** `get_cashflow_series`: the net figures add up to what came in less what was spent in the window. */
  method CashflowSeries(ps: seq<RentPayment>, issues: seq<Issue>, scope: Scope, now: ValidDate, n: nat)
    returns (result: seq<CashRow>)
    ensures |result| == n
    ensures forall k | 0 <= k < n :: result[k] == CashRowFor(ps, issues, scope, MonthsEndingAt(now.month, n)[k])
    ensures Sum(Column(result, (r: CashRow) => r.net))
            == WindowTotal(Collected(ps, scope), now.month, n) - WindowTotal(Costs(issues, scope), now.month, n)
  {
    result := RowPerMonth(now, n, m => CashRowFor(ps, issues, scope, m));
    SumOfDifferences(MonthlyTotals(Collected(ps, scope), now.month, n), MonthlyTotals(Costs(issues, scope), now.month, n),
                     Column(result, (r: CashRow) => r.net));
    BucketsConserve(Collected(ps, scope), now.month, n);
    BucketsConserve(Costs(issues, scope), now.month, n);
  }
}
