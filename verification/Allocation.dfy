/** Distributing a payment over a lease's rent schedules, oldest first, and taking it back. Amounts
    are in cents; the schedules stand in order of their due dates. */
module Allocation {
  import opened Collections

  datatype ScheduleStatus = Pending | Paid | Overdue | Waived

  datatype Schedule = Schedule(due: int, lateFee: int, paid: int, status: ScheduleStatus, paidAt: Option<int>)

  /** What a payment can still settle on a schedule. */
  function Debt(s: Schedule): nat
  {
    var balance := s.due + s.lateFee - s.paid;
    if (s.status == Pending || s.status == Overdue) && balance > 0 then balance else 0
  }

  function Debts(ss: seq<Schedule>): nat
  {
    if ss == [] then 0 else Debt(ss[0]) + Debts(ss[1..])
  }

  /** What the loop applies to one schedule when `remaining` is left. */
  function Applied(s: Schedule, remaining: int): nat
  {
    if remaining > 0 then Min(Debt(s), remaining) else 0
  }

  function Credited(s: Schedule, amount: nat, now: int): Schedule
  {
    if amount == 0 then s
    else
      var t := s.(paid := s.paid + amount);
      if t.paid >= t.due + t.lateFee then t.(status := Paid, paidAt := Some(now)) else t
  }

  /** The amount applied to each schedule in turn. */
  function Allocations(ss: seq<Schedule>, amount: int): (xs: seq<nat>)
    ensures |xs| == |ss|
  {
    if ss == [] then [] else [Applied(ss[0], amount)] + Allocations(ss[1..], amount - Applied(ss[0], amount))
  }

  function Leftover(ss: seq<Schedule>, amount: int): int
  {
    if ss == [] then amount else Leftover(ss[1..], amount - Applied(ss[0], amount))
  }

  /** The schedules after a payment. */
  function Allocated(ss: seq<Schedule>, amount: int, now: int): (r: seq<Schedule>)
    ensures |r| == |ss|
  {
    if ss == [] then []
    else [Credited(ss[0], Applied(ss[0], amount), now)] + Allocated(ss[1..], amount - Applied(ss[0], amount), now)
  }

  lemma {:induction false} AllocatedAt(ss: seq<Schedule>, amount: int, now: int, i: nat)
    requires i < |ss|
    ensures Allocated(ss, amount, now)[i] == Credited(ss[i], Allocations(ss, amount)[i], now)
    ensures Allocations(ss, amount)[i] <= Debt(ss[i])
  {
    if i > 0 { AllocatedAt(ss[1..], amount - Applied(ss[0], amount), now, i - 1); }
  }

  // ----- Where the money goes -----

  /** Oldest first: a schedule gets what the debts before it leave over, up to its own debt. */
  lemma {:induction false} OldestFirst(ss: seq<Schedule>, amount: nat, i: nat)
    requires i < |ss|
    ensures Allocations(ss, amount)[i] == if amount <= Debts(ss[..i]) then 0 else Min(Debt(ss[i]), amount - Debts(ss[..i]))
  {
    if i > 0 {
      var x := Applied(ss[0], amount);
      OldestFirst(ss[1..], amount - x, i - 1);
      assert ss[..i][0] == ss[0] && ss[..i][1..] == ss[1..][..i - 1];
    }
  }

  /** What is left over is what exceeds all the debts. */
  lemma {:induction false} LeftoverIsExcess(ss: seq<Schedule>, amount: nat)
    ensures Leftover(ss, amount) == if amount <= Debts(ss) then 0 else amount - Debts(ss)
  {
    if ss != [] { LeftoverIsExcess(ss[1..], amount - Applied(ss[0], amount)); }
  }

  /** Every cent is applied to a schedule or left over. */
  lemma {:induction false} AllocationConserves(ss: seq<Schedule>, amount: int)
    ensures Sum(Allocations(ss, amount)) + Leftover(ss, amount) == amount
  {
    if ss != [] {
      AllocationConserves(ss[1..], amount - Applied(ss[0], amount));
      assert Allocations(ss, amount)[1..] == Allocations(ss[1..], amount - Applied(ss[0], amount));
    }
  }

  lemma {:induction false} NothingLeft(ss: seq<Schedule>, amount: int)
    requires ss == [] || amount <= 0
    ensures Leftover(ss, amount) == amount && forall i | 0 <= i < |ss| :: Allocations(ss, amount)[i] == 0
  {
    if ss != [] { NothingLeft(ss[1..], amount); }
  }

  lemma AllocatedCons(s: Schedule, rest: seq<Schedule>, amount: int, now: int)
    ensures var x := Applied(s, amount);
            Allocated([s] + rest, amount, now) == [Credited(s, x, now)] + Allocated(rest, amount - x, now)
            && Leftover([s] + rest, amount) == Leftover(rest, amount - x)
  {
    assert ([s] + rest)[1..] == rest;
  }

  lemma CreditTwice(s: Schedule, a: nat, b: nat, now: int)
    ensures var x := Applied(s, a);
            var t := Credited(s, x, now);
            var y := Applied(t, b);
            Credited(t, y, now) == Credited(s, Applied(s, a + b), now)
            && x + y <= a + b && a + b - Applied(s, a + b) == (a - x) + (b - y)
  {
  }

  /** Paying in two instalments leaves the schedules, and the total left over, as one payment would. */
  lemma {:induction false} InstalmentsAddUp(ss: seq<Schedule>, a: nat, b: nat, now: int)
    ensures Allocated(Allocated(ss, a, now), b, now) == Allocated(ss, a + b, now)
    ensures Leftover(ss, a) + Leftover(Allocated(ss, a, now), b) == Leftover(ss, a + b)
    decreases |ss|
  {
    if ss != [] {
      var s, rest := ss[0], ss[1..];
      assert ss == [s] + rest;
      var x := Applied(s, a);
      var t := Credited(s, x, now);
      var y := Applied(t, b);
      CreditTwice(s, a, b, now);
      AllocatedCons(s, rest, a, now);
      AllocatedCons(s, rest, a + b, now);
      AllocatedCons(t, Allocated(rest, a - x, now), b, now);
      InstalmentsAddUp(rest, a - x, b - y, now);
    }
  }

  // ----- Which schedules a payment reaches -----

  /** What is open on the schedules that are still to be paid: pending and overdue ones. */
  function OpenBalance(ss: seq<Schedule>): nat
  {
    if ss == [] then 0
    else
      var s := ss[0];
      (if (s.status == Pending || s.status == Overdue) && s.due + s.lateFee > s.paid then s.due + s.lateFee - s.paid else 0)
      + OpenBalance(ss[1..])
  }

  lemma {:induction false} DebtsAreOpen(ss: seq<Schedule>)
    ensures Debts(ss) == OpenBalance(ss)
  {
    if ss != [] { DebtsAreOpen(ss[1..]); }
  }

  /** A schedule that is paid, waived or has nothing open is left exactly as it was. One that is pending or
      overdue receives what the open balances before it leave of the payment, up to its own; when that
      settles it, it is paid now, and otherwise only the amount changes. */
  lemma AllocatedExactly(ss: seq<Schedule>, amount: nat, now: int, i: nat)
    requires i < |ss|
    ensures var (s, t) := (ss[i], Allocated(ss, amount, now)[i]);
            var open, left := s.due + s.lateFee - s.paid, amount - OpenBalance(ss[..i]);
            if s.status == Paid || s.status == Waived || open <= 0 || left <= 0 then t == s
            else if left >= open then t == s.(paid := s.paid + open, status := Paid, paidAt := Some(now))
            else t == s.(paid := s.paid + left)
  {
    AllocatedAt(ss, amount, now, i);
    OldestFirst(ss, amount, i);
    DebtsAreOpen(ss[..i]);
  }

  /** What is returned is what all open balances together leave of the payment. */
  lemma LeftoverExactly(ss: seq<Schedule>, amount: nat)
    ensures Leftover(ss, amount) == if amount <= OpenBalance(ss) then 0 else amount - OpenBalance(ss)
  {
    LeftoverIsExcess(ss, amount);
    DebtsAreOpen(ss);
  }

  // ----- Taking it back -----

  /** Taking an amount off a schedule again. */
  function TakenOff(s: Schedule, amount: nat): Schedule
  {
    var t := s.(paid := if s.paid - amount > 0 then s.paid - amount else 0);
    if t.status == Paid then t.(status := Pending, paidAt := None) else t
  }

  /** `reverse_allocations` on one schedule; amount 0 stands for no allocation of the payment. */
  function Reversed(s: Schedule, amount: nat): Schedule
  {
    if amount == 0 then s else TakenOff(s, amount)
  }

  function ReversedAll(ss: seq<Schedule>, xs: seq<nat>): (r: seq<Schedule>)
    requires |xs| == |ss|
    ensures |r| == |ss|
  {
    seq(|ss|, i requires 0 <= i < |ss| => Reversed(ss[i], xs[i]))
  }

  lemma ReverseOne(s: Schedule, x: nat, now: int)
    requires s.paid >= 0 && x <= Debt(s)
    ensures var back := Reversed(Credited(s, x, now), x);
            back.paid == s.paid
            && (back == s <==> (x > 0 && x == Debt(s) ==> s.status == Pending && s.paidAt == None))
            && (Reversed(back, x) == back <==> (x > 0 ==> s.paid == 0))
  {
  }

  /** Does a payment of this amount reach schedule i, and does it settle it? */
  predicate Reaches(ss: seq<Schedule>, amount: int, i: nat)
    requires i < |ss|
  {
    Debt(ss[i]) > 0 && Debts(ss[..i]) < amount
  }

  predicate Settles(ss: seq<Schedule>, amount: int, i: nat)
    requires i < |ss|
  {
    Debt(ss[i]) > 0 && Debts(ss[..i]) + Debt(ss[i]) <= amount
  }

  lemma ReachedWhen(ss: seq<Schedule>, amount: int, i: nat)
    requires i < |ss|
    ensures Allocations(ss, amount)[i] > 0 <==> Reaches(ss, amount, i)
    ensures Allocations(ss, amount)[i] > 0 && Allocations(ss, amount)[i] == Debt(ss[i]) <==> Settles(ss, amount, i)
  {
    if amount >= 0 { OldestFirst(ss, amount, i); } else { NothingLeft(ss, amount); }
  }

  /** Reversing a payment restores every amount paid; it restores the schedules altogether exactly if
      none that the payment settles had been overdue or carried a payment date before. */
  lemma ReverseUndoesIff(ss: seq<Schedule>, amount: int, now: int)
    requires forall s <- ss :: s.paid >= 0
    ensures var xs := Allocations(ss, amount);
            var back := ReversedAll(Allocated(ss, amount, now), xs);
            (forall i | 0 <= i < |ss| :: back[i].paid == ss[i].paid)
            && (back == ss <==>
                forall i | 0 <= i < |ss| && Settles(ss, amount, i) :: ss[i].status == Pending && ss[i].paidAt == None)
  {
    var xs := Allocations(ss, amount);
    var back := ReversedAll(Allocated(ss, amount, now), xs);
    forall i | 0 <= i < |ss|
      ensures back[i].paid == ss[i].paid
      ensures back[i] == ss[i] <==> (Settles(ss, amount, i) ==> ss[i].status == Pending && ss[i].paidAt == None)
    {
      assert ss[i] in ss;
      AllocatedAt(ss, amount, now, i);
      ReachedWhen(ss, amount, i);
      ReverseOne(ss[i], xs[i], now);
    }
  }

  /** An overdue schedule that is paid off comes back as merely pending. */
  lemma ReverseForgetsOverdue()
    ensures var ss := [Schedule(100, 0, 0, Overdue, None)];
            ReversedAll(Allocated(ss, 100, 7), Allocations(ss, 100)) == [Schedule(100, 0, 0, Pending, None)]
  {
    var ss := [Schedule(100, 0, 0, Overdue, None)];
    AllocatedAt(ss, 100, 7, 0);
    OldestFirst(ss, 100, 0);
    assert Debts(ss[..0]) == 0;
  }

  /** Of the bare function: the allocation rows keep their amounts, so a second call would take the money
      off again. It changes nothing exactly if every schedule that the payment reaches had nothing paid on
      it before. */
  lemma ReverseTwiceIff(ss: seq<Schedule>, amount: int, now: int)
    requires forall s <- ss :: s.paid >= 0
    ensures var xs := Allocations(ss, amount);
            var back := ReversedAll(Allocated(ss, amount, now), xs);
            ReversedAll(back, xs) == back <==> forall i | 0 <= i < |ss| && Reaches(ss, amount, i) :: ss[i].paid == 0
  {
    var xs := Allocations(ss, amount);
    var back := ReversedAll(Allocated(ss, amount, now), xs);
    var again := ReversedAll(back, xs);
    forall i | 0 <= i < |ss| ensures again[i] == back[i] <==> (Reaches(ss, amount, i) ==> ss[i].paid == 0) {
      assert ss[i] in ss;
      AllocatedAt(ss, amount, now, i);
      ReachedWhen(ss, amount, i);
      ReverseOne(ss[i], xs[i], now);
    }
  }

  /** With 40 paid before, a second call on a payment of 60 takes those 40 off as well. */
  lemma ReverseTwiceTakesMore()
    ensures var ss := [Schedule(100, 0, 40, Pending, None)];
            var back := ReversedAll(Allocated(ss, 60, 7), Allocations(ss, 60));
            back == ss && ReversedAll(back, Allocations(ss, 60))[0].paid == 0
  {
    var ss := [Schedule(100, 0, 40, Pending, None)];
    AllocatedAt(ss, 60, 7, 0);
    OldestFirst(ss, 60, 0);
    assert Debts(ss[..0]) == 0;
  }

  // ----- The loops, on the rows in place -----

  /** The loop has dealt with the first |xs| schedules. */
  ghost predicate Progress(before: seq<Schedule>, rows: seq<Schedule>, xs: seq<nat>, left: int, amount: int, now: int)
  {
    && |rows| == |before| && |xs| <= |before|
    && xs + Allocations(before[|xs|..], left) == Allocations(before, amount)
    && Leftover(before[|xs|..], left) == Leftover(before, amount)
    && (forall j | 0 <= j < |xs| :: rows[j] == Credited(before[j], xs[j], now))
    && (forall j | |xs| <= j < |rows| :: rows[j] == before[j])
  }

  lemma ProgressStart(before: seq<Schedule>, amount: int, now: int)
    ensures Progress(before, before, [], amount, amount, now)
  {
    assert before[0..] == before && [] + Allocations(before, amount) == Allocations(before, amount);
  }

  lemma ProgressStep(before: seq<Schedule>, rows: seq<Schedule>, xs: seq<nat>, left: int, amount: int, now: int)
    requires Progress(before, rows, xs, left, amount, now) && |xs| < |before|
    ensures var i, x := |xs|, Applied(rows[|xs|], left);
            Progress(before, rows[i := Credited(rows[i], x, now)], xs + [x], left - x, amount, now)
  {
    var i, x := |xs|, Applied(rows[|xs|], left);
    var rest := before[i..];
    assert rest[1..] == before[i + 1..];
    assert Allocations(rest, left) == [x] + Allocations(before[i + 1..], left - x);
    assert (xs + [x]) + Allocations(before[i + 1..], left - x) == xs + ([x] + Allocations(before[i + 1..], left - x));
  }

  lemma ProgressDone(before: seq<Schedule>, rows: seq<Schedule>, xs: seq<nat>, left: int, amount: int, now: int)
    requires Progress(before, rows, xs, left, amount, now) && (|xs| == |before| || left <= 0)
    ensures var all := xs + seq(|before| - |xs|, _ => 0);
            all == Allocations(before, amount) && left == Leftover(before, amount) && rows == Allocated(before, amount, now)
            && Sum(all) + left == amount
  {
    var rest := before[|xs|..];
    NothingLeft(rest, left);
    var zeros: seq<nat> := seq(|before| - |xs|, _ => 0);
    assert zeros == Allocations(rest, left);
    AllocationConserves(before, amount);
    forall j | 0 <= j < |rows| ensures rows[j] == Allocated(before, amount, now)[j] {
      AllocatedAt(before, amount, now, j);
    }
  }

  /** The schedules of one lease, oldest due date first. */
  class LeaseSchedules {
    var rows: seq<Schedule>

    constructor (rows: seq<Schedule>)
      ensures this.rows == rows
    {
      this.rows := rows;
    }

    /** The body of the loop for one schedule. */
    method CreditRow(i: nat, remaining: int, now: int) returns (x: nat)
      requires i < |rows| && remaining > 0
      modifies this
      ensures x == Applied(old(rows)[i], remaining) && rows == old(rows)[i := Credited(old(rows)[i], x, now)]
    {
      var s := rows[i];
      var balance := s.due + s.lateFee - s.paid;
      if (s.status != Pending && s.status != Overdue) || balance <= 0 { return 0; }
      x := Min(balance, remaining);
      s := s.(paid := s.paid + x);
      if s.paid >= s.due + s.lateFee {
        s := s.(status := Paid, paidAt := Some(now));
      }
      rows := rows[i := s];
    }

    /** The loop of `allocate_payment`, up to the break or the end. */
    method CreditRows(amount: int, now: int) returns (xs: seq<nat>, leftover: int)
      modifies this
      ensures Progress(old(rows), rows, xs, leftover, amount, now) && (|xs| == |rows| || leftover <= 0)
    {
      ghost var before := rows;
      leftover := amount;
      xs := [];
      ProgressStart(before, amount, now);
      while |xs| < |rows| && leftover > 0
        invariant Progress(before, rows, xs, leftover, amount, now)
      {
        ProgressStep(before, rows, xs, leftover, amount, now);
        var x := CreditRow(|xs|, leftover, now);
        xs := xs + [x];
        leftover := leftover - x;
      }
    }

    /** `allocate_payment`: xs are the amounts of the allocation rows it creates, 0 where it creates none. */
    method AllocatePayment(amount: int, now: int) returns (xs: seq<nat>, leftover: int)
      modifies this
      ensures xs == Allocations(old(rows), amount) && leftover == Leftover(old(rows), amount)
      ensures rows == Allocated(old(rows), amount, now)
      ensures Sum(xs) + leftover == amount
    {
      xs, leftover := CreditRows(amount, now);
      ProgressDone(old(rows), rows, xs, leftover, amount, now);
      xs := xs + seq(|rows| - |xs|, _ => 0);
    }

    /** Takes an amount off one schedule; one that was paid is pending again. */
    method TakeOff(i: nat, amount: nat)
      requires i < |rows|
      modifies this
      ensures rows == old(rows)[i := TakenOff(old(rows)[i], amount)]
    {
      var s := rows[i];
      s := s.(paid := if s.paid - amount > 0 then s.paid - amount else 0);
      if s.status == Paid {
        s := s.(status := Pending, paidAt := None);
      }
      rows := rows[i := s];
    }

    /** `reverse_allocations` */
    method ReverseAllocations(xs: seq<nat>)
      requires |xs| == |rows|
      modifies this
      ensures rows == ReversedAll(old(rows), xs)
    {
      for i := 0 to |xs|
        invariant |rows| == |xs|
        invariant forall j | i <= j < |rows| :: rows[j] == old(rows)[j]
        invariant forall j | 0 <= j < i :: rows[j] == Reversed(old(rows)[j], xs[j])
      {
        if xs[i] != 0 { TakeOff(i, xs[i]); }
      }
    }
  }
}
