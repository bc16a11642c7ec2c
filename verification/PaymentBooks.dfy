/** The payments of one lease and the rent schedules they are spread over, from creation through
    confirmation to refund or rejection. Amounts are in cents. */
module PaymentBooks {
  import opened Collections
  import opened Transactions
  import opened PaymentStates
  import opened Allocation

  /** `applied[i]` is what the payment's allocation rows give to schedule i (0 beyond the end);
      `schedule` is the schedule that a client may name, which the allocation does not look at, and `key`
      the client's idempotency key. */
  datatype Payment = Payment(
    status: PaymentStatus, amount: nat, deposit: bool, schedule: Option<nat>, key: Option<string>, applied: seq<nat>)

  datatype Books = Books(rows: seq<Schedule>, payments: seq<Payment>)

  /** The statuses that other code than refunds and rejections moves payments to. */
  type Onward = s: PaymentStatus | s != Refunded && s != Rejected witness Completed

  datatype Request =
    | Create(amount: nat, deposit: bool, schedule: Option<nat>, key: Option<string>)
    | Record(amount: nat, deposit: bool, now: int)
    | Confirm(payment: nat, now: int)
    | Refund(payment: nat)
    | RefundByOrg(payment: nat)
    | Reject(payment: nat)
    | Move(payment: nat, to: Onward)
    /** Late fees, waivers and the overdue mark: anything about a schedule but what was paid. */
    | Adjust(index: nat, due: int, lateFee: int, mark: ScheduleStatus, paidAt: Option<int>)
    /** The next period of a rolling lease. */
    | Extend(due: int)

  // ----- Handlers -----

  function AppliedTo(p: Payment, i: nat): nat
  {
    if i < |p.applied| then p.applied[i] else 0
  }

  /** What the allocation rows give to each of n schedules. */
  function Padded(p: Payment, n: nat): (xs: seq<nat>)
    ensures |xs| == n
  {
    seq(n, i requires 0 <= i < n => AppliedTo(p, i))
  }

  /** The payment with further allocation rows. */
  function Plus(p: Payment, xs: seq<nat>): Payment
  {
    var n := if |xs| >= |p.applied| then |xs| else |p.applied|;
    p.(applied := seq(n, i requires 0 <= i < n => AppliedTo(p, i) + if i < |xs| then xs[i] else 0))
  }

  function WithStatus(b: Books, k: nat, s: PaymentStatus): Books
    requires k < |b.payments|
  {
    b.(payments := b.payments[k := b.payments[k].(status := s)])
  }

  /** Allocates payment k, unless it is a deposit. */
  function Allotted(b: Books, k: nat, now: int): Books
    requires k < |b.payments|
  {
    var p := b.payments[k];
    if p.deposit then b
    else Books(Allocation.Allocated(b.rows, p.amount, now), b.payments[k := Plus(p, Allocations(b.rows, p.amount))])
  }

  /** Takes the allocations of payment k off the schedules; the allocation rows stay. */
  function Unallotted(b: Books, k: nat): Books
    requires k < |b.payments|
  {
    b.(rows := ReversedAll(b.rows, Padded(b.payments[k], |b.rows|)))
  }

  predicate HasKey(b: Books, key: Option<string>)
  {
    key.Some? && exists k :: 0 <= k < |b.payments| && b.payments[k].key == key
  }

  /** `create_payment`: a key that is known already returns the payment there is. The empty key is not looked
      up, but the column is unique. */
  function Created(b: Books, r: Request): Outcome<Books>
    requires r.Create?
  {
    if HasKey(b, r.key) && r.key != Some("") then Returned(b)
    else if r.schedule.Some? && r.schedule.value >= |b.rows| then Raised(b, 404)
    else if r.schedule.Some? && b.rows[r.schedule.value].status == Waived then Raised(b, 400)
    else if HasKey(b, r.key) then Raised(b, 500)
    else Returned(b.(payments := b.payments + [Payment(Initiated, r.amount, r.deposit, r.schedule, r.key, [])]))
  }

  /** `record_manual_payment` */
  function Recorded(b: Books, r: Request): Outcome<Books>
    requires r.Record?
  {
    var b1 := b.(payments := b.payments + [Payment(Completed, r.amount, r.deposit, None, None, [])]);
    Returned(Allotted(b1, |b.payments|, r.now))
  }

  /** `confirm_payment` */
  function ConfirmedBooks(b: Books, k: nat, now: int): Outcome<Books>
  {
    if k >= |b.payments| then Raised(b, 404)
    else if b.payments[k].status in SUCCESSFUL then Raised(b, 400)
    else if !CanBeConfirmed(b.payments[k].status) then Raised(b, 400)
    else Returned(WithStatus(Allotted(b, k, now), k, Completed))
  }

  /** `refund_payment` */
  function RefundedBooks(b: Books, k: nat): Outcome<Books>
  {
    if k >= |b.payments| then Raised(b, 404)
    else if b.payments[k].status !in SUCCESSFUL then Raised(b, 400)
    else Returned(Unallotted(WithStatus(b, k, Refunded), k))
  }

  /** `refund_payment_by_org`: takes the whole amount off the schedule that the client named, if any. */
  function OrgRefundedBooks(b: Books, k: nat): Outcome<Books>
  {
    if k >= |b.payments| then Raised(b, 404)
    else if b.payments[k].status !in SUCCESSFUL then Raised(b, 400)
    else
      var (p, b1) := (b.payments[k], WithStatus(b, k, Refunded));
      if p.schedule.None? then Returned(b1)
      else if p.schedule.value >= |b.rows| then Raised(b1, 404)
      else Returned(b1.(rows := b.rows[p.schedule.value := TakenOff(b.rows[p.schedule.value], p.amount)]))
  }

  /** `reject_payment` */
  function RejectedBooks(b: Books, k: nat): Outcome<Books>
  {
    if k >= |b.payments| then Raised(b, 404)
    else if !CanBeRejected(b.payments[k].status) then Raised(b, 400)
    else if !Allowed(VALID_TRANSITIONS, b.payments[k].status, Rejected) then Raised(b, 400)
    else Returned(Unallotted(WithStatus(b, k, Rejected), k))
  }

  function MovedBooks(b: Books, k: nat, to: PaymentStatus): Outcome<Books>
  {
    if k >= |b.payments| then Raised(b, 404)
    else if !Allowed(VALID_TRANSITIONS, b.payments[k].status, to) then Raised(b, 400)
    else Returned(WithStatus(b, k, to))
  }

  function Adjusted(b: Books, r: Request): Outcome<Books>
    requires r.Adjust?
  {
    if r.index >= |b.rows| then Raised(b, 404)
    else Returned(b.(rows := b.rows[r.index := Schedule(r.due, r.lateFee, b.rows[r.index].paid, r.mark, r.paidAt)]))
  }

  function Extended(b: Books, due: int): Outcome<Books>
  {
    Returned(b.(rows := b.rows + [Schedule(due, 0, 0, ScheduleStatus.Pending, None)]))
  }

  function Handle(b: Books, r: Request): Outcome<Books>
  {
    match r
    case Create(_, _, _, _) => Created(b, r)
    case Record(_, _, _) => Recorded(b, r)
    case Confirm(k, now) => ConfirmedBooks(b, k, now)
    case Refund(k) => RefundedBooks(b, k)
    case RefundByOrg(k) => OrgRefundedBooks(b, k)
    case Reject(k) => RejectedBooks(b, k)
    case Move(k, to) => MovedBooks(b, k, to)
    case Adjust(_, _, _, _, _) => Adjusted(b, r)
    case Extend(due) => Extended(b, due)
  }

  function Step(b: Books, r: Request): Books
  {
    Settle(b, Handle(b, r))
  }

  function Run(b: Books, rs: seq<Request>): Books
    decreases |rs|
  {
    if rs == [] then b else Run(Step(b, rs[0]), rs[1..])
  }

  // ----- When requests go through, and what they do -----

  /** A confirmation goes through exactly for a payment on its way to completion; the payment is completed,
      and, unless it is a deposit, spread over the schedules. */
  lemma ConfirmAnswers(b: Books, k: nat, now: int)
    ensures Handle(b, Confirm(k, now)).Returned? <==>
            k < |b.payments|
            && b.payments[k].status in {Initiated, Predicted, Routed, PaymentStatus.Pending, Reconciled, PaymentStatus.Allocated}
    ensures Handle(b, Confirm(k, now)).Raised? ==>
              Handle(b, Confirm(k, now)) == Raised(b, if k >= |b.payments| then 404 else 400)
    ensures Handle(b, Confirm(k, now)).Returned? ==>
              var (p, after) := (b.payments[k], Handle(b, Confirm(k, now)).state);
              after.rows == (if p.deposit then b.rows else Allocation.Allocated(b.rows, p.amount, now))
              && |after.payments| == |b.payments|
              && after.payments == b.payments[k := p.(status := Completed, applied := after.payments[k].applied)]
              && (forall i | 0 <= i < |b.rows| ::
                    AppliedTo(after.payments[k], i) == AppliedTo(p, i) + after.rows[i].paid - b.rows[i].paid)
  {
    if Handle(b, Confirm(k, now)).Returned? && !b.payments[k].deposit {
      forall i | 0 <= i < |b.rows| { AllocatedPaid(b.rows, b.payments[k].amount, now, i); }
    }
  }

  /** Both refunds go through exactly for a successful payment; only `refund_payment_by_org` can fail
      otherwise, when the schedule that the client named is gone. */
  lemma RefundAnswers(b: Books, k: nat)
    ensures Handle(b, Refund(k)).Returned? <==> k < |b.payments| && b.payments[k].status in {Completed, Confirmed}
    ensures Handle(b, RefundByOrg(k)).Returned? <==>
            Handle(b, Refund(k)).Returned?
            && (b.payments[k].schedule.Some? ==> b.payments[k].schedule.value < |b.rows|)
    ensures Handle(b, Refund(k)).Returned? ==>
              Handle(b, Refund(k)).state.payments == b.payments[k := b.payments[k].(status := Refunded)]
    ensures Handle(b, RefundByOrg(k)).Returned? ==>
              Handle(b, RefundByOrg(k)).state.payments == b.payments[k := b.payments[k].(status := Refunded)]
  {
  }

  /** A rejection goes through exactly for a payment in progress or blocked by the prediction. */
  lemma RejectAnswers(b: Books, k: nat)
    ensures Handle(b, Reject(k)).Returned? <==>
            k < |b.payments|
            && b.payments[k].status in {Initiated, Predicted, Routed, PaymentStatus.Pending, RetryScheduled, Reconciled,
                                        PaymentStatus.Allocated, PredictedFailure}
    ensures Handle(b, Reject(k)).Returned? ==>
              Handle(b, Reject(k)).state.payments == b.payments[k := b.payments[k].(status := Rejected)]
  {
    if k < |b.payments| { EnteredFrom(b.payments[k].status, Rejected); }
  }

  /** A failed payment counts as one that can be rejected, and yet the table refuses it. */
  lemma FailedIsNotRejected(b: Books, k: nat)
    requires k < |b.payments| && b.payments[k].status in {Failed, PermanentlyFailed}
    ensures CanBeRejected(b.payments[k].status) && Handle(b, Reject(k)) == Raised(b, 400)
  {
    EnteredFrom(b.payments[k].status, Rejected);
  }

  /** A creation adds one initiated payment without allocations and touches nothing else; a recording adds a
      completed one that names no schedule, spread over the schedules unless it is a deposit. */
  lemma NewPayments(b: Books, amount: nat, deposit: bool, schedule: Option<nat>, key: Option<string>, now: int)
    ensures var after := Step(b, Create(amount, deposit, schedule, key));
            after == b || after == b.(payments := b.payments + [Payment(Initiated, amount, deposit, schedule, key, [])])
    ensures Step(b, Create(amount, deposit, schedule, key)) != b <==>
            !HasKey(b, key)
            && (schedule.Some? ==> schedule.value < |b.rows| && b.rows[schedule.value].status != Waived)
    ensures var after := Step(b, Record(amount, deposit, now));
            after.rows == (if deposit then b.rows else Allocation.Allocated(b.rows, amount, now))
            && |after.payments| == |b.payments| + 1 && after.payments[..|b.payments|] == b.payments
            && (forall i | 0 <= i < |b.rows| ::
                  AppliedTo(after.payments[|b.payments|], i) == after.rows[i].paid - b.rows[i].paid)
            && after.payments[|b.payments|]
               == Payment(Completed, amount, deposit, None, None, after.payments[|b.payments|].applied)
  {
    if !deposit {
      forall i | 0 <= i < |b.rows| { AllocatedPaid(b.rows, amount, now, i); }
    }
  }

  /** Any other move goes through exactly if the table has it, and changes one status; a schedule that exists can be
      changed in everything but what was paid; and a new period is unpaid. */
  lemma OtherAnswers(b: Books, k: nat, to: Onward, r: Request, due: int)
    ensures Handle(b, Move(k, to)).Returned? <==> k < |b.payments| && Allowed(VALID_TRANSITIONS, b.payments[k].status, to)
    ensures Handle(b, Move(k, to)).Returned? ==>
              Handle(b, Move(k, to)).state == b.(payments := b.payments[k := b.payments[k].(status := to)])
    ensures r.Adjust? ==> (Handle(b, r).Returned? <==> r.index < |b.rows|)
    ensures r.Adjust? && r.index < |b.rows| ==>
              Handle(b, r).state
              == b.(rows := b.rows[r.index := Schedule(r.due, r.lateFee, b.rows[r.index].paid, r.mark, r.paidAt)])
    ensures Handle(b, Extend(due)) == Returned(b.(rows := b.rows + [Schedule(due, 0, 0, ScheduleStatus.Pending, None)]))
  {
  }

  // ----- What the schedules owe to the payments -----

  predicate Withdrawn(s: PaymentStatus) { s == Refunded || s == Rejected }

  /** What payment p contributes to schedule i. */
  function Credit(p: Payment, i: nat): nat
  {
    if Withdrawn(p.status) then 0 else AppliedTo(p, i)
  }

  function Standing(ps: seq<Payment>, i: nat): nat
  {
    if ps == [] then 0 else Credit(ps[0], i) + Standing(ps[1..], i)
  }

  /** What schedule i counts as paid beyond the payments that stand. */
  function Outside(b: Books, i: nat): int
    requires i < |b.rows|
  {
    b.rows[i].paid - Standing(b.payments, i)
  }

  predicate Blank(p: Payment)
  {
    forall i | 0 <= i < |p.applied| :: p.applied[i] == 0
  }

  /** Allocations only of payments that were confirmed, and never beyond their amount. */
  predicate SoundPayment(p: Payment, n: nat)
  {
    |p.applied| <= n && Sum(p.applied) <= p.amount && (p.status in {Completed, Confirmed, Refunded} || Blank(p))
  }

  ghost predicate Shaped(b: Books)
  {
    (forall k | 0 <= k < |b.payments| :: SoundPayment(b.payments[k], |b.rows|))
    && (forall i | 0 <= i < |b.rows| :: b.rows[i].paid >= 0)
  }

  /** No schedule shows less than what the payments that stand gave it. */
  ghost predicate Sound(b: Books)
  {
    Shaped(b) && forall i | 0 <= i < |b.rows| :: Outside(b, i) >= 0
  }

  lemma {:induction false} StandingUpdate(ps: seq<Payment>, k: nat, q: Payment, i: nat)
    requires k < |ps|
    ensures Standing(ps[k := q], i) == Standing(ps, i) - Credit(ps[k], i) + Credit(q, i)
  {
    if k > 0 {
      StandingUpdate(ps[1..], k - 1, q, i);
      assert ps[k := q][1..] == ps[1..][k - 1 := q];
    } else {
      assert ps[k := q][1..] == ps[1..];
    }
  }

  lemma {:induction false} StandingAppend(ps: seq<Payment>, p: Payment, i: nat)
    ensures Standing(ps + [p], i) == Standing(ps, i) + Credit(p, i)
  {
    if ps == [] {
      assert ps + [p] == [p] && [p][1..] == [];
    } else {
      assert (ps + [p])[1..] == ps[1..] + [p];
      StandingAppend(ps[1..], p, i);
    }
  }

  lemma {:induction false} StandingHolds(ps: seq<Payment>, k: nat, i: nat)
    requires k < |ps|
    ensures Standing(ps, i) >= Credit(ps[k], i)
  {
    if k > 0 { StandingHolds(ps[1..], k - 1, i); }
  }

  lemma {:induction false} NothingBeyond(ps: seq<Payment>, i: nat)
    requires forall k | 0 <= k < |ps| :: |ps[k].applied| <= i
    ensures Standing(ps, i) == 0
  {
    if ps != [] {
      assert |ps[0].applied| <= i;
      NothingBeyond(ps[1..], i);
    }
  }

  /** The same books, in what they say about money from outside; schedules that are new start without any. */
  ghost predicate Balances(before: Books, after: Books)
  {
    |before.rows| <= |after.rows|
    && (forall i | 0 <= i < |before.rows| :: Outside(after, i) == Outside(before, i))
    && (forall i | |before.rows| <= i < |after.rows| :: Outside(after, i) == 0)
  }

  // ----- One request -----

  lemma PlusOnBlank(p: Payment, xs: seq<nat>)
    requires Blank(p) && |p.applied| <= |xs|
    ensures Plus(p, xs).applied == xs
  {
  }

  /** A payment without allocations is given exactly what the allocation applies, never more than its
      amount. */
  lemma PlusOfBlank(p: Payment, rows: seq<Schedule>)
    requires SoundPayment(p, |rows|) && Blank(p)
    ensures var q := Plus(p, Allocations(rows, p.amount));
            q.applied == Allocations(rows, p.amount) && Sum(q.applied) == p.amount - Leftover(rows, p.amount) <= p.amount
  {
    PlusOnBlank(p, Allocations(rows, p.amount));
    AllocationConserves(rows, p.amount);
    LeftoverIsExcess(rows, p.amount);
  }

  lemma AllocatedPaid(rows: seq<Schedule>, amount: nat, now: int, i: nat)
    requires i < |rows|
    ensures Allocation.Allocated(rows, amount, now)[i].paid == rows[i].paid + Allocations(rows, amount)[i]
  {
    AllocatedAt(rows, amount, now, i);
  }

  /** Allocating a payment and completing it. */
  lemma AllotBalances(b: Books, k: nat, now: int)
    requires Shaped(b) && k < |b.payments| && Blank(b.payments[k]) && !Withdrawn(b.payments[k].status)
    ensures var after := WithStatus(Allotted(b, k, now), k, Completed);
            Shaped(after) && Balances(b, after)
  {
    var p := b.payments[k];
    var after := WithStatus(Allotted(b, k, now), k, Completed);
    if !p.deposit { PlusOfBlank(p, b.rows); }
    assert after.payments == b.payments[k := after.payments[k]];
    forall i | 0 <= i < |b.rows| ensures Outside(after, i) == Outside(b, i) && after.rows[i].paid >= 0 {
      StandingUpdate(b.payments, k, after.payments[k], i);
      if !p.deposit { AllocatedPaid(b.rows, p.amount, now, i); }
    }
  }

  lemma CreateBalances(b: Books, r: Request)
    requires r.Create? && Shaped(b)
    ensures Shaped(Step(b, r)) && Balances(b, Step(b, r))
  {
    var after := Step(b, r);
    if |after.payments| > |b.payments| {
      forall i | 0 <= i < |b.rows| ensures Outside(after, i) == Outside(b, i) {
        StandingAppend(b.payments, after.payments[|b.payments|], i);
      }
    }
  }

  lemma RecordBalances(b: Books, r: Request)
    requires r.Record? && Shaped(b)
    ensures Shaped(Step(b, r)) && Balances(b, Step(b, r))
  {
    var p := Payment(Completed, r.amount, r.deposit, None, None, []);
    var b1 := b.(payments := b.payments + [p]);
    forall i | 0 <= i < |b.rows| ensures Outside(b1, i) == Outside(b, i) {
      StandingAppend(b.payments, p, i);
    }
    AllotBalances(b1, |b.payments|, r.now);
    assert Step(b, r) == WithStatus(Step(b, r), |b.payments|, Completed);
  }

  /** A change of status that leaves a payment standing. */
  lemma StatusBalances(b: Books, k: nat, to: PaymentStatus)
    requires Shaped(b) && k < |b.payments| && Withdrawn(b.payments[k].status) == Withdrawn(to)
    requires to in {Completed, Confirmed, Refunded} || Blank(b.payments[k])
    ensures Shaped(WithStatus(b, k, to)) && Balances(b, WithStatus(b, k, to))
  {
    var after := WithStatus(b, k, to);
    forall i | 0 <= i < |b.rows| ensures Outside(after, i) == Outside(b, i) {
      StandingUpdate(b.payments, k, after.payments[k], i);
    }
  }

  lemma MoveBalances(b: Books, k: nat, to: Onward)
    requires Shaped(b)
    ensures Shaped(Step(b, Move(k, to))) && Balances(b, Step(b, Move(k, to)))
  {
    if Handle(b, Move(k, to)).Returned? { StatusBalances(b, k, to); }
  }

  /** A rejection never touches a schedule: what can be rejected has no allocations. */
  lemma RejectLeavesSchedules(b: Books, k: nat)
    requires Shaped(b)
    ensures Step(b, Reject(k)).rows == b.rows
  {
    if Handle(b, Reject(k)).Returned? {
      assert Blank(b.payments[k]);
      assert Padded(b.payments[k], |b.rows|) == seq(|b.rows|, i => 0);
    }
  }

  lemma RejectBalances(b: Books, k: nat)
    requires Shaped(b)
    ensures Shaped(Step(b, Reject(k))) && Balances(b, Step(b, Reject(k)))
  {
    var after := Step(b, Reject(k));
    RejectLeavesSchedules(b, k);
    if Handle(b, Reject(k)).Returned? {
      forall i | 0 <= i < |b.rows| ensures Outside(after, i) == Outside(b, i) {
        StandingUpdate(b.payments, k, after.payments[k], i);
      }
    }
  }

  lemma ExtendBalances(b: Books, due: int)
    requires Shaped(b)
    ensures Shaped(Step(b, Extend(due))) && Balances(b, Step(b, Extend(due)))
  {
    NothingBeyond(b.payments, |b.rows|);
    var after := Step(b, Extend(due));
    forall i | 0 <= i < |b.rows| ensures Outside(after, i) == Outside(b, i) {
    }
    assert Outside(after, |b.rows|) == 0;
  }

  lemma AdjustBalances(b: Books, r: Request)
    requires r.Adjust? && Shaped(b)
    ensures Shaped(Step(b, r)) && Balances(b, Step(b, r))
  {
    forall i | 0 <= i < |b.rows| ensures Outside(Step(b, r), i) == Outside(b, i) {
    }
  }

  // ----- The two refunds -----

  /** What `refund_payment_by_org` takes off schedule i. */
  function Taken(b: Books, p: Payment, i: nat): int
    requires i < |b.rows|
  {
    if p.schedule == Some(i) then Min(p.amount, b.rows[i].paid) else 0
  }

  /** By how much a request puts schedule i out of balance: what a refunded payment had given it, less what
      the refund takes off. */
  function Shift(b: Books, r: Request, i: nat): int
  {
    if i >= |b.rows| || Handle(b, r).Raised? then 0
    else match r
      case Refund(k) => AppliedTo(b.payments[k], i) - Min(AppliedTo(b.payments[k], i), b.rows[i].paid)
      case RefundByOrg(k) => AppliedTo(b.payments[k], i) - Taken(b, b.payments[k], i)
      case _ => 0
  }

  lemma RefundShifts(b: Books, r: Request)
    requires Shaped(b) && (r.Refund? || r.RefundByOrg?) && Handle(b, r).Returned?
    ensures Shaped(Step(b, r)) && |Step(b, r).rows| == |b.rows|
    ensures forall i | 0 <= i < |b.rows| :: Outside(Step(b, r), i) == Outside(b, i) + Shift(b, r, i)
  {
    var after := Step(b, r);
    forall i | 0 <= i < |b.rows| ensures Outside(after, i) == Outside(b, i) + Shift(b, r, i) {
      StandingUpdate(b.payments, r.payment, after.payments[r.payment], i);
    }
  }

  lemma OtherBalances(b: Books, r: Request)
    requires Shaped(b) && !((r.Refund? || r.RefundByOrg?) && Handle(b, r).Returned?)
    ensures Shaped(Step(b, r)) && Balances(b, Step(b, r))
  {
    match r
    case Create(_, _, _, _) => CreateBalances(b, r);
    case Record(_, _, _) => RecordBalances(b, r);
    case Confirm(k, now) => if Handle(b, r).Returned? { AllotBalances(b, k, now); }
    case Refund(_) =>
    case RefundByOrg(_) =>
    case Reject(k) => RejectBalances(b, k);
    case Move(k, to) => MoveBalances(b, k, to);
    case Adjust(_, _, _, _, _) => AdjustBalances(b, r);
    case Extend(due) => ExtendBalances(b, due);
  }

  /** Any request, on any books of the right shape, moves each schedule's balance by its shift. */
  lemma StepShifts(b: Books, r: Request)
    requires Shaped(b)
    ensures Shaped(Step(b, r)) && |b.rows| <= |Step(b, r).rows|
    ensures forall i | 0 <= i < |b.rows| :: Outside(Step(b, r), i) == Outside(b, i) + Shift(b, r, i)
    ensures forall i | |b.rows| <= i < |Step(b, r).rows| :: Outside(Step(b, r), i) == 0
  {
    if (r.Refund? || r.RefundByOrg?) && Handle(b, r).Returned? {
      RefundShifts(b, r);
    } else {
      OtherBalances(b, r);
    }
  }

  /** On sound books a refund takes off exactly what the payment had given: the cut at zero never bites. */
  lemma RefundExact(b: Books, k: nat)
    requires Sound(b) && Handle(b, Refund(k)).Returned?
    ensures forall i | 0 <= i < |b.rows| ::
              Step(b, Refund(k)).rows[i].paid == b.rows[i].paid - AppliedTo(b.payments[k], i) >= 0
              && Shift(b, Refund(k), i) == 0
  {
    forall i | 0 <= i < |b.rows|
      ensures Step(b, Refund(k)).rows[i].paid == b.rows[i].paid - AppliedTo(b.payments[k], i) >= 0
    {
      StandingHolds(b.payments, k, i);
      assert Outside(b, i) >= 0;
    }
  }

  lemma {:induction false} SumHolds(xs: seq<nat>, i: nat)
    requires i < |xs|
    ensures 0 <= xs[i] <= Sum(xs)
  {
    if i > 0 {
      SumHolds(xs[1..], i - 1);
    } else if |xs| > 1 {
      SumHolds(xs[1..], 0);
    }
  }

  /** On sound books a payment that was confirmed gave a schedule no more than its amount, and no more than
      the schedule shows. */
  lemma AppliedBounds(b: Books, k: nat, i: nat)
    requires Sound(b) && k < |b.payments| && b.payments[k].status in SUCCESSFUL && i < |b.rows|
    ensures AppliedTo(b.payments[k], i) <= b.payments[k].amount
    ensures AppliedTo(b.payments[k], i) <= b.rows[i].paid
  {
    var p := b.payments[k];
    assert SoundPayment(p, |b.rows|);
    if i < |p.applied| { SumHolds(p.applied, i); }
    StandingHolds(b.payments, k, i);
    assert Outside(b, i) >= 0;
  }

  /** The payment has allocations on no schedule but the one that the client named, and there it gave either
      its whole amount or all that the schedule shows. */
  predicate AppliedAsNamed(b: Books, k: nat)
    requires k < |b.payments|
  {
    var p := b.payments[k];
    (forall i | 0 <= i < |b.rows| && p.schedule != Some(i) :: AppliedTo(p, i) == 0)
    && (p.schedule.Some? && p.schedule.value < |b.rows| ==>
          AppliedTo(p, p.schedule.value) == p.amount || AppliedTo(p, p.schedule.value) == b.rows[p.schedule.value].paid)
  }

  /** The refund by organisation keeps the books balanced exactly if the payment was applied as named. */
  lemma OrgRefundBalancesIff(b: Books, k: nat)
    requires Sound(b) && Handle(b, RefundByOrg(k)).Returned?
    ensures Balances(b, Step(b, RefundByOrg(k))) <==> AppliedAsNamed(b, k)
  {
    var r, p := RefundByOrg(k), b.payments[k];
    RefundShifts(b, r);
    forall i | 0 <= i < |b.rows|
      ensures Outside(Step(b, r), i) == Outside(b, i) <==> AppliedTo(p, i) == Taken(b, p, i)
      ensures AppliedTo(p, i) <= p.amount && AppliedTo(p, i) <= b.rows[i].paid
    {
      AppliedBounds(b, k, i);
    }
  }

  /** What payments other than the k-th gave schedule i. */
  function Others(b: Books, k: nat, i: nat): int
    requires k < |b.payments|
  {
    Standing(b.payments, i) - Credit(b.payments[k], i)
  }

  /** The schedule that the client named, if any, holds no money of other payments, or enough beside it. */
  predicate Spares(b: Books, k: nat)
    requires k < |b.payments|
  {
    var p := b.payments[k];
    p.schedule.Some? && p.schedule.value < |b.rows| ==>
      var i := p.schedule.value;
      Others(b, k, i) == 0 || Others(b, k, i) <= b.rows[i].paid - p.amount
  }

  /** A refund by organisation that takes another payment's money is the only request that makes sound books
      unsound. */
  predicate Fair(b: Books, r: Request)
  {
    r.RefundByOrg? && Handle(b, r).Returned? ==> Spares(b, r.payment)
  }

  lemma OrgRefundSoundIff(b: Books, k: nat)
    requires Sound(b) && Handle(b, RefundByOrg(k)).Returned?
    ensures Sound(Step(b, RefundByOrg(k))) <==> Spares(b, k)
  {
    var r, p := RefundByOrg(k), b.payments[k];
    RefundShifts(b, r);
    forall i | 0 <= i < |b.rows|
      ensures Outside(Step(b, r), i) >= 0 <==>
              (p.schedule == Some(i) ==> Others(b, k, i) == 0 || Others(b, k, i) <= b.rows[i].paid - p.amount)
    {
      StandingHolds(b.payments, k, i);
      assert Outside(b, i) >= 0;
    }
  }

  lemma StepSoundIff(b: Books, r: Request)
    requires Sound(b)
    ensures Sound(Step(b, r)) <==> Fair(b, r)
    ensures !r.RefundByOrg? ==> Balances(b, Step(b, r))
  {
    StepShifts(b, r);
    if r.RefundByOrg? && Handle(b, r).Returned? {
      OrgRefundSoundIff(b, r.payment);
    } else if r.Refund? && Handle(b, r).Returned? {
      RefundExact(b, r.payment);
    }
  }

  /** One schedule, paid off in one go. */
  lemma PayOff(s: Schedule, now: int)
    requires Debt(s) > 0
    ensures Allocation.Allocated([s], Debt(s), now) == [s.(paid := s.due + s.lateFee, status := Paid, paidAt := Some(now))]
  {
    AllocatedAt([s], Debt(s), now, 0);
    OldestFirst([s], Debt(s), 0);
    assert Debts([s][..0]) == 0;
  }

  lemma RecordPaysOff(s: Schedule, now: int)
    requires Debt(s) > 0
    ensures var b := Step(Books([s], []), Record(Debt(s), false, now));
            b.rows == [s.(paid := s.due + s.lateFee, status := Paid, paidAt := Some(now))]
            && |b.payments| == 1 && b.payments[0].status == Completed && b.payments[0].schedule == None
  {
    PayOff(s, now);
  }

  lemma OrgRefundWithoutSchedule(b: Books, k: nat)
    requires k < |b.payments| && b.payments[k].status in SUCCESSFUL && b.payments[k].schedule == None
    ensures Step(b, RefundByOrg(k)) == WithStatus(b, k, Refunded)
  {
  }

  /** A payment that names no schedule, as recorded ones never do, is refunded and leaves the rent paid. */
  lemma OrgRefundLeavesRentPaid(s: Schedule, now: int)
    requires Debt(s) > 0
    ensures var b := Step(Step(Books([s], []), Record(Debt(s), false, now)), RefundByOrg(0));
            |b.payments| == 1 && b.payments[0].status == Refunded && b.rows[0].status == Paid
            && b.rows[0].paid == s.due + s.lateFee
  {
    RecordPaysOff(s, now);
    OrgRefundWithoutSchedule(Step(Books([s], []), Record(Debt(s), false, now)), 0);
  }

  function Unpaid(rent: nat): Schedule { Schedule(rent, 0, 0, ScheduleStatus.Pending, None) }

  function PaidOff(rent: nat, now: int): Schedule { Schedule(rent, 0, rent, Paid, Some(now)) }

  function DepositNamed(amount: nat): Payment { Payment(Completed, amount, true, Some(0), None, []) }

  function RentOf(amount: nat): Payment { Payment(Completed, amount, false, None, None, [amount]) }

  lemma ConfirmDeposit(rent: nat, deposit: nat, now: int)
    ensures Step(Step(Books([Unpaid(rent)], []), Create(deposit, true, Some(0), None)), Confirm(0, now))
            == Books([Unpaid(rent)], [DepositNamed(deposit)])
  {
    var b := Books([Unpaid(rent)], []);
    var p := Payment(Initiated, deposit, true, Some(0), None, []);
    assert b.payments + [p] == [p];
    assert Step(b, Create(deposit, true, Some(0), None)) == Books([Unpaid(rent)], [p]);
    assert [p][0 := p.(status := Completed)] == [DepositNamed(deposit)];
  }

  lemma RecordRent(rent: nat, deposit: nat, now: int)
    requires rent > 0
    ensures Step(Books([Unpaid(rent)], [DepositNamed(deposit)]), Record(rent, false, now))
            == Books([PaidOff(rent, now)], [DepositNamed(deposit), RentOf(rent)])
  {
    var s, d, p := Unpaid(rent), DepositNamed(deposit), Payment(Completed, rent, false, None, None, []);
    PayOff(s, now);
    OldestFirst([s], rent, 0);
    assert Debts([s][..0]) == 0;
    assert Allocations([s], rent) == [rent];
    assert Plus(p, [rent]) == RentOf(rent) by { PlusOnBlank(p, [rent]); }
    assert [d] + [p] == [d, p] && [d, p][1 := RentOf(rent)] == [d, RentOf(rent)];
  }

  lemma StandingOfTwo(d: Payment, p: Payment)
    ensures Standing([d, p], 0) == Credit(d, 0) + Credit(p, 0)
  {
    assert [d, p][1..] == [p];
    assert Standing([p], 0) == Credit(p, 0) by { assert [p][1..] == []; }
  }

  lemma DepositBooks(rent: nat, deposit: nat, now: int)
    requires 0 < deposit <= rent
    ensures var b := Books([PaidOff(rent, now)], [DepositNamed(deposit), RentOf(rent)]);
            Sound(b) && !Sound(Step(b, RefundByOrg(0)))
            && Step(b, RefundByOrg(0)).rows[0].paid == rent - deposit && Standing(Step(b, RefundByOrg(0)).payments, 0) == rent
  {
    var d, p := DepositNamed(deposit), RentOf(rent);
    var b := Books([PaidOff(rent, now)], [d, p]);
    assert Sum(p.applied) == rent by { assert p.applied[1..] == []; }
    StandingOfTwo(d, p);
    StandingOfTwo(d.(status := Refunded), p);
    assert Outside(b, 0) == 0;
    var after := Step(b, RefundByOrg(0));
    assert after.payments == [d.(status := Refunded), p];
    assert Outside(after, 0) == rent - deposit - rent;
  }

  /** A confirmed deposit that names a schedule which a recorded payment paid off: the books are sound, and
      refunded by organisation the deposit takes that payment's money. */
  lemma OrgRefundTakesRent(rent: nat, deposit: nat, now: int)
    requires 0 < deposit <= rent
    ensures var b2 := Step(Step(Books([Unpaid(rent)], []), Create(deposit, true, Some(0), None)), Confirm(0, now));
            var b3 := Step(b2, Record(rent, false, now));
            var b4 := Step(b3, RefundByOrg(0));
            Sound(b3) && !Sound(b4) && |b4.rows| == 1
            && b4.rows[0].paid == rent - deposit && Standing(b4.payments, 0) == rent
  {
    ConfirmDeposit(rent, deposit, now);
    RecordRent(rent, deposit, now);
    DepositBooks(rent, deposit, now);
  }

  // ----- All runs -----

  /** By how much the requests of a run put schedule i out of balance. */
  function Shifts(b: Books, rs: seq<Request>, i: nat): int
    decreases |rs|
  {
    if rs == [] then 0 else Shift(b, rs[0], i) + Shifts(Step(b, rs[0]), rs[1..], i)
  }

  /** Over every run, whatever the requests: what a schedule shows as paid is what the payments that stand
      gave it, what it showed beyond those at the start, and what refunds failed to take off or took off
      too much. */
  lemma {:induction false} RunShifts(b: Books, rs: seq<Request>)
    requires Shaped(b)
    ensures Shaped(Run(b, rs)) && |b.rows| <= |Run(b, rs).rows|
    ensures forall i | 0 <= i < |b.rows| :: Outside(Run(b, rs), i) == Outside(b, i) + Shifts(b, rs, i)
    decreases |rs|
  {
    if rs != [] {
      StepShifts(b, rs[0]);
      RunShifts(Step(b, rs[0]), rs[1..]);
    }
  }

  ghost predicate SoundThroughout(b: Books, rs: seq<Request>)
    decreases |rs|
  {
    Sound(b) && (rs == [] || SoundThroughout(Step(b, rs[0]), rs[1..]))
  }

  predicate FairRun(b: Books, rs: seq<Request>)
    decreases |rs|
  {
    rs == [] || (Fair(b, rs[0]) && FairRun(Step(b, rs[0]), rs[1..]))
  }

  /** The books stay sound through a run exactly if none of its refunds by organisation takes another
      payment's money. */
  lemma {:induction false} RunSoundIff(b: Books, rs: seq<Request>)
    requires Sound(b)
    ensures SoundThroughout(b, rs) <==> FairRun(b, rs)
    decreases |rs|
  {
    if rs != [] {
      StepSoundIff(b, rs[0]);
      if Fair(b, rs[0]) { RunSoundIff(Step(b, rs[0]), rs[1..]); }
    }
  }

  /** What refunds by organisation alone put schedule i out of balance. */
  function OrgShifts(b: Books, rs: seq<Request>, i: nat): int
    decreases |rs|
  {
    if rs == [] then 0
    else (if rs[0].RefundByOrg? then Shift(b, rs[0], i) else 0) + OrgShifts(Step(b, rs[0]), rs[1..], i)
  }

  /** As long as the books stay sound, only refunds by organisation put them out of balance. */
  lemma {:induction false} OnlyOrgRefundsShift(b: Books, rs: seq<Request>, i: nat)
    requires SoundThroughout(b, rs)
    ensures Shifts(b, rs, i) == OrgShifts(b, rs, i)
    decreases |rs|
  {
    if rs != [] {
      if rs[0].Refund? && Handle(b, rs[0]).Returned? { RefundExact(b, rs[0].payment); }
      OnlyOrgRefundsShift(Step(b, rs[0]), rs[1..], i);
    }
  }

  /** Over every run in which no refund by organisation takes another payment's money, the books stay sound
      and each schedule is out of balance by just what those refunds left on it or took too much. */
  lemma RunBalances(b: Books, rs: seq<Request>)
    requires Sound(b) && FairRun(b, rs)
    ensures SoundThroughout(b, rs) && Shaped(Run(b, rs)) && |b.rows| <= |Run(b, rs).rows|
    ensures forall i | 0 <= i < |b.rows| :: Outside(Run(b, rs), i) == Outside(b, i) + OrgShifts(b, rs, i)
  {
    RunSoundIff(b, rs);
    RunShifts(b, rs);
    forall i | 0 <= i < |b.rows| ensures Shifts(b, rs, i) == OrgShifts(b, rs, i) {
      OnlyOrgRefundsShift(b, rs, i);
    }
  }

  /** Over every run without refunds by organisation, with payments, refunds, rejections and changes of the
      schedules in any order: the books stay sound and balanced. */
  lemma {:induction false} RunBalancesExactly(b: Books, rs: seq<Request>)
    requires Sound(b) && forall r <- rs :: !r.RefundByOrg?
    ensures Sound(Run(b, rs)) && Balances(b, Run(b, rs))
    decreases |rs|
  {
    if rs != [] {
      assert rs[0] in rs;
      StepSoundIff(b, rs[0]);
      RunBalancesExactly(Step(b, rs[0]), rs[1..]);
    }
  }

  // ----- Waived schedules -----

  lemma StepKeepsWaived(b: Books, r: Request, i: nat)
    requires Shaped(b) && i < |b.rows| && b.rows[i].status == Waived && !(r.Adjust? && r.index == i)
    ensures i < |Step(b, r).rows|
    ensures Step(b, r).rows[i] == b.rows[i].(paid := Step(b, r).rows[i].paid) && Step(b, r).rows[i].paid <= b.rows[i].paid
  {
    if Handle(b, r).Returned? {
      match r
      case Record(amount, deposit, now) => if !deposit { AllocatedExactly(b.rows, amount, now, i); }
      case Confirm(k, now) => if !b.payments[k].deposit { AllocatedExactly(b.rows, b.payments[k].amount, now, i); }
      case _ =>
    }
  }

  /** Over every run, a waived schedule stays as it is until it is changed by hand: no payment ever adds to
      it, and refunds only take off what it had. */
  lemma {:induction false} RunKeepsWaived(b: Books, rs: seq<Request>, i: nat)
    requires Shaped(b) && i < |b.rows| && b.rows[i].status == Waived
    requires forall r <- rs :: !(r.Adjust? && r.index == i)
    ensures i < |Run(b, rs).rows|
    ensures Run(b, rs).rows[i] == b.rows[i].(paid := Run(b, rs).rows[i].paid) && Run(b, rs).rows[i].paid <= b.rows[i].paid
    decreases |rs|
  {
    if rs != [] {
      assert rs[0] in rs;
      StepShifts(b, rs[0]);
      StepKeepsWaived(b, rs[0], i);
      RunKeepsWaived(Step(b, rs[0]), rs[1..], i);
    }
  }

  // ----- A payment is reversed at most once -----

  predicate Closed(b: Books, k: nat)
  {
    k < |b.payments| && Withdrawn(b.payments[k].status)
  }

  /** Is this an accepted request to reverse payment k? */
  predicate Reverses(b: Books, r: Request, k: nat)
  {
    (r == Refund(k) || r == RefundByOrg(k) || r == Reject(k)) && Handle(b, r).Returned?
  }

  function Reversals(b: Books, rs: seq<Request>, k: nat): nat
    decreases |rs|
  {
    if rs == [] then 0 else (if Reverses(b, rs[0], k) then 1 else 0) + Reversals(Step(b, rs[0]), rs[1..], k)
  }

  lemma ReversalCloses(b: Books, r: Request, k: nat)
    ensures Reverses(b, r, k) ==> !Closed(b, k) && Closed(Step(b, r), k)
    ensures Closed(b, k) ==> Closed(Step(b, r), k)
  {
  }

  /** The state machine lets each payment be reversed at most once, whichever way, over every run. */
  lemma {:induction false} ReversedAtMostOnce(b: Books, rs: seq<Request>, k: nat)
    ensures Reversals(b, rs, k) <= 1
    ensures Closed(b, k) ==> Reversals(b, rs, k) == 0 && Closed(Run(b, rs), k)
    decreases |rs|
  {
    if rs != [] {
      ReversalCloses(b, rs[0], k);
      ReversedAtMostOnce(Step(b, rs[0]), rs[1..], k);
    }
  }

  // ----- Overpayment -----

  /** `get_overpayment_for_payment` */
  function Overpayment(p: Payment): int
  {
    if p.amount - Sum(p.applied) > 0 then p.amount - Sum(p.applied) else 0
  }

  /** Has the payment been confirmed, now or before? */
  predicate Done(b: Books, k: nat)
  {
    k < |b.payments| && b.payments[k].status in {Completed, Confirmed, Refunded}
  }

  /** The allocations and the amount of a confirmed payment never change again. */
  lemma {:induction false} DoneIsFixed(b: Books, rs: seq<Request>, k: nat)
    requires Done(b, k)
    ensures Done(Run(b, rs), k) && Run(b, rs).payments[k] == b.payments[k].(status := Run(b, rs).payments[k].status)
    decreases |rs|
  {
    if rs != [] {
      StepKeepsDone(b, rs[0], k);
      DoneIsFixed(Step(b, rs[0]), rs[1..], k);
    }
  }

  lemma StepKeepsDone(b: Books, r: Request, k: nat)
    requires Done(b, k)
    ensures Done(Step(b, r), k) && Step(b, r).payments[k] == b.payments[k].(status := Step(b, r).payments[k].status)
  {
  }

  /** The overpayment that a refund of p computes if p was allocated on these schedules. */
  function LeftOver(p: Payment, rows: seq<Schedule>): int
  {
    if p.deposit then p.amount else Leftover(rows, p.amount)
  }

  lemma OverpaymentOfAllotted(b: Books, k: nat, now: int)
    requires k < |b.payments| && SoundPayment(b.payments[k], |b.rows|) && Blank(b.payments[k])
    ensures Overpayment(Allotted(b, k, now).payments[k]) == LeftOver(b.payments[k], b.rows)
  {
    var p := b.payments[k];
    if p.deposit {
      SumOfBlank(p.applied);
    } else {
      PlusOfBlank(p, b.rows);
      LeftoverIsExcess(b.rows, p.amount);
    }
  }

  /** Whatever happens after the confirmation, a refund computes as overpayment what the confirmation had
      left over, except for a deposit, where it computes the whole amount. */
  lemma OverpaymentRecomputed(b: Books, k: nat, now: int, later: seq<Request>)
    requires Sound(b) && Handle(b, Confirm(k, now)).Returned?
    ensures k < |Run(Step(b, Confirm(k, now)), later).payments|
    ensures Overpayment(Run(Step(b, Confirm(k, now)), later).payments[k]) == LeftOver(b.payments[k], b.rows)
  {
    OverpaymentOfAllotted(b, k, now);
    DoneIsFixed(Step(b, Confirm(k, now)), later, k);
  }

  /** And so for a payment that was recorded. */
  lemma RecordedOverpayment(b: Books, r: Request, later: seq<Request>)
    requires r.Record?
    ensures |b.payments| < |Run(Step(b, r), later).payments|
    ensures Overpayment(Run(Step(b, r), later).payments[|b.payments|])
            == if r.deposit then r.amount else Leftover(b.rows, r.amount)
  {
    var p := Payment(Completed, r.amount, r.deposit, None, None, []);
    OverpaymentOfAllotted(b.(payments := b.payments + [p]), |b.payments|, r.now);
    DoneIsFixed(Step(b, r), later, |b.payments|);
  }

  /** A deposit of 60, of which nothing was left over, is refunded with an overpayment of 60. */
  lemma DepositOverpayment()
    ensures var b := Step(Books([], []), Record(60, true, 7));
            Overpayment(b.payments[0]) == 60 && Handle(b, Refund(0)).Returned?
  {
    RecordedOverpayment(Books([], []), Record(60, true, 7), []);
  }

  lemma {:induction false} SumOfBlank(xs: seq<nat>)
    requires forall i | 0 <= i < |xs| :: xs[i] == 0
    ensures Sum(xs) == 0
  {
    if xs != [] { SumOfBlank(xs[1..]); }
  }

  // ----- Idempotency keys -----

  ghost predicate KeysDistinct(b: Books)
  {
    forall j, k | 0 <= j < |b.payments| && 0 <= k < |b.payments| && b.payments[j].key.Some?
                  && b.payments[j].key == b.payments[k].key :: j == k
  }

  lemma StepKeepsKeys(b: Books, r: Request)
    ensures KeysDistinct(b) ==> KeysDistinct(Step(b, r))
    ensures forall key :: HasKey(b, key) ==> HasKey(Step(b, r), key)
  {
    var after := Step(b, r);
    assert |b.payments| <= |after.payments| && forall k | 0 <= k < |b.payments| :: after.payments[k].key == b.payments[k].key;
    assert |after.payments| > |b.payments| ==> r.Record? || (r.Create? && !HasKey(b, r.key));
  }

  lemma {:induction false} RunKeepsKeys(b: Books, rs: seq<Request>)
    ensures KeysDistinct(b) ==> KeysDistinct(Run(b, rs))
    ensures forall key :: HasKey(b, key) ==> HasKey(Run(b, rs), key)
    decreases |rs|
  {
    if rs != [] {
      StepKeepsKeys(b, rs[0]);
      RunKeepsKeys(Step(b, rs[0]), rs[1..]);
    }
  }

  /** A creation with a key, once it has succeeded, can be repeated at any time: it succeeds again and
      changes nothing. An empty key is refused when repeated, or its schedule is. */
  lemma RepeatedCreate(b: Books, r: Request, later: seq<Request>)
    requires r.Create? && r.key.Some? && Handle(b, r).Returned?
    ensures var u := Run(Step(b, r), later);
            Step(u, r) == u && (r.key != Some("") ==> Handle(u, r).Returned?) && (r.key == Some("") ==> Handle(u, r).Raised?)
  {
    assert HasKey(Step(b, r), r.key) by {
      if !HasKey(b, r.key) { assert Step(b, r).payments[|b.payments|].key == r.key; }
    }
    RunKeepsKeys(Step(b, r), later);
  }
}
