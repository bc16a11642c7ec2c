/** The payment service as it runs on one lease: schedules and payments changed in place, one request
    per transaction. */
module PaymentService {
  import opened Collections
  import opened Transactions
  import opened PaymentStates
  import opened Allocation
  import opened PaymentBooks

  class LeaseAccount {
    const schedules: LeaseSchedules
    var payments: seq<Payment>

    function State(): Books
      reads this, schedules
    {
      Books(schedules.rows, payments)
    }

    constructor (schedules: LeaseSchedules, payments: seq<Payment>)
      ensures this.schedules == schedules && State() == Books(schedules.rows, payments)
    {
      this.schedules, this.payments := schedules, payments;
    }

    method Transition(k: nat, to: PaymentStatus) returns (error: Option<int>)
      requires k < |payments|
      modifies this
      ensures Did(MovedBooks(old(State()), k, to), State(), error)
    {
      if !Allowed(VALID_TRANSITIONS, payments[k].status, to) { return Some(400); }
      payments := payments[k := payments[k].(status := to)];
      return None;
    }

    /** `advance_to_completed`: from every status that can be confirmed the state machine lets the payment
        through, step by step. */
    method AdvanceToCompleted(k: nat) returns (error: Option<int>)
      requires k < |payments| && CanBeConfirmed(payments[k].status) && payments[k].status !in SUCCESSFUL
      modifies this
      ensures error == None && State() == WithStatus(old(State()), k, Completed)
    {
      ghost var before := State();
      var current := payments[k].status;
      error := None;
      if current in {Initiated, Predicted, Routed} {
        error := Advance(before, k, PaymentStatus.Pending);
        current := PaymentStatus.Pending;
      }
      if current == PaymentStatus.Pending {
        error := Advance(before, k, Reconciled);
        current := Reconciled;
      }
      if current == Reconciled {
        error := Advance(before, k, PaymentStatus.Allocated);
        current := PaymentStatus.Allocated;
      }
      error := Advance(before, k, Completed);
    }

    /** A transition that the table allows, after which the books differ from `before` in this status only. */
    method Advance(ghost before: Books, k: nat, to: PaymentStatus) returns (error: Option<int>)
      requires k < |before.payments| == |payments|
      requires State() == WithStatus(before, k, payments[k].status)
      requires Allowed(VALID_TRANSITIONS, payments[k].status, to)
      modifies this
      ensures error == None && State() == WithStatus(before, k, to)
    {
      error := Transition(k, to);
    }

    /** Spreads payment k over the schedules and stores its allocation rows, unless it is a deposit. */
    method Allot(k: nat, now: int)
      requires k < |payments|
      modifies this, schedules
      ensures State() == Allotted(old(State()), k, now)
    {
      if payments[k].deposit { return; }
      var xs, _ := schedules.AllocatePayment(payments[k].amount, now);
      payments := payments[k := Plus(payments[k], xs)];
    }

    method CreatePayment(r: Request) returns (error: Option<int>)
      requires r.Create?
      modifies this
      ensures Did(Created(old(State()), r), State(), error)
    {
      if HasKey(State(), r.key) && r.key != Some("") { return None; }
      if r.schedule.Some? {
        if r.schedule.value >= |schedules.rows| { return Some(404); }
        if schedules.rows[r.schedule.value].status == Waived { return Some(400); }
      }
      if HasKey(State(), r.key) { return Some(500); }
      payments := payments + [Payment(Initiated, r.amount, r.deposit, r.schedule, r.key, [])];
      return None;
    }

    method RecordManualPayment(r: Request) returns (error: Option<int>)
      requires r.Record?
      modifies this, schedules
      ensures Did(Recorded(old(State()), r), State(), error)
    {
      payments := payments + [Payment(Completed, r.amount, r.deposit, None, None, [])];
      Allot(|payments| - 1, r.now);
      return None;
    }

    method ConfirmPayment(k: nat, now: int) returns (error: Option<int>)
      modifies this, schedules
      ensures Did(ConfirmedBooks(old(State()), k, now), State(), error)
    {
      if k >= |payments| { return Some(404); }
      var current := payments[k].status;
      if current in SUCCESSFUL { return Some(400); }
      if !CanBeConfirmed(current) { return Some(400); }
      Allot(k, now);
      error := AdvanceToCompleted(k);
    }

    method RefundPayment(k: nat) returns (error: Option<int>)
      modifies this, schedules
      ensures Did(RefundedBooks(old(State()), k), State(), error)
    {
      if k >= |payments| { return Some(404); }
      if payments[k].status !in SUCCESSFUL { return Some(400); }
      error := Transition(k, Refunded);
      if error.Some? { return; }
      schedules.ReverseAllocations(Padded(payments[k], |schedules.rows|));
    }

    method RefundPaymentByOrg(k: nat) returns (error: Option<int>)
      modifies this, schedules
      ensures Did(OrgRefundedBooks(old(State()), k), State(), error)
    {
      if k >= |payments| { return Some(404); }
      if payments[k].status !in SUCCESSFUL { return Some(400); }
      error := Transition(k, Refunded);
      if error.Some? { return; }
      if payments[k].schedule.Some? {
        var i := payments[k].schedule.value;
        if i >= |schedules.rows| { return Some(404); }
        schedules.TakeOff(i, payments[k].amount);
      }
    }

    method RejectPayment(k: nat) returns (error: Option<int>)
      modifies this, schedules
      ensures Did(RejectedBooks(old(State()), k), State(), error)
    {
      if k >= |payments| { return Some(404); }
      if !CanBeRejected(payments[k].status) { return Some(400); }
      error := Transition(k, Rejected);
      if error.Some? { return; }
      schedules.ReverseAllocations(Padded(payments[k], |schedules.rows|));
    }

    method ChangeSchedule(r: Request) returns (error: Option<int>)
      requires r.Adjust? || r.Extend?
      modifies schedules
      ensures Did(Handle(old(State()), r), State(), error)
    {
      if r.Extend? {
        schedules.rows := schedules.rows + [Schedule(r.due, 0, 0, ScheduleStatus.Pending, None)];
        return None;
      }
      if r.index >= |schedules.rows| { return Some(404); }
      var s := schedules.rows[r.index].(due := r.due, lateFee := r.lateFee, status := r.mark, paidAt := r.paidAt);
      schedules.rows := schedules.rows[r.index := s];
      return None;
    }

    method Dispatch(r: Request) returns (error: Option<int>)
      modifies this, schedules
      ensures Did(Handle(old(State()), r), State(), error)
    {
      match r {
        case Create(_, _, _, _) => error := CreatePayment(r);
        case Record(_, _, _) => error := RecordManualPayment(r);
        case Confirm(k, now) => error := ConfirmPayment(k, now);
        case Refund(k) => error := RefundPayment(k);
        case RefundByOrg(k) => error := RefundPaymentByOrg(k);
        case Reject(k) => error := RejectPayment(k);
        case Move(k, to) =>
          if k >= |payments| { return Some(404); }
          error := Transition(k, to);
        case Adjust(_, _, _, _, _) => error := ChangeSchedule(r);
        case Extend(_) => error := ChangeSchedule(r);
      }
    }

    /** A request inside `get_db`. */
    method Serve(r: Request) returns (error: Option<int>)
      modifies this, schedules
      ensures State() == Step(old(State()), r)
      ensures error.None? <==> Handle(old(State()), r).Returned?
      ensures old(Sound(State())) ==> (Sound(State()) <==> old(Fair(State(), r)))
      ensures old(Sound(State())) && !r.RefundByOrg? ==> Balances(old(State()), State())
    {
      var saved := State();
      StepSoundness(saved, r);
      error := Dispatch(r);
      if error.Some? {
        schedules.rows, payments := saved.rows, saved.payments;
      }
    }
  }

  lemma StepSoundness(b: Books, r: Request)
    ensures Sound(b) ==> (Sound(Step(b, r)) <==> Fair(b, r)) && (!r.RefundByOrg? ==> Balances(b, Step(b, r)))
  {
    if Sound(b) { StepSoundIff(b, r); }
  }
}
