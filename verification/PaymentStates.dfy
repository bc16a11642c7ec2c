/** The payment state machine: statuses, the transition table and the classes of statuses. */
module PaymentStates {

  datatype PaymentStatus =
    | Pending | Confirmed | Failed | Refunded
    | Initiated | Predicted | Routed | Reconciled | Allocated | Completed
    | PredictedFailure | RetryScheduled | PermanentlyFailed
    | Rejected | Cancelled

  type Table = map<PaymentStatus, set<PaymentStatus>>

  const VALID_TRANSITIONS: Table := map[
    Initiated := {Predicted, Routed, Pending, PredictedFailure, PermanentlyFailed, Rejected, Cancelled},
    Predicted := {Routed, Pending, PredictedFailure, PermanentlyFailed, Rejected, Cancelled},
    Routed := {Pending, RetryScheduled, PermanentlyFailed, Rejected, Cancelled},
    Pending := {Reconciled, RetryScheduled, PermanentlyFailed, Confirmed, Completed, Rejected, Cancelled},
    Reconciled := {Allocated, PermanentlyFailed, Rejected},
    Allocated := {Completed, PermanentlyFailed, Rejected},
    Completed := {Refunded},
    PredictedFailure := {Routed, Rejected},
    RetryScheduled := {Routed, Pending, PermanentlyFailed, Rejected, Cancelled},
    PermanentlyFailed := {},
    Rejected := {},
    Cancelled := {},
    Confirmed := {Refunded, Completed},
    Failed := {RetryScheduled, PermanentlyFailed},
    Refunded := {}]

  const TERMINAL: set<PaymentStatus> :=
    {Completed, Confirmed, PermanentlyFailed, PredictedFailure, Failed, Rejected, Cancelled, Refunded}

  const SUCCESSFUL: set<PaymentStatus> := {Completed, Confirmed}

  predicate Allowed(table: Table, from: PaymentStatus, to: PaymentStatus)
  {
    from in table && to in table[from]
  }

  predicate IsRetryable(s: PaymentStatus)
  {
    s in {RetryScheduled, Failed, PermanentlyFailed} && s !in {PermanentlyFailed}
  }

  predicate CanBeConfirmed(s: PaymentStatus)
  {
    s in {Initiated, Predicted, Routed, Pending, Reconciled, Allocated, Confirmed}
  }

  /** In progress, or failed without having been formally closed. */
  predicate CanBeRejected(s: PaymentStatus)
  {
    s !in TERMINAL || s in {PermanentlyFailed, PredictedFailure, Failed}
  }

  /** The table read the other way: from which statuses each status can be entered. */
  lemma EnteredFrom(s: PaymentStatus, to: PaymentStatus)
    ensures Allowed(VALID_TRANSITIONS, s, to) <==>
            match to
            case Predicted => s == Initiated
            case Routed => s in {Initiated, Predicted, PredictedFailure, RetryScheduled}
            case Pending => s in {Initiated, Predicted, Routed, RetryScheduled}
            case Reconciled => s == Pending
            case Allocated => s == Reconciled
            case Completed => s in {Pending, Allocated, Confirmed}
            case Confirmed => s == Pending
            case Refunded => s in {Completed, Confirmed}
            case PredictedFailure => s in {Initiated, Predicted}
            case RetryScheduled => s in {Routed, Pending, Failed}
            case PermanentlyFailed =>
              s in {Initiated, Predicted, Routed, Pending, RetryScheduled, Reconciled, Allocated, Failed}
            case Rejected =>
              s in {Initiated, Predicted, Routed, Pending, RetryScheduled, Reconciled, Allocated, PredictedFailure}
            case Cancelled => s in {Initiated, Predicted, Routed, Pending, RetryScheduled}
            case Initiated => false
            case Failed => false
  {
    match s
    case Pending => case Confirmed => case Failed => case Refunded =>
    case Initiated => case Predicted => case Routed => case Reconciled => case Allocated => case Completed =>
    case PredictedFailure => case RetryScheduled => case PermanentlyFailed => case Rejected => case Cancelled =>
  }

  /** All statuses but these seven are called terminal. */
  lemma TerminalIff(s: PaymentStatus)
    ensures s in TERMINAL <==> s !in {Initiated, Predicted, Routed, Pending, Reconciled, Allocated, RetryScheduled}
    ensures IsRetryable(s) <==> s == RetryScheduled || s == Failed
  {
    match s
    case Pending => case Confirmed => case Failed => case Refunded =>
    case Initiated => case Predicted => case Routed => case Reconciled => case Allocated => case Completed =>
    case PredictedFailure => case RetryScheduled => case PermanentlyFailed => case Rejected => case Cancelled =>
  }
}
