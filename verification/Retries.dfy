/** Retrying and failing a payment, each request inside `get_db`, for any transition table. */
module Retries {
  import opened Collections
  import opened Transactions
  import opened PaymentStates

  datatype Payment = Payment(
    status: PaymentStatus, retryCount: Option<nat>, failureReason: Option<string>, predictedScore: Option<real>)

  /** `p.retry_count or 0` */
  function RetriesOf(p: Payment): nat
  {
    if p.retryCount.Some? then p.retryCount.value else 0
  }

  /** What the requests depend on: the table, the statuses that may be retried, and `maxRetries`. */
  datatype Config = Config(table: Table, retryable: PaymentStatus -> bool, maxRetries: int)

  datatype Request =
    | Retry(score: real)
    | MarkFailed(reason: string)
    /** Any other change of status through `transition`. */
    | Move(to: PaymentStatus)

  function Moved(c: Config, p: Payment, to: PaymentStatus): Outcome<Payment>
  {
    if Allowed(c.table, p.status, to) then Returned(p.(status := to)) else Raised(p, 400)
  }

  /** `retry_payment` */
  function Retried(c: Config, p: Payment, score: real): Outcome<Payment>
  {
    if !c.retryable(p.status) then Raised(p, 400)
    else if RetriesOf(p) >= c.maxRetries then
      var o := Moved(c, p, PermanentlyFailed);
      Raised(if o.Returned? then o.state else o.unsaved, 400)
    else
      var scheduled := if p.status != RetryScheduled then Moved(c, p, RetryScheduled) else Returned(p);
      match scheduled
      case Raised(_, _) => scheduled
      case Returned(q) =>
        Moved(c, q.(retryCount := Some(RetriesOf(p) + 1), failureReason := None, predictedScore := Some(score)), Routed)
  }

  /** `mark_payment_failed` */
  function Failing(c: Config, p: Payment, reason: string): Outcome<Payment>
  {
    var q := p.(failureReason := Some(reason));
    if q.status !in TERMINAL then Moved(c, q, PermanentlyFailed) else Returned(q)
  }

  function Handle(c: Config, p: Payment, r: Request): Outcome<Payment>
  {
    match r
    case Retry(score) => Retried(c, p, score)
    case MarkFailed(reason) => Failing(c, p, reason)
    case Move(to) => Moved(c, p, to)
  }

  function Step(c: Config, p: Payment, r: Request): Payment
  {
    Settle(p, Handle(c, p, r))
  }

  function Run(c: Config, p: Payment, rs: seq<Request>): Payment
    decreases |rs|
  {
    if rs == [] then p else Run(c, Step(c, p, rs[0]), rs[1..])
  }

  predicate AcceptedRetry(c: Config, p: Payment, r: Request)
  {
    r.Retry? && Handle(c, p, r).Returned?
  }

  /** How many retries of the run are accepted. */
  function Accepted(c: Config, p: Payment, rs: seq<Request>): nat
    decreases |rs|
  {
    if rs == [] then 0
    else (if AcceptedRetry(c, p, rs[0]) then 1 else 0) + Accepted(c, Step(c, p, rs[0]), rs[1..])
  }

  function Max(a: int, b: int): int { if a >= b then a else b }

  // ----- Bounded retries, whatever the table -----

  /** The stored count rises by one with each accepted retry and with nothing else, an accepted retry
      leaves the payment routed with its old failure cleared, and a refused one leaves no trace. */
  lemma RetryEffect(c: Config, p: Payment, r: Request)
    ensures RetriesOf(Step(c, p, r)) == RetriesOf(p) + if AcceptedRetry(c, p, r) then 1 else 0
    ensures AcceptedRetry(c, p, r) ==> RetriesOf(p) < c.maxRetries && c.retryable(p.status)
    ensures AcceptedRetry(c, p, r) ==>
              Step(c, p, r) == Payment(Routed, Some(RetriesOf(p) + 1), None, Some(r.score))
    ensures r.Retry? && !AcceptedRetry(c, p, r) ==> Step(c, p, r) == p
  {
  }

  /** Over every run of requests: the count moves with the accepted retries, never passes the limit
      (or where it started), and so only so many retries are ever accepted. */
  lemma {:induction false} RetriesBounded(c: Config, p: Payment, rs: seq<Request>)
    ensures RetriesOf(Run(c, p, rs)) == RetriesOf(p) + Accepted(c, p, rs)
    ensures RetriesOf(Run(c, p, rs)) <= Max(c.maxRetries, RetriesOf(p))
    ensures Accepted(c, p, rs) <= Max(0, c.maxRetries - RetriesOf(p))
    decreases |rs|
  {
    if rs != [] {
      RetryEffect(c, p, rs[0]);
      RetriesBounded(c, Step(c, p, rs[0]), rs[1..]);
    }
  }

  /** At the limit the payment is marked permanently failed and the request then refused, so the mark
      is rolled back: a payment in a retryable status is refused again and again, unchanged. */
  lemma {:induction false} LimitNeverFailsPayment(c: Config, p: Payment, scores: seq<real>)
    requires RetriesOf(p) >= c.maxRetries
    ensures Run(c, p, seq(|scores|, i requires 0 <= i < |scores| => Retry(scores[i]))) == p
    decreases |scores|
  {
    var rs := seq(|scores|, i requires 0 <= i < |scores| => Retry(scores[i]));
    if scores != [] {
      LimitNeverFailsPayment(c, p, scores[1..]);
      assert rs[1..] == seq(|scores[1..]|, i requires 0 <= i < |scores[1..]| => Retry(scores[1..][i]));
    }
  }

  // ----- The service's own table -----

  function Actual(maxRetries: int): Config
  {
    Config(VALID_TRANSITIONS, IsRetryable, maxRetries)
  }

  /** A retry is accepted exactly in the two retryable statuses below the limit: the state machine
      never refuses a step of it. */
  lemma RetryAcceptedIff(maxRetries: int, p: Payment, score: real)
    ensures AcceptedRetry(Actual(maxRetries), p, Retry(score))
            <==> p.status in {RetryScheduled, Failed} && RetriesOf(p) < maxRetries
  {
  }

  lemma OpenCanFail(s: PaymentStatus)
    ensures s !in TERMINAL ==> Allowed(VALID_TRANSITIONS, s, PermanentlyFailed)
  {
    match s
    case Pending => case Confirmed => case Failed => case Refunded =>
    case Initiated => case Predicted => case Routed => case Reconciled => case Allocated => case Completed =>
    case PredictedFailure => case RetryScheduled => case PermanentlyFailed => case Rejected => case Cancelled =>
  }

  /** Marking a payment as failed never raises, and leaves it in a terminal status with the reason. */
  lemma MarkingAlwaysSucceeds(maxRetries: int, p: Payment, reason: string)
    ensures var o := Handle(Actual(maxRetries), p, MarkFailed(reason));
            o.Returned? && o.state.failureReason == Some(reason) && o.state.status in TERMINAL
            && (p.status in TERMINAL ==> o.state.status == p.status)
            && (p.status !in TERMINAL ==> o.state.status == PermanentlyFailed)
  {
    OpenCanFail(p.status);
  }

  predicate Final(s: PaymentStatus)
  {
    s in {PermanentlyFailed, Rejected, Cancelled, Refunded}
  }

  lemma {:induction false} FinalForever(maxRetries: int, p: Payment, rs: seq<Request>)
    requires Final(p.status)
    ensures Run(Actual(maxRetries), p, rs).status == p.status
    ensures Accepted(Actual(maxRetries), p, rs) == 0
    decreases |rs|
  {
    if rs != [] {
      FinalForever(maxRetries, Step(Actual(maxRetries), p, rs[0]), rs[1..]);
    }
  }

  /** A status other than the final ones from which a payment can move on. */
  function Exit(s: PaymentStatus): PaymentStatus
  {
    if s == Completed || s == Confirmed then Refunded else if s == PredictedFailure then Rejected else PermanentlyFailed
  }

  lemma ExitAllowed(s: PaymentStatus)
    requires !Final(s)
    ensures Allowed(VALID_TRANSITIONS, s, Exit(s)) && Exit(s) != s
  {
    match s
    case Pending => case Confirmed => case Failed =>
    case Initiated => case Predicted => case Routed => case Reconciled => case Allocated => case Completed =>
    case PredictedFailure => case RetryScheduled =>
  }

  lemma OneMove(c: Config, p: Payment, to: PaymentStatus)
    requires Allowed(c.table, p.status, to)
    ensures Run(c, p, [Move(to)]) == p.(status := to)
  {
    assert [Move(to)][1..] == [];
    assert Step(c, p, Move(to)) == p.(status := to);
  }

  /** The four statuses without exits are exactly those that no run ever leaves; every other status,
      those the module calls terminal included, can be left. */
  lemma FinalIff(maxRetries: int, p: Payment)
    ensures Final(p.status) ==> forall rs: seq<Request> :: Run(Actual(maxRetries), p, rs).status == p.status
    ensures !Final(p.status) ==> exists rs: seq<Request> :: Run(Actual(maxRetries), p, rs).status != p.status
  {
    if Final(p.status) {
      forall rs: seq<Request> ensures Run(Actual(maxRetries), p, rs).status == p.status {
        FinalForever(maxRetries, p, rs);
      }
    } else {
      ExitAllowed(p.status);
      OneMove(Actual(maxRetries), p, Exit(p.status));
    }
  }

  // ----- The row, changed in place -----

  class PaymentRow {
    const config: Config
    var status: PaymentStatus
    var retryCount: Option<nat>
    var failureReason: Option<string>
    var predictedScore: Option<real>

    function State(): Payment
      reads this
    {
      Payment(status, retryCount, failureReason, predictedScore)
    }

    constructor (config: Config, p: Payment)
      ensures this.config == config && State() == p
    {
      this.config := config;
      status, retryCount, failureReason, predictedScore := p.status, p.retryCount, p.failureReason, p.predictedScore;
    }

    method Transition(to: PaymentStatus) returns (error: Option<int>)
      modifies this
      ensures Did(Moved(config, old(State()), to), State(), error)
    {
      if !Allowed(config.table, status, to) { return Some(400); }
      status := to;
      return None;
    }

    method RetryPayment(score: real) returns (error: Option<int>)
      modifies this
      ensures Did(Retried(config, old(State()), score), State(), error)
    {
      var current := status;
      if !config.retryable(current) { return Some(400); }
      var currentRetries := RetriesOf(State());
      if currentRetries >= config.maxRetries {
        error := Transition(PermanentlyFailed);
        return Some(400);
      }
      if current != RetryScheduled {
        error := Transition(RetryScheduled);
        if error.Some? { return; }
      }
      retryCount := Some(currentRetries + 1);
      failureReason := None;
      predictedScore := Some(score);
      error := Transition(Routed);
    }

    method MarkPaymentFailed(reason: string) returns (error: Option<int>)
      modifies this
      ensures Did(Failing(config, old(State()), reason), State(), error)
    {
      failureReason := Some(reason);
      if status !in TERMINAL {
        error := Transition(PermanentlyFailed);
      } else {
        error := None;
      }
    }

    /** A request inside `get_db`. */
    method Serve(r: Request) returns (error: Option<int>)
      modifies this
      ensures State() == Step(config, old(State()), r)
      ensures error.None? <==> Handle(config, old(State()), r).Returned?
      ensures RetriesOf(State()) <= Max(config.maxRetries, old(RetriesOf(State())))
    {
      var saved := State();
      RetryEffect(config, saved, r);
      match r {
        case Retry(score) => error := RetryPayment(score);
        case MarkFailed(reason) => error := MarkPaymentFailed(reason);
        case Move(to) => error := Transition(to);
      }
      if error.Some? {
        status, retryCount := saved.status, saved.retryCount;
        failureReason, predictedScore := saved.failureReason, saved.predictedScore;
      }
    }
  }
}
