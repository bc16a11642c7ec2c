/** The payment-before-signing flow of a lease. */
module LeaseOnboarding {
  import opened Collections
  import opened StateMachines

  datatype LeaseStatus =
    | Draft | OnboardingStarted | AgreementPreviewed | TermsAccepted | PaymentPending
    | PaymentSecured | AgreementSigned | Active | ExpiredLease | Terminated

  datatype Event = Opened | Previewed | Accepted | Submitted | Confirmed | Failed | Signed | Activated | Unknown(name: string)

  const LEASE: Machine<LeaseStatus, Event> := Machine(map[
    Draft := map[Opened := OnboardingStarted],
    OnboardingStarted := map[Previewed := AgreementPreviewed],
    AgreementPreviewed := map[Accepted := TermsAccepted],
    TermsAccepted := map[Submitted := PaymentPending],
    PaymentPending := map[Confirmed := PaymentSecured, Failed := TermsAccepted],
    PaymentSecured := map[Signed := AgreementSigned],
    AgreementSigned := map[Activated := Active]])

  /** k payment attempts that failed. */
  function Attempts(k: nat): seq<Event>
  {
    if k == 0 then [] else [Submitted, Failed] + Attempts(k - 1)
  }

  const CLOSING: seq<Event> := [Submitted, Confirmed, Signed, Activated]

  /** The events that take a lease from draft to active when k payments fail on the way. */
  function Path(k: nat): seq<Event>
  {
    [Opened, Previewed, Accepted] + (Attempts(k) + CLOSING)
  }

  lemma Unroll(s: LeaseStatus, es: seq<Event>)
    requires es != []
    ensures LEASE.Follow(s, es)
            == (if LEASE.Can(s, es[0]) then LEASE.Follow(LEASE.table[s][es[0]], es[1..]) else None)
  {
  }

  /** Nothing leaves the active state. */
  lemma ActiveIsAbsorbing(es: seq<Event>)
    ensures LEASE.Follow(Active, es) == if es == [] then Some(Active) else None
  {
  }

  lemma SignThenActivate(es: seq<Event>)
    ensures LEASE.Follow(PaymentSecured, es) == Some(Active) <==> es == [Signed, Activated]
  {
    if |es| >= 2 {
      Unroll(PaymentSecured, es);
      Unroll(AgreementSigned, es[1..]);
      ActiveIsAbsorbing(es[2..]);
      assert es[1..][1..] == es[2..];
    }
  }

  /** From accepted terms the lease becomes active exactly along failed attempts and one that succeeds. */
  lemma {:induction false} FromTermsAccepted(es: seq<Event>)
    ensures LEASE.Follow(TermsAccepted, es) == Some(Active) ==> exists k: nat :: es == Attempts(k) + CLOSING
    decreases |es|
  {
    if LEASE.Follow(TermsAccepted, es) == Some(Active) {
      assert es != [] && es[0] == Submitted;
      var rest := es[1..];
      assert LEASE.Follow(PaymentPending, rest) == Some(Active);
      assert rest != [] && (rest[0] == Confirmed || rest[0] == Failed);
      if rest[0] == Confirmed {
        SignThenActivate(rest[1..]);
        assert es == [es[0], rest[0]] + rest[1..];
        assert es == Attempts(0) + CLOSING;
      } else {
        FromTermsAccepted(rest[1..]);
        var k: nat :| rest[1..] == Attempts(k) + CLOSING;
        assert es == [es[0], rest[0]] + rest[1..];
        assert es == Attempts(k + 1) + CLOSING;
      }
    }
  }

  lemma {:induction false} AttemptsReachActive(k: nat)
    ensures LEASE.Follow(TermsAccepted, Attempts(k) + CLOSING) == Some(Active)
  {
    var es := Attempts(k) + CLOSING;
    Unroll(TermsAccepted, es);
    Unroll(PaymentPending, es[1..]);
    if k == 0 {
      assert es[1..][1..] == [Signed, Activated];
      SignThenActivate([Signed, Activated]);
    } else {
      assert es[1..][1..] == Attempts(k - 1) + CLOSING;
      AttemptsReachActive(k - 1);
    }
  }

  /** The event sequences from draft to active are exactly
      Opened Previewed Accepted (Submitted Failed)^k Submitted Confirmed Signed Activated. */
  lemma DraftToActive(es: seq<Event>)
    ensures LEASE.Follow(Draft, es) == Some(Active) <==> exists k: nat :: es == Path(k)
  {
    if LEASE.Follow(Draft, es) == Some(Active) {
      assert |es| >= 1 && es[0] == Opened;
      assert LEASE.Follow(OnboardingStarted, es[1..]) == Some(Active);
      assert |es| >= 2 && es[1] == Previewed;
      assert LEASE.Follow(AgreementPreviewed, es[1..][1..]) == Some(Active);
      assert |es| >= 3 && es[2] == Accepted;
      assert LEASE.Follow(TermsAccepted, es[1..][1..][1..]) == Some(Active);
      assert es[1..][1..][1..] == es[3..];
      FromTermsAccepted(es[3..]);
      var k: nat :| es[3..] == Attempts(k) + CLOSING;
      assert es == [es[0], es[1], es[2]] + es[3..];
      assert es == Path(k);
    }
    if k: nat :| es == Path(k) {
      AttemptsReachActive(k);
      Unroll(Draft, es);
      Unroll(OnboardingStarted, es[1..]);
      Unroll(AgreementPreviewed, es[1..][1..]);
      assert es[1..][1..][1..] == Attempts(k) + CLOSING;
    }
  }

  lemma {:induction false} AttemptsCounted(k: nat)
    ensures |Attempts(k)| == 2 * k && Count(Attempts(k), Submitted) == k && Count(Attempts(k), Failed) == k
  {
    if k > 0 {
      AttemptsCounted(k - 1);
      assert Attempts(k)[1..][1..] == Attempts(k - 1);
    }
  }

  /** Every such run has 7 + 2 * failures events and one more submission than failures. */
  lemma RunsCounted(es: seq<Event>)
    requires LEASE.Follow(Draft, es) == Some(Active)
    ensures |es| == 7 + 2 * Count(es, Failed)
    ensures Count(es, Submitted) == Count(es, Failed) + 1
  {
    DraftToActive(es);
    var k: nat :| es == Path(k);
    AttemptsCounted(k);
    forall e ensures Count(es, e) == Count([Opened, Previewed, Accepted], e) + Count(Attempts(k), e) + Count(CLOSING, e) {
      CountAppend([Opened, Previewed, Accepted], Attempts(k) + CLOSING, e);
      CountAppend(Attempts(k), CLOSING, e);
    }
    assert Count([Opened, Previewed, Accepted], Failed) == 0 && Count([Opened, Previewed, Accepted], Submitted) == 0;
    assert Count(CLOSING, Failed) == 0 && Count(CLOSING, Submitted) == 1;
  }

  // ----- Runs that have not come to an end -----

  predicate OnTheWay(s: LeaseStatus) { s != ExpiredLease && s != Terminated }

  /** The shortest way from a status to active. */
  function WayOn(s: LeaseStatus): seq<Event>
    requires OnTheWay(s)
  {
    match s
    case Draft => [Opened, Previewed, Accepted, Submitted, Confirmed, Signed, Activated]
    case OnboardingStarted => [Previewed, Accepted, Submitted, Confirmed, Signed, Activated]
    case AgreementPreviewed => [Accepted, Submitted, Confirmed, Signed, Activated]
    case TermsAccepted => [Submitted, Confirmed, Signed, Activated]
    case PaymentPending => [Confirmed, Signed, Activated]
    case PaymentSecured => [Signed, Activated]
    case AgreementSigned => [Activated]
    case Active => []
  }

  lemma {:induction false} WayOnReachesActive(s: LeaseStatus)
    requires OnTheWay(s)
    ensures LEASE.Follow(s, WayOn(s)) == Some(Active)
    decreases |WayOn(s)|
  {
    if s != Active {
      var next := LEASE.table[s][WayOn(s)[0]];
      assert WayOn(s)[1..] == WayOn(next);
      WayOnReachesActive(next);
      Unroll(s, WayOn(s));
    }
  }

  lemma {:induction false} StaysOnTheWay(s: LeaseStatus, es: seq<Event>)
    requires OnTheWay(s) && LEASE.Follow(s, es).Some?
    ensures OnTheWay(LEASE.Follow(s, es).value)
    decreases |es|
  {
    if es != [] { StaysOnTheWay(LEASE.table[s][es[0]], es[1..]); }
  }

  /** The event sequences that a draft accepts are exactly the beginnings of the paths to active: no event leads
      anywhere else, and no run gets stuck. */
  lemma AcceptedFromDraft(es: seq<Event>)
    ensures LEASE.Follow(Draft, es).Some? <==> exists k: nat :: es <= Path(k)
  {
    if LEASE.Follow(Draft, es).Some? {
      var s := LEASE.Follow(Draft, es).value;
      StaysOnTheWay(Draft, es);
      WayOnReachesActive(s);
      FollowAppend(LEASE, Draft, es, WayOn(s));
      DraftToActive(es + WayOn(s));
      var k: nat :| es + WayOn(s) == Path(k);
      assert es <= Path(k);
    }
    if k: nat :| es <= Path(k) {
      DraftToActive(Path(k));
      assert Path(k) == es + Path(k)[|es|..];
      FollowAppend(LEASE, Draft, es, Path(k)[|es|..]);
    }
  }

  /** A status can be left or entered through the machine only on the way from draft to active. */
  lemma OffTheWay(s: LeaseStatus, e: Event)
    ensures !OnTheWay(s) ==> !LEASE.Can(s, e)
    ensures LEASE.Can(s, e) ==> OnTheWay(LEASE.table[s][e]) && LEASE.table[s][e] != Draft
  {
  }
}
