/** The onboarding of a tenant, with any number of rejections. */
module TenantOnboarding {
  import opened Collections
  import opened StateMachines

  datatype OnboardingState = Invited | Started | Submitted | Approved | Rejected | Activated

  datatype Event =
    | OnboardingStarted | OnboardingCompleted | TenantApproved | TenantRejected | TenantActivated
    | InviteSent | Resubmitted | Unknown(name: string)

  const ONBOARDING: Machine<OnboardingState, Event> := Machine(map[
    Invited := map[OnboardingStarted := Started],
    Started := map[OnboardingCompleted := Submitted],
    Submitted := map[TenantApproved := Approved, TenantRejected := Rejected],
    Approved := map[TenantActivated := Activated],
    Activated := map[],
    Rejected := map[InviteSent := Invited, Resubmitted := Submitted]])

  /** What follows a rejection: new documents, or a fresh invite and a new application. */
  datatype Round = Correct | Restart

  function Events(r: Round): seq<Event>
  {
    match r
    case Correct => [TenantRejected, Resubmitted]
    case Restart => [TenantRejected, InviteSent, OnboardingStarted, OnboardingCompleted]
  }

  function Rounds(rs: seq<Round>): seq<Event>
  {
    if rs == [] then [] else Events(rs[0]) + Rounds(rs[1..])
  }

  const APPLY: seq<Event> := [OnboardingStarted, OnboardingCompleted]

  const FINISH: seq<Event> := [TenantApproved, TenantActivated]

  function Path(rs: seq<Round>): seq<Event>
  {
    APPLY + (Rounds(rs) + FINISH)
  }

  lemma Unroll(s: OnboardingState, es: seq<Event>)
    requires es != []
    ensures ONBOARDING.Follow(s, es)
            == (if ONBOARDING.Can(s, es[0]) then ONBOARDING.Follow(ONBOARDING.table[s][es[0]], es[1..]) else None)
  {
  }

  lemma OnlyActivation(es: seq<Event>)
    ensures ONBOARDING.Follow(Approved, es) == Some(Activated) <==> es == [TenantActivated]
  {
    if es != [] {
      Unroll(Approved, es);
      if |es| >= 2 { Unroll(Activated, es[1..]); }
    }
  }

  /** The round that a rejection opens, and what follows it. */
  lemma FirstRound(es: seq<Event>) returns (round: Round, tail: seq<Event>)
    requires ONBOARDING.Follow(Submitted, es) == Some(Activated) && es[..1] == [TenantRejected]
    ensures es == Events(round) + tail && ONBOARDING.Follow(Submitted, tail) == Some(Activated) && |tail| < |es|
  {
    var rest := es[1..];
    Unroll(Submitted, es);
    Unroll(Rejected, rest);
    if rest[0] == Resubmitted {
      round, tail := Correct, rest[1..];
      assert es == [es[0], rest[0]] + tail;
    } else {
      FromInvited(rest[1..]);
      round, tail := Restart, rest[1..][2..];
      assert rest[1..] == APPLY + tail;
      assert es == [es[0], rest[0]] + rest[1..];
    }
  }

  lemma {:induction false} FromSubmitted(es: seq<Event>)
    ensures ONBOARDING.Follow(Submitted, es) == Some(Activated) ==> exists rs :: es == Rounds(rs) + FINISH
    decreases |es|
  {
    if ONBOARDING.Follow(Submitted, es) == Some(Activated) {
      assert es != [] && (es[0] == TenantApproved || es[0] == TenantRejected);
      if es[0] == TenantApproved {
        OnlyActivation(es[1..]);
        assert es == [es[0]] + es[1..];
        assert es == Rounds([]) + FINISH;
      } else {
        var round, tail := FirstRound(es);
        FromSubmitted(tail);
        var rs :| tail == Rounds(rs) + FINISH;
        assert ([round] + rs)[1..] == rs;
        assert es == Rounds([round] + rs) + FINISH;
      }
    }
  }

  lemma FromInvited(es: seq<Event>)
    ensures ONBOARDING.Follow(Invited, es) == Some(Activated) <==>
            |es| >= 2 && es[..2] == APPLY && ONBOARDING.Follow(Submitted, es[2..]) == Some(Activated)
  {
    if |es| >= 2 {
      Unroll(Invited, es);
      Unroll(Started, es[1..]);
      assert es[1..][1..] == es[2..];
    }
  }

  /** A round leads back to submitted. */
  lemma RoundReturns(r: Round, tail: seq<Event>)
    ensures ONBOARDING.Follow(Submitted, Events(r) + tail) == ONBOARDING.Follow(Submitted, tail)
  {
    var es := Events(r) + tail;
    Unroll(Submitted, es);
    Unroll(Rejected, es[1..]);
    if r == Correct {
      assert es[1..][1..] == tail;
    } else {
      assert es[1..][1..] == APPLY + tail;
      Unroll(Invited, APPLY + tail);
      Unroll(Started, (APPLY + tail)[1..]);
      assert (APPLY + tail)[1..][1..] == tail;
    }
  }

  lemma {:induction false} RoundsReachActivated(rs: seq<Round>)
    ensures ONBOARDING.Follow(Submitted, Rounds(rs) + FINISH) == Some(Activated)
    decreases |rs|
  {
    if rs == [] {
      assert Rounds(rs) + FINISH == FINISH;
      Unroll(Submitted, FINISH);
      OnlyActivation(FINISH[1..]);
    } else {
      RoundsReachActivated(rs[1..]);
      RoundReturns(rs[0], Rounds(rs[1..]) + FINISH);
      assert Rounds(rs) + FINISH == Events(rs[0]) + (Rounds(rs[1..]) + FINISH);
    }
  }

  /** The event sequences from invited to activated are exactly: apply, any rounds of rejection, approval
      and activation. */
  lemma InvitedToActivated(es: seq<Event>)
    ensures ONBOARDING.Follow(Invited, es) == Some(Activated) <==> exists rs :: es == Path(rs)
  {
    FromInvited(es);
    if ONBOARDING.Follow(Invited, es) == Some(Activated) {
      FromSubmitted(es[2..]);
      var rs :| es[2..] == Rounds(rs) + FINISH;
      assert es == es[..2] + es[2..];
      assert es == Path(rs);
    }
    if rs :| es == Path(rs) {
      RoundsReachActivated(rs);
      assert es[2..] == Rounds(rs) + FINISH;
    }
  }

  lemma {:induction false} RoundsCounted(rs: seq<Round>)
    ensures Count(Rounds(rs), TenantApproved) == 0
    ensures Count(Rounds(rs), OnboardingStarted) == Count(Rounds(rs), OnboardingCompleted) == Count(Rounds(rs), InviteSent)
    ensures Count(Rounds(rs), TenantRejected) == Count(Rounds(rs), InviteSent) + Count(Rounds(rs), Resubmitted)
    ensures rs != [] ==> Rounds(rs) != [] && Rounds(rs)[|Rounds(rs)| - 1] in {OnboardingCompleted, Resubmitted}
  {
    if rs != [] {
      RoundsCounted(rs[1..]);
      forall e ensures Count(Rounds(rs), e) == Count(Events(rs[0]), e) + Count(Rounds(rs[1..]), e) {
        CountAppend(Events(rs[0]), Rounds(rs[1..]), e);
      }
      EventsCounted(rs[0]);
    }
  }

  lemma EventsCounted(r: Round)
    ensures Count(Events(r), TenantApproved) == 0 && Count(Events(r), TenantRejected) == 1
    ensures var restarts := if r == Restart then 1 else 0;
            Count(Events(r), OnboardingStarted) == Count(Events(r), OnboardingCompleted) == restarts
            && Count(Events(r), InviteSent) == restarts
            && Count(Events(r), Resubmitted) == 1 - restarts
  {
    forall e ensures Count(Events(Correct), e) == (if e == TenantRejected || e == Resubmitted then 1 else 0) {
      CountPair(TenantRejected, Resubmitted, e);
    }
    forall e
      ensures Count(Events(Restart), e)
              == if e in {TenantRejected, InviteSent, OnboardingStarted, OnboardingCompleted} then 1 else 0
    {
      assert Events(Restart) == [TenantRejected, InviteSent] + APPLY;
      CountAppend([TenantRejected, InviteSent], APPLY, e);
      CountPair(TenantRejected, InviteSent, e);
      CountPair(OnboardingStarted, OnboardingCompleted, e);
    }
  }

  lemma PathCounted(rs: seq<Round>, e: Event)
    ensures Count(Path(rs), e)
            == Count(Rounds(rs), e)
               + if e in {OnboardingStarted, OnboardingCompleted, TenantApproved, TenantActivated} then 1 else 0
  {
    CountAppend(APPLY, Rounds(rs) + FINISH, e);
    CountAppend(Rounds(rs), FINISH, e);
    CountPair(OnboardingStarted, OnboardingCompleted, e);
    CountPair(TenantApproved, TenantActivated, e);
  }

  lemma PathEnd(rs: seq<Round>)
    ensures |Path(rs)| >= 4 && Path(rs)[|Path(rs)| - 2] == TenantApproved
    ensures Path(rs)[|Path(rs)| - 3] in {OnboardingCompleted, Resubmitted}
  {
    RoundsCounted(rs);
    assert Path(rs) == APPLY + Rounds(rs) + FINISH;
  }

  lemma PathTotals(rs: seq<Round>)
    ensures Count(Path(rs), TenantApproved) == 1
    ensures Count(Path(rs), OnboardingStarted) == Count(Path(rs), OnboardingCompleted) == Count(Path(rs), InviteSent) + 1
    ensures Count(Path(rs), TenantRejected) == Count(Path(rs), InviteSent) + Count(Path(rs), Resubmitted)
  {
    RoundsCounted(rs);
    forall e { PathCounted(rs, e); }
  }

  /** In every run to activation: one approval, right after a completion or a resubmission; as many
      starts as completions, one more than invites sent again; and every rejection answered by a
      fresh invite or a resubmission. */
  lemma RunsCounted(es: seq<Event>)
    requires ONBOARDING.Follow(Invited, es) == Some(Activated)
    ensures Count(es, TenantApproved) == 1
    ensures |es| >= 4 && es[|es| - 2] == TenantApproved && es[|es| - 3] in {OnboardingCompleted, Resubmitted}
    ensures Count(es, OnboardingStarted) == Count(es, OnboardingCompleted) == Count(es, InviteSent) + 1
    ensures Count(es, TenantRejected) == Count(es, InviteSent) + Count(es, Resubmitted)
  {
    InvitedToActivated(es);
    var rs :| es == Path(rs);
    PathTotals(rs);
    PathEnd(rs);
  }

  // ----- Runs that have not come to an end -----

  /** The shortest way from a state to activated. */
  function WayOn(s: OnboardingState): seq<Event>
  {
    match s
    case Invited => [OnboardingStarted, OnboardingCompleted, TenantApproved, TenantActivated]
    case Started => [OnboardingCompleted, TenantApproved, TenantActivated]
    case Rejected => [Resubmitted, TenantApproved, TenantActivated]
    case Submitted => [TenantApproved, TenantActivated]
    case Approved => [TenantActivated]
    case Activated => []
  }

  lemma {:induction false} WayOnReachesActivated(s: OnboardingState)
    ensures ONBOARDING.Follow(s, WayOn(s)) == Some(Activated)
    decreases |WayOn(s)|
  {
    if s != Activated {
      var next := ONBOARDING.table[s][WayOn(s)[0]];
      assert WayOn(s)[1..] == WayOn(next);
      WayOnReachesActivated(next);
      Unroll(s, WayOn(s));
    }
  }

  /** The event sequences that an invited tenant can go through are exactly the beginnings of the paths to
      activated: no event leads anywhere else, and no run gets stuck. */
  lemma AcceptedFromInvited(es: seq<Event>)
    ensures ONBOARDING.Follow(Invited, es).Some? <==> exists rs :: es <= Path(rs)
  {
    if ONBOARDING.Follow(Invited, es).Some? {
      var s := ONBOARDING.Follow(Invited, es).value;
      WayOnReachesActivated(s);
      FollowAppend(ONBOARDING, Invited, es, WayOn(s));
      InvitedToActivated(es + WayOn(s));
      var rs :| es + WayOn(s) == Path(rs);
      assert es <= Path(rs);
    }
    if rs :| es <= Path(rs) {
      InvitedToActivated(Path(rs));
      assert Path(rs) == es + Path(rs)[|es|..];
      FollowAppend(ONBOARDING, Invited, es, Path(rs)[|es|..]);
    }
  }
}
