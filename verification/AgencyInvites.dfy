/** The agency invite service: create, view, complete, resend and revoke, one request at a time. */
module AgencyInvites {
  import opened Collections
  import opened Transactions
  import opened Slugs

  datatype Status = Pending | Accepted | Expired | Revoked

  /** Times are in microseconds. */
  const FOURTEEN_DAYS := 14 * 86_400 * 1_000_000

  datatype Invite = Invite(
    email: string, agencyName: string, token: string, status: Status,
    expiresAt: int, acceptedAt: Option<int>, organisation: Option<nat>)

  datatype Profile = Profile(email: Option<string>, organisation: Option<nat>, role: string)

  datatype Organisation = Organisation(name: string, slug: string)

  datatype Tables = Tables(
    invites: map<nat, Invite>, profiles: map<nat, Profile>, organisations: map<nat, Organisation>)

  /** Where a call to another system raises while onboarding is being completed. */
  datatype Failure = Nowhere | AtIdentityProvider | AtRoles | AtEmail

  datatype Request =
    | Create(id: nat, email: string, agencyName: string, token: string, now: int)
    | View(token: string, now: int)
    | Complete(token: string, agencyName: string, orgId: nat, profileId: nat, now: int, failure: Failure)
    | Resend(id: nat, now: int, emailFails: bool)
    | Revoke(id: nat)

  // ----- Queries -----

  function InvitesWith(t: Tables, email: string, status: Status): set<nat>
  {
    set i | i in t.invites && t.invites[i].email == email && t.invites[i].status == status
  }

  function InvitesByToken(t: Tables, token: string): set<nat>
  {
    set i | i in t.invites && t.invites[i].token == token
  }

  function ProfilesByEmail(t: Tables, email: string): set<nat>
  {
    set p | p in t.profiles && t.profiles[p].email == Some(email)
  }

  function UsedSlugs(t: Tables): set<string>
  {
    set o | o in t.organisations :: t.organisations[o].slug
  }

  /** The row of a one-row result. */
  ghost function Only(rows: set<nat>): (r: nat)
    requires |rows| == 1
    ensures rows == {r}
  {
    var r :| r in rows;
    assert |rows - {r}| == 0;
    r
  }

  // ----- Handlers -----

  /** `create_agency_invite`. `scalar_one_or_none` raises (500) on two rows; a duplicate id or token
      violates a unique constraint. */
  function Created(t: Tables, r: Request): Outcome<Tables>
    requires r.Create?
  {
    if |InvitesWith(t, r.email, Accepted)| > 1 then Raised(t, 500)
    else if |InvitesWith(t, r.email, Accepted)| == 1 then Raised(t, 409)
    else if |InvitesWith(t, r.email, Pending)| > 1 then Raised(t, 500)
    else if |InvitesWith(t, r.email, Pending)| == 1 then Raised(t, 409)
    else if r.id in t.invites || InvitesByToken(t, r.token) != {} then Raised(t, 500)
    else
      var invite := Invite(r.email, r.agencyName, r.token, Pending, r.now + FOURTEEN_DAYS, None, None);
      Returned(t.(invites := t.invites[r.id := invite]))
  }

  /** `get_agency_invite_by_token` */
  ghost function Viewed(t: Tables, r: Request): Outcome<Tables>
    requires r.View?
  {
    var rows := InvitesByToken(t, r.token);
    if |rows| > 1 then Raised(t, 500)
    else if |rows| == 0 then Raised(t, 404)
    else
      var i := Only(rows);
      var invite := t.invites[i];
      if invite.status != Pending then Raised(t, 410)
      else if invite.expiresAt < r.now then
        Raised(t.(invites := t.invites[i := invite.(status := Expired)]), 410)
      else Returned(t)
  }

  /** The part of `complete_agency_onboarding` that sets up a new agency; `p` is the profile found. */
  function Founded(a: Alphabet, t: Tables, i: nat, p: Option<nat>, r: Request): Outcome<Tables>
    requires r.Complete? && i in t.invites && (p.Some? ==> p.value in t.profiles)
  {
    var slug := FirstUnused(Slugify(a, r.agencyName), UsedSlugs(t), 0);
    if r.failure == AtIdentityProvider then Raised(t, 500)
    else if r.orgId in t.organisations then Raised(t, 500)
    else
      var t1 := t.(organisations := t.organisations[r.orgId := Organisation(r.agencyName, slug)]);
      if p.None? && r.profileId in t.profiles then Raised(t1, 500)
      else
        var t2 :=
          if p.None? then
            t1.(profiles := t1.profiles[r.profileId := Profile(Some(t.invites[i].email), Some(r.orgId), "manager")])
          else
            t1.(profiles := t1.profiles[p.value := t1.profiles[p.value].(organisation := Some(r.orgId), role := "manager")]);
        if r.failure == AtRoles then Raised(t2, 500)
        else
          var t3 := t2.(invites := t2.invites[i := t2.invites[i].(
            status := Accepted, acceptedAt := Some(r.now), agencyName := r.agencyName, organisation := Some(r.orgId))]);
          if r.failure == AtEmail then Raised(t3, 500) else Returned(t3)
  }

  /** `complete_agency_onboarding` */
  ghost function Completed(a: Alphabet, t: Tables, r: Request): Outcome<Tables>
    requires r.Complete?
  {
    var rows := InvitesByToken(t, r.token);
    if |rows| > 1 then Raised(t, 500)
    else if |rows| == 0 || t.invites[Only(rows)].status != Pending then Raised(t, 404)
    else
      var i := Only(rows);
      var invite := t.invites[i];
      var owners := ProfilesByEmail(t, invite.email);
      if invite.expiresAt < r.now then
        Raised(t.(invites := t.invites[i := invite.(status := Expired)]), 410)
      else if |owners| > 1 then Raised(t, 500)
      else if |owners| == 1 && t.profiles[Only(owners)].organisation.Some? then
        Returned(t.(invites := t.invites[i := invite.(
          status := Accepted, acceptedAt := Some(r.now), organisation := t.profiles[Only(owners)].organisation)]))
      else Founded(a, t, i, if |owners| == 1 then Some(Only(owners)) else None, r)
  }

  /** `resend_agency_invite` */
  function Resent(t: Tables, r: Request): Outcome<Tables>
    requires r.Resend?
  {
    if r.id !in t.invites then Raised(t, 404)
    else if t.invites[r.id].status != Pending then Raised(t, 409)
    else
      var t1 := t.(invites := t.invites[r.id := t.invites[r.id].(expiresAt := r.now + FOURTEEN_DAYS)]);
      if r.emailFails then Raised(t1, 500) else Returned(t1)
  }

  /** `revoke_agency_invite`: whatever the invite's status is. */
  function Withdrawn(t: Tables, r: Request): Outcome<Tables>
    requires r.Revoke?
  {
    if r.id !in t.invites then Raised(t, 404)
    else Returned(t.(invites := t.invites[r.id := t.invites[r.id].(status := Revoked)]))
  }

  ghost function Handle(a: Alphabet, t: Tables, r: Request): Outcome<Tables>
  {
    match r
    case Create(_, _, _, _, _) => Created(t, r)
    case View(_, _) => Viewed(t, r)
    case Complete(_, _, _, _, _, _) => Completed(a, t, r)
    case Resend(_, _, _) => Resent(t, r)
    case Revoke(_) => Withdrawn(t, r)
  }

  ghost function Step(a: Alphabet, t: Tables, r: Request): Tables
  {
    Settle(t, Handle(a, t, r))
  }

  /** The database after a run of requests. */
  ghost function Run(a: Alphabet, t: Tables, rs: seq<Request>): Tables
    decreases |rs|
  {
    if rs == [] then t else Run(a, Step(a, t, rs[0]), rs[1..])
  }

  // ----- The invariant -----

  predicate Live(i: Invite)
  {
    i.status == Pending || i.status == Accepted
  }

  /** No email has two invites that are pending or accepted. */
  ghost predicate OneLiveInvite(t: Tables)
  {
    forall i, j | i in t.invites && j in t.invites && t.invites[i].email == t.invites[j].email
                  && Live(t.invites[i]) && Live(t.invites[j]) :: i == j
  }

  ghost predicate TokensDistinct(t: Tables)
  {
    forall i, j | i in t.invites && j in t.invites && t.invites[i].token == t.invites[j].token :: i == j
  }

  ghost predicate OneProfilePerEmail(t: Tables)
  {
    forall p, q | p in t.profiles && q in t.profiles && t.profiles[p].email.Some?
                  && t.profiles[p].email == t.profiles[q].email :: p == q
  }

  ghost predicate SlugsDistinct(t: Tables)
  {
    forall o, q | o in t.organisations && q in t.organisations
                  && t.organisations[o].slug == t.organisations[q].slug :: o == q
  }

  ghost predicate Good(t: Tables)
  {
    OneLiveInvite(t) && TokensDistinct(t) && OneProfilePerEmail(t) && SlugsDistinct(t)
  }

  lemma AtMostOne(rows: set<nat>)
    requires forall i, j | i in rows && j in rows :: i == j
    ensures |rows| <= 1
  {
    if rows != {} {
      var i :| i in rows;
      assert rows == {i};
    }
  }

  lemma EmptyWhenNone(rows: set<nat>)
    requires |rows| == 0
    ensures forall i :: i !in rows
  {
  }

  lemma CreateKeepsGood(t: Tables, r: Request)
    requires r.Create? && Good(t)
    ensures Good(Settle(t, Created(t, r)))
  {
    if Created(t, r).Returned? {
      EmptyWhenNone(InvitesWith(t, r.email, Accepted));
      EmptyWhenNone(InvitesWith(t, r.email, Pending));
      forall i | i in t.invites && t.invites[i].email == r.email ensures !Live(t.invites[i]) {
        assert i !in InvitesWith(t, r.email, Accepted) && i !in InvitesWith(t, r.email, Pending);
      }
      forall i | i in t.invites ensures t.invites[i].token != r.token {
        assert i !in InvitesByToken(t, r.token);
      }
    }
  }

  lemma FoundKeepsSlugs(a: Alphabet, t: Tables, i: nat, p: Option<nat>, r: Request)
    requires r.Complete? && i in t.invites && SlugsDistinct(t) && (p.Some? ==> p.value in t.profiles)
    ensures SlugsDistinct(Settle(t, Founded(a, t, i, p, r)))
  {
    var slug := FirstUnused(Slugify(a, r.agencyName), UsedSlugs(t), 0);
    forall q | q in t.organisations ensures t.organisations[q].slug != slug {
      assert t.organisations[q].slug in UsedSlugs(t);
    }
  }

  lemma FoundKeepsProfiles(a: Alphabet, t: Tables, i: nat, p: Option<nat>, r: Request)
    requires r.Complete? && i in t.invites && OneProfilePerEmail(t) && (p.Some? ==> p.value in t.profiles)
    requires p.None? ==> ProfilesByEmail(t, t.invites[i].email) == {}
    ensures OneProfilePerEmail(Settle(t, Founded(a, t, i, p, r)))
  {
    forall q | q in t.profiles && p.None? ensures t.profiles[q].email != Some(t.invites[i].email) {
      assert q !in ProfilesByEmail(t, t.invites[i].email);
    }
  }

  lemma FoundKeepsGood(a: Alphabet, t: Tables, i: nat, p: Option<nat>, r: Request)
    requires r.Complete? && i in t.invites && t.invites[i].status == Pending && Good(t)
    requires p.Some? ==> p.value in t.profiles
    requires p.None? ==> ProfilesByEmail(t, t.invites[i].email) == {}
    ensures Good(Settle(t, Founded(a, t, i, p, r)))
  {
    FoundKeepsSlugs(a, t, i, p, r);
    FoundKeepsProfiles(a, t, i, p, r);
  }

  lemma CompleteKeepsGood(a: Alphabet, t: Tables, r: Request)
    requires r.Complete? && Good(t)
    ensures Good(Settle(t, Completed(a, t, r)))
  {
    var rows := InvitesByToken(t, r.token);
    if |rows| == 1 && t.invites[Only(rows)].status == Pending {
      var i := Only(rows);
      var owners := ProfilesByEmail(t, t.invites[i].email);
      if |owners| <= 1 && !(|owners| == 1 && t.profiles[Only(owners)].organisation.Some?) {
        FoundKeepsGood(a, t, i, if |owners| == 1 then Some(Only(owners)) else None, r);
      }
    }
  }

  lemma StepKeepsGood(a: Alphabet, t: Tables, r: Request)
    requires Good(t)
    ensures Good(Step(a, t, r))
  {
    match r
    case Create(_, _, _, _, _) => CreateKeepsGood(t, r);
    case View(_, _) =>
    case Complete(_, _, _, _, _, _) => CompleteKeepsGood(a, t, r);
    case Resend(_, _, _) =>
    case Revoke(_) =>
  }

  /** Every run keeps: one live invite and one profile per email, distinct tokens, distinct slugs. */
  lemma {:induction false} RunKeepsGood(a: Alphabet, t: Tables, rs: seq<Request>)
    requires Good(t)
    ensures Good(Run(a, t, rs))
    decreases |rs|
  {
    if rs != [] {
      StepKeepsGood(a, t, rs[0]);
      RunKeepsGood(a, Step(a, t, rs[0]), rs[1..]);
    }
  }

  /** So no query that expects one row ever finds two. */
  lemma LookupsFindOneRow(a: Alphabet, t: Tables, rs: seq<Request>, email: string, token: string)
    requires Good(t)
    ensures var u := Run(a, t, rs);
            |InvitesWith(u, email, Accepted) + InvitesWith(u, email, Pending)| <= 1
            && |InvitesByToken(u, token)| <= 1 && |ProfilesByEmail(u, email)| <= 1
  {
    RunKeepsGood(a, t, rs);
    var u := Run(a, t, rs);
    AtMostOne(InvitesWith(u, email, Accepted) + InvitesWith(u, email, Pending));
    AtMostOne(InvitesByToken(u, token));
    AtMostOne(ProfilesByEmail(u, email));
  }

  // ----- One organisation per manager -----

  ghost predicate HasOrganisation(t: Tables, email: string)
  {
    exists p :: p in t.profiles && t.profiles[p].email == Some(email) && t.profiles[p].organisation.Some?
  }

  /** Does this request create an organisation for the manager with this email? */
  ghost predicate Founds(a: Alphabet, t: Tables, r: Request, email: string)
  {
    r.Complete? && Step(a, t, r).organisations.Keys != t.organisations.Keys
    && exists i :: i in InvitesByToken(t, r.token) && t.invites[i].email == email
  }

  /** How many requests of the run create an organisation for this email. */
  ghost function Foundings(a: Alphabet, t: Tables, rs: seq<Request>, email: string): nat
    decreases |rs|
  {
    if rs == [] then 0
    else (if Founds(a, t, rs[0], email) then 1 else 0) + Foundings(a, Step(a, t, rs[0]), rs[1..], email)
  }

  lemma OwnerFound(t: Tables, email: string, p: nat)
    requires OneProfilePerEmail(t) && p in t.profiles && t.profiles[p].email == Some(email)
    ensures ProfilesByEmail(t, email) == {p}
  {
  }

  lemma FoundsOnlyWithoutOrganisation(a: Alphabet, t: Tables, r: Request, email: string)
    requires Good(t)
    ensures HasOrganisation(t, email) ==> !Founds(a, t, r, email) && HasOrganisation(Step(a, t, r), email)
    ensures Founds(a, t, r, email) ==> HasOrganisation(Step(a, t, r), email)
  {
    if r.Complete? && Handle(a, t, r).Returned? {
      var i := Only(InvitesByToken(t, r.token));
      var owners := ProfilesByEmail(t, t.invites[i].email);
      var u := Step(a, t, r);
      if q :| q in t.profiles && t.profiles[q].email == Some(email) && t.profiles[q].organisation.Some? {
        OwnerFound(t, email, q);
        assert u.profiles[q].email == Some(email) && u.profiles[q].organisation.Some?;
      }
      if Founds(a, t, r, email) {
        var p := if |owners| == 1 then Only(owners) else r.profileId;
        assert u.profiles[p].email == Some(email) && u.profiles[p].organisation.Some?;
      }
    }
  }

  /** Over every run at most one organisation is created per manager email, and none for a manager
      who already has one. */
  lemma {:induction false} AtMostOneOrganisation(a: Alphabet, t: Tables, rs: seq<Request>, email: string)
    requires Good(t)
    ensures Foundings(a, t, rs, email) <= 1
    ensures HasOrganisation(t, email) ==> Foundings(a, t, rs, email) == 0
    decreases |rs|
  {
    if rs != [] {
      StepKeepsGood(a, t, rs[0]);
      FoundsOnlyWithoutOrganisation(a, t, rs[0], email);
      AtMostOneOrganisation(a, Step(a, t, rs[0]), rs[1..], email);
    }
  }

  // ----- Completed invites stay linked -----

  /** The invite points at the organisation of its manager's profile. */
  ghost predicate Linked(t: Tables, i: nat)
  {
    i in t.invites && t.invites[i].organisation.Some?
    && exists p :: p in t.profiles && t.profiles[p].email == Some(t.invites[i].email)
                   && t.profiles[p].organisation == t.invites[i].organisation
  }

  lemma CompletionLinks(a: Alphabet, t: Tables, r: Request, i: nat)
    requires Good(t) && r.Complete? && Handle(a, t, r).Returned? && i in InvitesByToken(t, r.token)
    ensures Linked(Step(a, t, r), i) && Step(a, t, r).invites[i].status == Accepted
  {
    assert i == Only(InvitesByToken(t, r.token));
    var owners := ProfilesByEmail(t, t.invites[i].email);
    var u := Step(a, t, r);
    var p := if |owners| == 1 then Only(owners) else r.profileId;
    assert |owners| == 1 ==> p in owners;
    assert u.profiles[p].email == Some(t.invites[i].email) && u.profiles[p].organisation == u.invites[i].organisation;
  }

  lemma StepKeepsLinked(a: Alphabet, t: Tables, r: Request, i: nat)
    requires Good(t) && Linked(t, i) && t.invites[i].status != Pending
    ensures Linked(Step(a, t, r), i) && Step(a, t, r).invites[i].status != Pending
  {
    var p :| p in t.profiles && t.profiles[p].email == Some(t.invites[i].email)
             && t.profiles[p].organisation == t.invites[i].organisation;
    var u := Step(a, t, r);
    assert p in u.profiles && u.profiles[p].email == t.profiles[p].email
           && u.profiles[p].organisation == t.profiles[p].organisation;
    assert u.invites[i].email == t.invites[i].email && u.invites[i].organisation == t.invites[i].organisation;
  }

  lemma {:induction false} RunKeepsLinked(a: Alphabet, t: Tables, rs: seq<Request>, i: nat)
    requires Good(t) && Linked(t, i) && t.invites[i].status != Pending
    ensures Linked(Run(a, t, rs), i)
    decreases |rs|
  {
    if rs != [] {
      StepKeepsGood(a, t, rs[0]);
      StepKeepsLinked(a, t, rs[0], i);
      RunKeepsLinked(a, Step(a, t, rs[0]), rs[1..], i);
    }
  }

  lemma {:induction false} RunAppend(a: Alphabet, t: Tables, rs: seq<Request>, more: seq<Request>)
    ensures Run(a, t, rs + more) == Run(a, Run(a, t, rs), more)
    decreases |rs|
  {
    if rs == [] {
      assert rs + more == more;
    } else {
      assert (rs + more)[1..] == rs[1..] + more;
      RunAppend(a, Step(a, t, rs[0]), rs[1..], more);
    }
  }

  /** Whatever came before and whatever follows, an invite that was completed is linked to the
      organisation of its manager's profile at the end of the run. */
  lemma CompletedInvitesEndLinked(a: Alphabet, t: Tables, before: seq<Request>, r: Request, later: seq<Request>, i: nat)
    requires Good(t) && r.Complete?
    requires Handle(a, Run(a, t, before), r).Returned? && i in InvitesByToken(Run(a, t, before), r.token)
    ensures Linked(Run(a, t, before + [r] + later), i)
  {
    var u := Run(a, t, before);
    RunKeepsGood(a, t, before);
    CompletionLinks(a, u, r, i);
    StepKeepsGood(a, u, r);
    RunKeepsLinked(a, Step(a, u, r), later, i);
    assert before + [r] + later == before + ([r] + later);
    RunAppend(a, t, before, [r] + later);
    assert ([r] + later)[1..] == later;
  }

  // ----- Expiry is never stored -----

  /** The handlers mark an overdue invite as expired and then raise, so the mark is rolled back: no
      run stores it. */
  lemma {:induction false} ExpiryNeverStored(a: Alphabet, t: Tables, rs: seq<Request>, i: nat)
    requires i in t.invites ==> t.invites[i].status != Expired
    ensures i in Run(a, t, rs).invites ==> Run(a, t, rs).invites[i].status != Expired
    decreases |rs|
  {
    if rs != [] {
      ExpiryNeverStored(a, Step(a, t, rs[0]), rs[1..], i);
    }
  }

  lemma LiveBlocks(a: Alphabet, t: Tables, i: nat, again: Request)
    requires Good(t) && i in t.invites && Live(t.invites[i])
    requires again.Create? && again.email == t.invites[i].email
    ensures Handle(a, t, again) == Raised(t, 409)
  {
    var both := InvitesWith(t, again.email, Accepted) + InvitesWith(t, again.email, Pending);
    assert i in both;
    AtMostOne(both);
    assert both == {i};
    if t.invites[i].status == Pending {
      assert InvitesWith(t, again.email, Accepted) == {};
      assert InvitesWith(t, again.email, Pending) == {i};
    } else {
      assert InvitesWith(t, again.email, Accepted) == {i};
    }
  }

  lemma StaysLive(a: Alphabet, t: Tables, r: Request, i: nat)
    requires i in t.invites && Live(t.invites[i]) && r != Revoke(i)
    ensures i in Step(a, t, r).invites && Live(Step(a, t, r).invites[i])
    ensures Step(a, t, r).invites[i].email == t.invites[i].email
  {
  }

  /** An invite that is live stays live, overdue or not, until it is revoked; and as long as it is,
      its email is refused a new one. */
  lemma {:induction false} OnlyRevokingUnblocks(a: Alphabet, t: Tables, rs: seq<Request>, i: nat, again: Request)
    requires Good(t) && i in t.invites && Live(t.invites[i])
    requires Revoke(i) !in rs
    requires again.Create? && again.email == t.invites[i].email
    ensures i in Run(a, t, rs).invites && Live(Run(a, t, rs).invites[i])
    ensures Handle(a, Run(a, t, rs), again) == Raised(Run(a, t, rs), 409)
    decreases |rs|
  {
    if rs == [] {
      LiveBlocks(a, t, i, again);
    } else {
      assert rs[0] in rs;
      StepKeepsGood(a, t, rs[0]);
      StaysLive(a, t, rs[0], i);
      OnlyRevokingUnblocks(a, Step(a, t, rs[0]), rs[1..], i, again);
    }
  }
}
