/** The invite service as it runs: a session whose rows the handlers change in place, step by step,
    inside `get_db`. */
module AgencyInviteService {
  import opened Collections
  import opened Transactions
  import opened Slugs
  import opened AgencyInvites

  class Service {
    const alphabet: Alphabet
    var invites: map<nat, Invite>
    var profiles: map<nat, Profile>
    var organisations: map<nat, Organisation>

    function State(): Tables
      reads this
    {
      Tables(invites, profiles, organisations)
    }

    constructor (alphabet: Alphabet, t: Tables)
      ensures this.alphabet == alphabet && State() == t
    {
      this.alphabet := alphabet;
      invites, profiles, organisations := t.invites, t.profiles, t.organisations;
    }

    method CreateInvite(r: Request) returns (error: Option<int>)
      requires r.Create?
      modifies this
      ensures Did(Created(old(State()), r), State(), error)
    {
      var accepted := InvitesWith(State(), r.email, Accepted);
      if |accepted| > 1 { return Some(500); }
      if |accepted| == 1 { return Some(409); }
      var pending := InvitesWith(State(), r.email, Pending);
      if |pending| > 1 { return Some(500); }
      if |pending| == 1 { return Some(409); }
      if r.id in invites || InvitesByToken(State(), r.token) != {} { return Some(500); }
      invites := invites[r.id := Invite(r.email, r.agencyName, r.token, Pending, r.now + FOURTEEN_DAYS, None, None)];
      return None;
    }

    method ViewInvite(r: Request) returns (error: Option<int>)
      requires r.View?
      modifies this
      ensures Did(Viewed(old(State()), r), State(), error)
    {
      var rows := InvitesByToken(State(), r.token);
      if |rows| > 1 { return Some(500); }
      if |rows| == 0 { return Some(404); }
      var i :| i in rows;
      if invites[i].status != Pending { return Some(410); }
      if invites[i].expiresAt < r.now {
        invites := invites[i := invites[i].(status := Expired)];
        return Some(410);
      }
      return None;
    }

    method CompleteOnboarding(r: Request) returns (error: Option<int>)
      requires r.Complete?
      modifies this
      ensures Did(Completed(alphabet, old(State()), r), State(), error)
    {
      var rows := InvitesByToken(State(), r.token);
      if |rows| > 1 { return Some(500); }
      if |rows| == 0 { return Some(404); }
      var i :| i in rows;
      if invites[i].status != Pending { return Some(404); }
      if invites[i].expiresAt < r.now {
        invites := invites[i := invites[i].(status := Expired)];
        return Some(410);
      }
      var owners := ProfilesByEmail(State(), invites[i].email);
      if |owners| > 1 { return Some(500); }
      var existing: Option<nat> := None;
      if |owners| == 1 {
        var p :| p in owners;
        assert p == Only(owners);
        existing := Some(p);
      }
      if existing.Some? && profiles[existing.value].organisation.Some? {
        invites := invites[i := invites[i].(status := Accepted, acceptedAt := Some(r.now))];
        invites := invites[i := invites[i].(organisation := profiles[existing.value].organisation)];
        return None;
      }
      error := FoundAgency(i, existing, r);
    }

    method FoundAgency(i: nat, existing: Option<nat>, r: Request) returns (error: Option<int>)
      requires r.Complete? && i in invites && (existing.Some? ==> existing.value in profiles)
      modifies this
      ensures Did(Founded(alphabet, old(State()), i, existing, r), State(), error)
    {
      var slug, _ := FreshSlug(Slugify(alphabet, r.agencyName), UsedSlugs(State()));
      if r.failure == AtIdentityProvider { return Some(500); }
      if r.orgId in organisations { return Some(500); }
      organisations := organisations[r.orgId := Organisation(r.agencyName, slug)];
      if existing.None? {
        if r.profileId in profiles { return Some(500); }
        profiles := profiles[r.profileId := Profile(Some(invites[i].email), Some(r.orgId), "manager")];
      } else {
        var p := existing.value;
        profiles := profiles[p := profiles[p].(organisation := Some(r.orgId))];
        profiles := profiles[p := profiles[p].(role := "manager")];
      }
      if r.failure == AtRoles { return Some(500); }
      invites := invites[i := invites[i].(status := Accepted, acceptedAt := Some(r.now))];
      invites := invites[i := invites[i].(agencyName := r.agencyName, organisation := Some(r.orgId))];
      if r.failure == AtEmail { return Some(500); }
      return None;
    }

    method ResendInvite(r: Request) returns (error: Option<int>)
      requires r.Resend?
      modifies this
      ensures Did(Resent(old(State()), r), State(), error)
    {
      if r.id !in invites { return Some(404); }
      if invites[r.id].status != Pending { return Some(409); }
      invites := invites[r.id := invites[r.id].(expiresAt := r.now + FOURTEEN_DAYS)];
      if r.emailFails { return Some(500); }
      return None;
    }

    method RevokeInvite(r: Request) returns (error: Option<int>)
      requires r.Revoke?
      modifies this
      ensures Did(Withdrawn(old(State()), r), State(), error)
    {
      if r.id !in invites { return Some(404); }
      invites := invites[r.id := invites[r.id].(status := Revoked)];
      return None;
    }

    /** A request inside `get_db`. */
    method Serve(r: Request) returns (error: Option<int>)
      modifies this
      ensures State() == Step(alphabet, old(State()), r)
      ensures error.None? <==> Handle(alphabet, old(State()), r).Returned?
      ensures old(Good(State())) ==> Good(State())
    {
      var saved := State();
      StepKeepsGoodIf(alphabet, saved, r);
      match r {
        case Create(_, _, _, _, _) => error := CreateInvite(r);
        case View(_, _) => error := ViewInvite(r);
        case Complete(_, _, _, _, _, _) => error := CompleteOnboarding(r);
        case Resend(_, _, _) => error := ResendInvite(r);
        case Revoke(_) => error := RevokeInvite(r);
      }
      if error.Some? {
        invites, profiles, organisations := saved.invites, saved.profiles, saved.organisations;
      }
    }

    /** Any number of requests, one after the other. */
    method ServeAll(rs: seq<Request>)
      modifies this
      ensures State() == Run(alphabet, old(State()), rs)
    {
      for k := 0 to |rs|
        invariant Run(alphabet, State(), rs[k..]) == Run(alphabet, old(State()), rs)
      {
        assert rs[k..][0] == rs[k] && rs[k..][1..] == rs[k + 1..];
        var _ := Serve(rs[k]);
      }
    }
  }

  lemma StepKeepsGoodIf(a: Alphabet, t: Tables, r: Request)
    ensures Good(t) ==> Good(Step(a, t, r))
  {
    if Good(t) { StepKeepsGood(a, t, r); }
  }
}
