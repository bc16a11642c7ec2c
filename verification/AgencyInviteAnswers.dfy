/** When each request of the invite service succeeds, what it answers otherwise and what it changes, told
    from the rows of the tables. */
module AgencyInviteAnswers {
  import opened Collections
  import opened Transactions
  import opened Slugs
  import opened AgencyInvites

  /** Invite i is the one with this token. */
  predicate IsInvite(t: Tables, token: string, i: nat)
  {
    i in t.invites && t.invites[i].token == token
  }

  ghost predicate NoInvite(t: Tables, token: string)
  {
    forall i | i in t.invites :: t.invites[i].token != token
  }

  /** Profile p is the manager's. */
  predicate IsManager(t: Tables, email: string, p: nat)
  {
    p in t.profiles && t.profiles[p].email == Some(email)
  }

  ghost predicate NoManager(t: Tables, email: string)
  {
    forall p | p in t.profiles :: t.profiles[p].email != Some(email)
  }

  lemma TokenRow(t: Tables, token: string, i: nat)
    requires Good(t) && IsInvite(t, token, i)
    ensures InvitesByToken(t, token) == {i} && Only(InvitesByToken(t, token)) == i
  {
  }

  lemma NoTokenRow(t: Tables, token: string)
    ensures NoInvite(t, token) <==> InvitesByToken(t, token) == {}
  {
    if InvitesByToken(t, token) == {} {
      forall i | i in t.invites ensures t.invites[i].token != token {
        assert i !in InvitesByToken(t, token);
      }
    }
  }

  lemma ManagerRow(t: Tables, email: string, p: nat)
    requires Good(t) && IsManager(t, email, p)
    ensures ProfilesByEmail(t, email) == {p} && Only(ProfilesByEmail(t, email)) == p
  {
  }

  lemma NoManagerRow(t: Tables, email: string)
    requires NoManager(t, email)
    ensures ProfilesByEmail(t, email) == {}
  {
  }

  // ----- Creating -----

  /** Invite i is pending or accepted and was sent to this email. */
  predicate Engages(t: Tables, email: string, i: nat)
  {
    i in t.invites && t.invites[i].email == email && (t.invites[i].status == Pending || t.invites[i].status == Accepted)
  }

  ghost predicate Engaged(t: Tables, email: string)
  {
    exists i :: Engages(t, email, i)
  }

  /** An email without a pending or accepted invite can be invited, and no other can. The new invite is
      pending and valid for fourteen days. */
  lemma CreateAnswers(t: Tables, r: Request)
    requires Good(t) && r.Create?
    ensures Created(t, r).Returned? <==> !Engaged(t, r.email) && r.id !in t.invites && NoInvite(t, r.token)
    ensures Engaged(t, r.email) ==> Created(t, r) == Raised(t, 409)
    ensures !Engaged(t, r.email) && !Created(t, r).Returned? ==> Created(t, r) == Raised(t, 500)
    ensures Created(t, r).Returned? ==>
              Created(t, r).state == t.(invites := t.invites[r.id :=
                Invite(r.email, r.agencyName, r.token, Pending, r.now + 1_209_600_000_000, None, None)])
  {
    NoTokenRow(t, r.token);
    var accepted, pending := InvitesWith(t, r.email, Accepted), InvitesWith(t, r.email, Pending);
    if Engaged(t, r.email) {
      var i :| Engages(t, r.email, i);
      LiveInviteBlocks(t, r, i);
    } else {
      forall i ensures i !in accepted && i !in pending {
        assert !Engages(t, r.email, i);
      }
      assert accepted == {} && pending == {};
    }
  }

  lemma LiveInviteBlocks(t: Tables, r: Request, i: nat)
    requires Good(t) && r.Create? && Engages(t, r.email, i)
    ensures Created(t, r) == Raised(t, 409)
  {
    var accepted, pending := InvitesWith(t, r.email, Accepted), InvitesWith(t, r.email, Pending);
    AtMostOne(accepted);
    AtMostOne(pending);
    if t.invites[i].status == Pending {
      assert accepted == {};
      assert i in pending;
    } else {
      assert i in accepted;
    }
  }

  // ----- Viewing -----

  /** The details of an invite are shown exactly while it is pending and in date. */
  lemma ViewAnswers(t: Tables, r: Request, i: nat)
    requires Good(t) && r.View?
    ensures NoInvite(t, r.token) ==> Viewed(t, r) == Raised(t, 404)
    ensures IsInvite(t, r.token, i) ==>
              (Viewed(t, r).Returned? <==> t.invites[i].status == Pending && r.now <= t.invites[i].expiresAt)
              && (Viewed(t, r).Returned? ==> Viewed(t, r).state == t)
              && (Viewed(t, r).Raised? ==> Viewed(t, r).status == 410)
  {
    NoTokenRow(t, r.token);
    if IsInvite(t, r.token, i) { TokenRow(t, r.token, i); }
  }

  // ----- Completing -----

  /** The manager has a profile in an organisation. */
  ghost predicate Settled(t: Tables, email: string)
  {
    exists p :: IsManager(t, email, p) && t.profiles[p].organisation.Some?
  }

  /** Completing an invite that is missing or not pending is a 404, and completing an overdue one a 410. */
  lemma CompleteRefusals(a: Alphabet, t: Tables, r: Request, i: nat)
    requires Good(t) && r.Complete?
    ensures NoInvite(t, r.token) ==> Completed(a, t, r) == Raised(t, 404)
    ensures IsInvite(t, r.token, i) && t.invites[i].status != Pending ==> Completed(a, t, r) == Raised(t, 404)
    ensures IsInvite(t, r.token, i) && t.invites[i].status == Pending && t.invites[i].expiresAt < r.now ==>
              Completed(a, t, r).Raised? && Completed(a, t, r).status == 410
  {
    NoTokenRow(t, r.token);
    if IsInvite(t, r.token, i) { TokenRow(t, r.token, i); }
  }

  /** A pending invite in date, of a manager who is in an organisation: it is accepted and linked to that
      organisation, and nothing else changes. */
  lemma CompleteSettled(a: Alphabet, t: Tables, r: Request, i: nat, p: nat)
    requires Good(t) && r.Complete? && IsInvite(t, r.token, i)
    requires t.invites[i].status == Pending && r.now <= t.invites[i].expiresAt
    requires IsManager(t, t.invites[i].email, p) && t.profiles[p].organisation.Some?
    ensures Completed(a, t, r) == Returned(t.(invites := t.invites[i := t.invites[i].(
              status := Accepted, acceptedAt := Some(r.now), organisation := t.profiles[p].organisation)]))
  {
    TokenRow(t, r.token, i);
    ManagerRow(t, t.invites[i].email, p);
  }

  /** The slug of a new agency: the name's, or that with the least number behind a hyphen that no
      organisation has yet. */
  ghost predicate IsFreshSlug(t: Tables, base: string, slug: string)
  {
    (forall o | o in t.organisations :: t.organisations[o].slug != slug)
    && (slug == base
        || exists n: nat :: n >= 1 && slug == base + "-" + Decimal.Text(n)
                            && (exists o :: o in t.organisations && t.organisations[o].slug == base)
                            && forall m | 1 <= m < n ::
                                 exists o :: o in t.organisations && t.organisations[o].slug == base + "-" + Decimal.Text(m))
  }

  lemma SlugIsFresh(t: Tables, base: string)
    ensures IsFreshSlug(t, base, FirstUnused(base, UsedSlugs(t), 0))
  {
    var slug := FirstUnused(base, UsedSlugs(t), 0);
    var n: nat :| slug == Candidate(base, n) && forall j | 0 <= j < n :: Candidate(base, j) in UsedSlugs(t);
    forall o | o in t.organisations ensures t.organisations[o].slug != slug {
      assert t.organisations[o].slug in UsedSlugs(t);
    }
    if n >= 1 {
      assert Candidate(base, 0) in UsedSlugs(t);
      forall m | 1 <= m < n ensures exists o :: o in t.organisations && t.organisations[o].slug == base + "-" + Decimal.Text(m) {
        assert Candidate(base, m) in UsedSlugs(t);
      }
    }
  }

  /** A pending invite in date, of a manager in no organisation, with no failure outside and fresh ids: the
      agency is founded under the name given and a fresh slug, the manager's profile is made or moved there as
      a manager, and the invite is accepted, renamed and linked. */
  lemma CompleteFounds(a: Alphabet, t: Tables, r: Request, i: nat)
    requires Good(t) && r.Complete? && IsInvite(t, r.token, i)
    requires t.invites[i].status == Pending && r.now <= t.invites[i].expiresAt && !Settled(t, t.invites[i].email)
    ensures Completed(a, t, r).Returned? <==>
            r.failure == Nowhere && r.orgId !in t.organisations
            && (NoManager(t, t.invites[i].email) ==> r.profileId !in t.profiles)
    ensures Completed(a, t, r).Returned? ==>
              var u := Completed(a, t, r).state;
              r.orgId in u.organisations && u.organisations[r.orgId].name == r.agencyName
              && IsFreshSlug(t, Slugify(a, r.agencyName), u.organisations[r.orgId].slug)
              && u.organisations - {r.orgId} == t.organisations
              && u.invites == t.invites[i := t.invites[i].(status := Accepted, acceptedAt := Some(r.now),
                                                           agencyName := r.agencyName, organisation := Some(r.orgId))]
    ensures Completed(a, t, r).Returned? && NoManager(t, t.invites[i].email) ==>
              Completed(a, t, r).state.profiles
              == t.profiles[r.profileId := Profile(Some(t.invites[i].email), Some(r.orgId), "manager")]
    ensures Completed(a, t, r).Returned? ==>
              forall p | IsManager(t, t.invites[i].email, p) ::
                Completed(a, t, r).state.profiles
                == t.profiles[p := t.profiles[p].(organisation := Some(r.orgId), role := "manager")]
  {
    TokenRow(t, r.token, i);
    SlugIsFresh(t, Slugify(a, r.agencyName));
    if NoManager(t, t.invites[i].email) {
      NoManagerRow(t, t.invites[i].email);
    } else {
      var p :| p in t.profiles && t.profiles[p].email == Some(t.invites[i].email);
      ManagerRow(t, t.invites[i].email, p);
    }
  }

  /** Altogether: completing succeeds exactly for a pending invite in date whose manager is in an
      organisation already or for whom the new one can be made. */
  lemma CompleteAnswers(a: Alphabet, t: Tables, r: Request)
    requires Good(t) && r.Complete?
    ensures Completed(a, t, r).Returned? <==>
            exists i :: IsInvite(t, r.token, i) && t.invites[i].status == Pending && r.now <= t.invites[i].expiresAt
                        && (Settled(t, t.invites[i].email)
                            || (r.failure == Nowhere && r.orgId !in t.organisations
                                && (NoManager(t, t.invites[i].email) ==> r.profileId !in t.profiles)))
  {
    if i :| IsInvite(t, r.token, i) {
      TokenRow(t, r.token, i);
      CompleteRefusals(a, t, r, i);
      if t.invites[i].status == Pending && r.now <= t.invites[i].expiresAt {
        if p :| IsManager(t, t.invites[i].email, p) && t.profiles[p].organisation.Some? {
          CompleteSettled(a, t, r, i, p);
        } else {
          CompleteFounds(a, t, r, i);
        }
      }
      forall j | IsInvite(t, r.token, j) ensures j == i {
        assert j in InvitesByToken(t, r.token);
      }
    } else {
      assert NoInvite(t, r.token) by {
        forall i | i in t.invites ensures t.invites[i].token != r.token {
          assert !IsInvite(t, r.token, i);
        }
      }
      CompleteRefusals(a, t, r, 0);
    }
  }

  // ----- Resending and revoking -----

  /** Exactly a pending invite, overdue or not, can be sent again, and is then valid for fourteen days from
      that moment. */
  lemma ResendAnswers(t: Tables, r: Request)
    requires r.Resend?
    ensures Resent(t, r).Returned? <==> r.id in t.invites && t.invites[r.id].status == Pending && !r.emailFails
    ensures r.id !in t.invites ==> Resent(t, r) == Raised(t, 404)
    ensures r.id in t.invites && t.invites[r.id].status != Pending ==> Resent(t, r) == Raised(t, 409)
    ensures Resent(t, r).Returned? ==>
              Resent(t, r).state == t.(invites := t.invites[r.id := t.invites[r.id].(expiresAt := r.now + 1_209_600_000_000)])
  {
  }

  /** An invite can be revoked exactly if it exists, and its email, if it is live, can then be invited again. */
  lemma RevokeAnswers(t: Tables, r: Request, again: Request)
    requires Good(t) && r.Revoke? && again.Create?
    ensures Withdrawn(t, r).Returned? <==> r.id in t.invites
    ensures Withdrawn(t, r).Raised? ==> Withdrawn(t, r) == Raised(t, 404)
    ensures Withdrawn(t, r).Returned? ==>
              Withdrawn(t, r).state == t.(invites := t.invites[r.id := t.invites[r.id].(status := Revoked)])
    ensures Withdrawn(t, r).Returned? && Live(t.invites[r.id]) && again.email == t.invites[r.id].email
            && again.id !in t.invites && NoInvite(t, again.token) ==>
              Created(Withdrawn(t, r).state, again).Returned?
  {
    if Withdrawn(t, r).Returned? {
      var u := Withdrawn(t, r).state;
      assert Good(u);
      CreateAnswers(u, again);
      if Live(t.invites[r.id]) && again.email == t.invites[r.id].email {
        forall i | i in u.invites && u.invites[i].email == again.email ensures !Live(u.invites[i]) {
        }
      }
    }
  }

  lemma RunTwo(a: Alphabet, t: Tables, first: Request, second: Request)
    ensures Run(a, t, [first, second]) == Step(a, Step(a, t, first), second)
  {
    var u := Step(a, t, first);
    assert [first, second][1..] == [second];
    assert Run(a, u, [second]) == Run(a, Step(a, u, second), []) by { assert [second][1..] == []; }
  }

  /** So an email that is free can be invited, and its invite completed within fourteen days founds its
      agency. */
  lemma InviteThenComplete(a: Alphabet, t: Tables, invite: Request, done: Request)
    requires Good(t) && invite.Create? && done.Complete?
    requires !Engaged(t, invite.email) && invite.id !in t.invites && NoInvite(t, invite.token)
    requires NoManager(t, invite.email) && done.token == invite.token && done.now <= invite.now + 1_209_600_000_000
    requires done.failure == Nowhere && done.orgId !in t.organisations && done.profileId !in t.profiles
    ensures var u := Run(a, t, [invite, done]);
            invite.id in u.invites && u.invites[invite.id].status == Accepted
            && u.invites[invite.id].organisation == Some(done.orgId)
            && done.orgId in u.organisations && u.organisations[done.orgId].name == done.agencyName
            && done.profileId in u.profiles
            && u.profiles[done.profileId] == Profile(Some(invite.email), Some(done.orgId), "manager")
  {
    CreateAnswers(t, invite);
    CreateKeepsGood(t, invite);
    var t1 := Step(a, t, invite);
    assert NoManager(t1, invite.email);
    assert !Settled(t1, invite.email);
    CompleteFounds(a, t1, done, invite.id);
    RunTwo(a, t, invite, done);
  }
}
