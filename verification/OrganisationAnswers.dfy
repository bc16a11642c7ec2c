/** When each admin request succeeds, what it answers otherwise and what it changes, row by row. */
module OrganisationAnswers {
  import opened Collections
  import opened Transactions
  import opened Organisations

  // ----- One profile -----

  /** Exactly a live profile other than one's own can be deactivated. */
  lemma DeactivateAnswers(db: Db, id: nat, requester: Option<nat>, now: int)
    ensures Deactivated(db, id, requester, now).Returned? <==>
            id in db.profiles && db.profiles[id].deletedAt == None && requester != Some(id)
    ensures id !in db.profiles ==> Deactivated(db, id, requester, now) == Raised(db, 404)
    ensures id in db.profiles && requester == Some(id) ==> Deactivated(db, id, requester, now) == Raised(db, 400)
    ensures id in db.profiles && requester != Some(id) && db.profiles[id].deletedAt.Some? ==>
              Deactivated(db, id, requester, now) == Raised(db, 409)
    ensures Deactivated(db, id, requester, now).Returned? ==>
              Deactivated(db, id, requester, now).state
              == db.(profiles := db.profiles[id := db.profiles[id].(deletedAt := Some(now))])
  {
  }

  /** Exactly a deactivated profile can be restored, and it is live afterwards. */
  lemma RestoreProfileAnswers(db: Db, id: nat)
    ensures Reactivated(db, id).Returned? <==> id in db.profiles && db.profiles[id].deletedAt.Some?
    ensures id !in db.profiles ==> Reactivated(db, id) == Raised(db, 404)
    ensures id in db.profiles && db.profiles[id].deletedAt == None ==> Reactivated(db, id) == Raised(db, 409)
    ensures Reactivated(db, id).Returned? ==>
              Reactivated(db, id).state == db.(profiles := db.profiles[id := db.profiles[id].(deletedAt := None)])
  {
  }

  /** Deactivating and restoring a profile gives everything back. */
  lemma RestoreUndoesDeactivation(db: Db, id: nat, requester: Option<nat>, now: int)
    requires Deactivated(db, id, requester, now).Returned?
    ensures Reactivated(Deactivated(db, id, requester, now).state, id) == Returned(db)
  {
    var back := Reactivated(Deactivated(db, id, requester, now).state, id).state;
    assert back.profiles == db.profiles;
  }

  // ----- One organisation -----

  /** Exactly a live organisation can be archived: it and every live profile of it, of whatever role, are marked
      with the same moment, and every other row stays as it was. */
  lemma ArchiveAnswers(db: Db, o: nat, now: int)
    ensures Archived(db, o, now).Returned? <==> o in db.orgs && db.orgs[o].deletedAt == None
    ensures o !in db.orgs ==> Archived(db, o, now) == Raised(db, 404)
    ensures o in db.orgs && db.orgs[o].deletedAt.Some? ==> Archived(db, o, now) == Raised(db, 409)
    ensures Archived(db, o, now).Returned? ==>
              var after := Archived(db, o, now).state;
              after.orgs == db.orgs[o := Org(Some(now), false)]
              && after.properties == db.properties && after.grants == db.grants && after.profiles.Keys == db.profiles.Keys
              && forall p | p in db.profiles ::
                   after.profiles[p]
                   == if db.profiles[p].organisation == Some(o) && db.profiles[p].deletedAt == None
                      then db.profiles[p].(deletedAt := Some(now)) else db.profiles[p]
  {
  }

  /** Exactly an archived organisation can be restored: it is live and active, its profiles that were deactivated
      less than five seconds before or after it are live, and every other row stays as it was. */
  lemma RestoreAnswers(db: Db, o: nat)
    ensures Restored(db, o).Returned? <==> o in db.orgs && db.orgs[o].deletedAt.Some?
    ensures o !in db.orgs ==> Restored(db, o) == Raised(db, 404)
    ensures o in db.orgs && db.orgs[o].deletedAt == None ==> Restored(db, o) == Raised(db, 409)
    ensures Restored(db, o).Returned? ==>
              var (after, at) := (Restored(db, o).state, db.orgs[o].deletedAt.value);
              after.orgs == db.orgs[o := Org(None, true)]
              && after.properties == db.properties && after.grants == db.grants && after.profiles.Keys == db.profiles.Keys
              && forall p | p in db.profiles ::
                   after.profiles[p]
                   == if db.profiles[p].organisation == Some(o) && db.profiles[p].deletedAt.Some?
                         && at - 5_000_000 < db.profiles[p].deletedAt.value < at + 5_000_000
                      then db.profiles[p].(deletedAt := None) else db.profiles[p]
  {
  }

  // ----- Properties and landlords -----

  /** Properties can be transferred between organisations on record, to one that is not archived: every live
      property of the source then belongs to the target, and every other row stays as it was. */
  lemma TransferAnswers(db: Db, source: nat, target: nat)
    ensures Transferred(db, source, target).Returned? <==>
            source in db.orgs && target in db.orgs && db.orgs[target].deletedAt == None
    ensures source !in db.orgs || target !in db.orgs ==> Transferred(db, source, target) == Raised(db, 404)
    ensures source in db.orgs && target in db.orgs && db.orgs[target].deletedAt.Some? ==>
              Transferred(db, source, target) == Raised(db, 409)
    ensures Transferred(db, source, target).Returned? ==>
              var after := Transferred(db, source, target).state;
              after == db.(properties := after.properties) && after.properties.Keys == db.properties.Keys
              && forall p | p in db.properties ::
                   after.properties[p]
                   == if db.properties[p].organisation == source && db.properties[p].deletedAt == None
                      then db.properties[p].(organisation := target) else db.properties[p]
  {
  }

  /** Property p is one of those that an assignment with these ids picks: live, of the landlord's organisation,
      and among the ids if there are any. */
  predicate Picked(db: Db, landlord: nat, ids: set<nat>, p: nat)
  {
    landlord in db.profiles && p in db.properties && db.properties[p].deletedAt == None
    && db.profiles[landlord].organisation == Some(db.properties[p].organisation) && (ids == {} || p in ids)
  }

  /** A landlord on record can be assigned to an agency on record that is not archived, provided that their own
      organisation, if any, is on record and not archived. */
  lemma AssignAnswers(db: Db, landlord: nat, agency: nat, ids: set<nat>, now: int)
    ensures Assigned(db, landlord, agency, ids, now).Returned? <==>
            landlord in db.profiles && agency in db.orgs && db.orgs[agency].deletedAt == None
            && (db.profiles[landlord].organisation.Some? ==>
                  db.profiles[landlord].organisation.value in db.orgs
                  && db.orgs[db.profiles[landlord].organisation.value].deletedAt == None)
    ensures landlord !in db.profiles || agency !in db.orgs ==> Assigned(db, landlord, agency, ids, now) == Raised(db, 404)
    ensures landlord in db.profiles && agency in db.orgs && db.orgs[agency].deletedAt.Some? ==>
              Assigned(db, landlord, agency, ids, now) == Raised(db, 409)
  {
  }

  /** The picked properties belong to the agency, and the landlord has a read-only grant for each of them that had
      none; every other property and grant stays as it was. */
  lemma AssignMoves(db: Db, landlord: nat, agency: nat, ids: set<nat>, now: int)
    requires Assigned(db, landlord, agency, ids, now).Returned?
    ensures var after := Assigned(db, landlord, agency, ids, now).state;
            after.properties.Keys == db.properties.Keys
            && (forall p | p in db.properties ::
                  after.properties[p]
                  == if Picked(db, landlord, ids, p) then db.properties[p].(organisation := agency) else db.properties[p])
            && (forall g :: after.grants[g] ==
                  db.grants[g]
                  + if g.landlord == landlord && g.readOnly && Picked(db, landlord, ids, g.property)
                       && db.grants[Grant(landlord, g.property, true)] == 0 && db.grants[Grant(landlord, g.property, false)] == 0
                    then 1 else 0)
  {
    var after := Assigned(db, landlord, agency, ids, now).state;
    var moved := ToMove(db, db.profiles[landlord].organisation, ids);
    forall p ensures p in moved <==> Picked(db, landlord, ids, p) {}
    var added := NewGrants(db.grants, landlord, moved);
    assert after.grants == db.grants + multiset(added);
    forall g
      ensures g in added <==>
              g.landlord == landlord && g.readOnly && g.property in moved && !HasGrant(db.grants, landlord, g.property)
    {
      if g in added { assert g == Grant(landlord, g.property, true); }
      if g.landlord == landlord && g.readOnly { assert g == Grant(landlord, g.property, true); }
    }
  }

  /** The landlord is a read-only landlord of the agency; and the personal organisation, if any, is archived as it
      would be once the landlord has left it. */
  lemma AssignMovesLandlord(db: Db, landlord: nat, agency: nat, ids: set<nat>, now: int)
    requires Assigned(db, landlord, agency, ids, now).Returned?
    ensures var after := Assigned(db, landlord, agency, ids, now).state;
            var personal := db.profiles[landlord].organisation;
            var moved := db.profiles[landlord].(organisation := Some(agency), role := "landlord", readOnly := true);
            after.orgs == (if personal.Some? then db.orgs[personal.value := Org(Some(now), false)] else db.orgs)
            && after.profiles.Keys == db.profiles.Keys
            && forall p | p in db.profiles ::
                 var profile := if p == landlord then moved else db.profiles[p];
                 after.profiles[p]
                 == if personal.Some? && profile.organisation == personal && profile.deletedAt == None
                    then profile.(deletedAt := Some(now)) else profile
  {
  }
}
