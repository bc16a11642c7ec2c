/** Soft deletion of profiles and organisations, and moving properties between organisations. */
module Organisations {
  import opened Collections
  import opened Transactions

  /** Times are in microseconds; a set `deletedAt` means archived or deactivated. */
  datatype Org = Org(deletedAt: Option<int>, active: bool)

  datatype Profile = Profile(organisation: Option<nat>, deletedAt: Option<int>, role: string, readOnly: bool)

  datatype Property = Property(organisation: nat, deletedAt: Option<int>)

  datatype Grant = Grant(landlord: nat, property: nat, readOnly: bool)

  datatype Db = Db(orgs: map<nat, Org>, profiles: map<nat, Profile>, properties: map<nat, Property>, grants: multiset<Grant>)

  // ----- Profiles -----

  /** `deactivate_profile` */
  function Deactivated(db: Db, id: nat, requester: Option<nat>, now: int): Outcome<Db>
  {
    if id !in db.profiles then Raised(db, 404)
    else if requester == Some(id) then Raised(db, 400)
    else if db.profiles[id].deletedAt.Some? then Raised(db, 409)
    else Returned(db.(profiles := db.profiles[id := db.profiles[id].(deletedAt := Some(now))]))
  }

  /** `restore_profile` */
  function Reactivated(db: Db, id: nat): Outcome<Db>
  {
    if id !in db.profiles then Raised(db, 404)
    else if db.profiles[id].deletedAt.None? then Raised(db, 409)
    else Returned(db.(profiles := db.profiles[id := db.profiles[id].(deletedAt := None)]))
  }

  // ----- Archive and restore -----

  /** The live profiles of an organisation. */
  function LiveMembers(db: Db, o: nat): set<nat>
  {
    set p | p in db.profiles && db.profiles[p].organisation == Some(o) && db.profiles[p].deletedAt.None?
  }

  function WithDeletedAt(profiles: map<nat, Profile>, ids: set<nat>, at: Option<int>): map<nat, Profile>
  {
    map p | p in profiles :: if p in ids then profiles[p].(deletedAt := at) else profiles[p]
  }

  /** `archive_organisation` */
  function Archived(db: Db, o: nat, now: int): Outcome<Db>
  {
    if o !in db.orgs then Raised(db, 404)
    else if db.orgs[o].deletedAt.Some? then Raised(db, 409)
    else Returned(db.(
      orgs := db.orgs[o := Org(Some(now), false)],
      profiles := WithDeletedAt(db.profiles, LiveMembers(db, o), Some(now))))
  }

  const FIVE_SECONDS := 5_000_000

  predicate Near(at: Option<int>, archivedAt: int)
  {
    at.Some? && -FIVE_SECONDS < at.value - archivedAt < FIVE_SECONDS
  }

  /** The profiles that `restore_organisation` takes to have been deactivated by the archiving. */
  function Matching(db: Db, o: nat, archivedAt: int): set<nat>
  {
    set p | p in db.profiles && db.profiles[p].organisation == Some(o) && Near(db.profiles[p].deletedAt, archivedAt)
  }

  /** `restore_organisation` */
  function Restored(db: Db, o: nat): Outcome<Db>
  {
    if o !in db.orgs then Raised(db, 404)
    else if db.orgs[o].deletedAt.None? then Raised(db, 409)
    else Returned(db.(
      orgs := db.orgs[o := Org(None, true)],
      profiles := WithDeletedAt(db.profiles, Matching(db, o, db.orgs[o].deletedAt.value), None)))
  }

  /** Restoring right after archiving gives everything back exactly when the organisation was active
      and none of its profiles had been deactivated within five seconds of the archiving. */
  lemma RestoreUndoesArchiveIff(db: Db, o: nat, now: int)
    requires Archived(db, o, now).Returned?
    ensures Restored(Archived(db, o, now).state, o).Returned?
    ensures Restored(Archived(db, o, now).state, o).state == db <==> db.orgs[o].active && Matching(db, o, now) == {}
  {
    var mid := Archived(db, o, now).state;
    var end := Restored(mid, o).state;
    assert mid.orgs[o].deletedAt == Some(now);
    forall p | p in db.profiles
      ensures end.profiles[p] == if p in Matching(db, o, now) then db.profiles[p].(deletedAt := None) else db.profiles[p]
    {
    }
    if Matching(db, o, now) == {} {
      assert end.profiles == db.profiles;
      if db.orgs[o].active { assert end.orgs == db.orgs; }
    } else {
      var p :| p in Matching(db, o, now);
      assert end.profiles[p] != db.profiles[p];
    }
    if !db.orgs[o].active { assert end.orgs[o] != db.orgs[o]; }
  }

  /** An organisation that was inactive before is active after archiving and restoring it. */
  lemma RestoreActivates(now: int)
    ensures var db := Db(map[0 := Org(None, false)], map[], map[], multiset{});
            Archived(db, 0, now).Returned? && Restored(Archived(db, 0, now).state, 0).Returned?
            && Restored(Archived(db, 0, now).state, 0).state.orgs[0] == Org(None, true)
  {
  }

  /** A profile deactivated four seconds before the archiving is live after the restore. */
  lemma RestoreRevivesBystander(now: int)
    ensures var p := Profile(Some(0), Some(now - 4_000_000), "manager", false);
            var db := Db(map[0 := Org(None, true)], map[1 := p], map[], multiset{});
            Archived(db, 0, now).Returned? && Restored(Archived(db, 0, now).state, 0).Returned?
            && Restored(Archived(db, 0, now).state, 0).state.profiles == map[1 := p.(deletedAt := None)]
  {
    var p := Profile(Some(0), Some(now - 4_000_000), "manager", false);
    var db := Db(map[0 := Org(None, true)], map[1 := p], map[], multiset{});
    var mid := Archived(db, 0, now).state;
    assert LiveMembers(db, 0) == {} && mid.profiles == db.profiles;
    assert mid.orgs[0].deletedAt == Some(now) && Matching(mid, 0, now) == {1};
  }

  // ----- With profile operations in between -----

  datatype ProfileOp = Deactivate(id: nat, requester: Option<nat>, now: int) | Reactivate(id: nat)

  function ApplyOp(db: Db, op: ProfileOp): Db
  {
    match op
    case Deactivate(id, requester, now) => Settle(db, Deactivated(db, id, requester, now))
    case Reactivate(id) => Settle(db, Reactivated(db, id))
  }

  function ApplyOps(db: Db, ops: seq<ProfileOp>): Db
    decreases |ops|
  {
    if ops == [] then db else ApplyOps(ApplyOp(db, ops[0]), ops[1..])
  }

  predicate Touched(ops: seq<ProfileOp>, p: nat)
  {
    exists i :: 0 <= i < |ops| && ops[i].id == p
  }

  lemma TouchedCons(ops: seq<ProfileOp>, p: nat)
    requires ops != []
    ensures Touched(ops, p) <==> ops[0].id == p || Touched(ops[1..], p)
  {
    if i :| 0 <= i < |ops[1..]| && ops[1..][i].id == p {
      assert ops[i + 1].id == p;
    }
    if i :| 0 <= i < |ops| && ops[i].id == p && i > 0 {
      assert ops[1..][i - 1].id == p;
    }
  }

  /** Profile operations leave everything alone but the `deletedAt` of the profiles they name. */
  lemma {:induction false} OpsTouchOnlyTheirProfiles(db: Db, ops: seq<ProfileOp>)
    ensures var e := ApplyOps(db, ops);
            e.orgs == db.orgs && e.properties == db.properties && e.grants == db.grants && e.profiles.Keys == db.profiles.Keys
    ensures forall p | p in db.profiles ::
              ApplyOps(db, ops).profiles[p] == db.profiles[p].(deletedAt := ApplyOps(db, ops).profiles[p].deletedAt)
    ensures forall p | p in db.profiles && !Touched(ops, p) :: ApplyOps(db, ops).profiles[p] == db.profiles[p]
    decreases |ops|
  {
    if ops != [] {
      var next := ApplyOp(db, ops[0]);
      OpsTouchOnlyTheirProfiles(next, ops[1..]);
      forall p ensures Touched(ops, p) <==> ops[0].id == p || Touched(ops[1..], p) {
        TouchedCons(ops, p);
      }
    }
  }

  /** Archive, any profile operations, restore: the organisation is live and active again; a profile
      that the archiving deactivated and nobody touched is live again; one that is deactivated outside
      the five seconds stays so, and profiles of other organisations stay as the operations left them. */
  lemma RestoreAfterOperations(db: Db, o: nat, now: int, ops: seq<ProfileOp>)
    requires Archived(db, o, now).Returned?
    ensures var mid := ApplyOps(Archived(db, o, now).state, ops);
            Restored(mid, o).Returned?
    ensures var mid := ApplyOps(Archived(db, o, now).state, ops);
            var end := Restored(mid, o).state;
            end.orgs == db.orgs[o := Org(None, true)] && end.properties == db.properties && end.grants == db.grants
    ensures var mid := ApplyOps(Archived(db, o, now).state, ops);
            var end := Restored(mid, o).state;
            forall p | p in LiveMembers(db, o) && !Touched(ops, p) :: p in end.profiles && end.profiles[p] == db.profiles[p]
    ensures var mid := ApplyOps(Archived(db, o, now).state, ops);
            var end := Restored(mid, o).state;
            forall p | p in mid.profiles && !Near(mid.profiles[p].deletedAt, now) ::
              p in end.profiles && end.profiles[p] == mid.profiles[p]
    ensures var mid := ApplyOps(Archived(db, o, now).state, ops);
            var end := Restored(mid, o).state;
            forall p | p in mid.profiles && mid.profiles[p].organisation != Some(o) ::
              p in end.profiles && end.profiles[p] == mid.profiles[p]
  {
    var gone := Archived(db, o, now).state;
    OpsTouchOnlyTheirProfiles(gone, ops);
    var mid := ApplyOps(gone, ops);
    assert mid.orgs == gone.orgs;
    var end := Restored(mid, o).state;
    assert end.orgs == db.orgs[o := Org(None, true)];
    forall p | p in LiveMembers(db, o) && !Touched(ops, p) ensures end.profiles[p] == db.profiles[p] {
      assert mid.profiles[p] == gone.profiles[p] == db.profiles[p].(deletedAt := Some(now));
      assert p in Matching(mid, o, now);
    }
  }

  lemma {:induction false} ApplyOpsAppend(db: Db, a: seq<ProfileOp>, b: seq<ProfileOp>)
    ensures ApplyOps(db, a + b) == ApplyOps(ApplyOps(db, a), b)
    decreases |a|
  {
    if a == [] {
      assert a + b == b;
    } else {
      assert (a + b)[1..] == a[1..] + b;
      ApplyOpsAppend(ApplyOp(db, a[0]), a[1..], b);
    }
  }

  /** In particular a profile whose last operation deactivated it, at least five seconds away from the
      archiving, is still deactivated, since that moment, after the restore. */
  lemma LateDeactivationSurvives(db: Db, o: nat, now: int, before: seq<ProfileOp>, op: ProfileOp, later: seq<ProfileOp>)
    requires Archived(db, o, now).Returned? && op.Deactivate? && !Touched(later, op.id)
    requires Deactivated(ApplyOps(Archived(db, o, now).state, before), op.id, op.requester, op.now).Returned?
    requires !Near(Some(op.now), now)
    ensures var mid := ApplyOps(Archived(db, o, now).state, before + [op] + later);
            Restored(mid, o).Returned? && op.id in Restored(mid, o).state.profiles
            && Restored(mid, o).state.profiles[op.id].deletedAt == Some(op.now)
  {
    var gone := Archived(db, o, now).state;
    var u := ApplyOps(gone, before);
    assert before + [op] + later == before + ([op] + later) && ([op] + later)[1..] == later;
    ApplyOpsAppend(gone, before, [op] + later);
    OpsTouchOnlyTheirProfiles(ApplyOp(u, op), later);
    RestoreAfterOperations(db, o, now, before + [op] + later);
  }

  // ----- Moving properties -----

  function LiveProperties(db: Db, o: nat): set<nat>
  {
    set p | p in db.properties && db.properties[p].organisation == o && db.properties[p].deletedAt.None?
  }

  function MovedTo(properties: map<nat, Property>, ids: set<nat>, o: nat): map<nat, Property>
  {
    map p | p in properties :: if p in ids then properties[p].(organisation := o) else properties[p]
  }

  /** `transfer_properties` */
  function Transferred(db: Db, source: nat, target: nat): Outcome<Db>
  {
    if source !in db.orgs || target !in db.orgs then Raised(db, 404)
    else if db.orgs[target].deletedAt.Some? then Raised(db, 409)
    else Returned(db.(properties := MovedTo(db.properties, LiveProperties(db, source), target)))
  }

  lemma MoveSets(db: Db, ids: set<nat>, source: nat, target: nat)
    requires ids <= LiveProperties(db, source) && source != target
    ensures var after := db.(properties := MovedTo(db.properties, ids, target));
            LiveProperties(after, source) == LiveProperties(db, source) - ids
            && LiveProperties(after, target) == LiveProperties(db, target) + ids
            && LiveProperties(db, target) !! ids
  {
  }

  lemma MoveLeavesOthers(db: Db, ids: set<nat>, source: nat, target: nat)
    requires ids <= LiveProperties(db, source) && source != target
    ensures var after := db.(properties := MovedTo(db.properties, ids, target));
            after.properties.Keys == db.properties.Keys
            && (forall p | p in db.properties && db.properties[p].deletedAt.Some? :: after.properties[p] == db.properties[p])
            && (forall o | o != source && o != target :: LiveProperties(after, o) == LiveProperties(db, o))
  {
  }

  /** Moving live properties changes nothing but their owner: none appears, disappears or is split,
      archived ones stay, and what one organisation loses the other gains. */
  lemma MoveConserves(db: Db, ids: set<nat>, source: nat, target: nat)
    requires ids <= LiveProperties(db, source) && source != target
    ensures var after := db.(properties := MovedTo(db.properties, ids, target));
            after.properties.Keys == db.properties.Keys
            && (forall p | p in db.properties && db.properties[p].deletedAt.Some? :: after.properties[p] == db.properties[p])
            && LiveProperties(after, source) == LiveProperties(db, source) - ids
            && LiveProperties(after, target) == LiveProperties(db, target) + ids
            && (forall o | o != source && o != target :: LiveProperties(after, o) == LiveProperties(db, o))
            && |LiveProperties(after, source)| + |LiveProperties(after, target)|
               == |LiveProperties(db, source)| + |LiveProperties(db, target)|
  {
    MoveSets(db, ids, source, target);
    MoveLeavesOthers(db, ids, source, target);
    var from, to := LiveProperties(db, source), LiveProperties(db, target);
    assert |from - ids| == |from| - |ids|;
    assert |to + ids| == |to| + |ids|;
  }

  /** A transfer empties the source of live properties, and only then if source and target differ. */
  lemma TransferConserves(db: Db, source: nat, target: nat)
    requires Transferred(db, source, target).Returned?
    ensures var after := Transferred(db, source, target).state;
            if source == target then after == db
            else LiveProperties(after, source) == {}
                 && LiveProperties(after, target) == LiveProperties(db, target) + LiveProperties(db, source)
                 && |LiveProperties(after, target)| == |LiveProperties(db, target)| + |LiveProperties(db, source)|
                 && after.properties.Keys == db.properties.Keys
                 && (forall o | o != source && o != target :: LiveProperties(after, o) == LiveProperties(db, o))
                 && (forall p | p in db.properties && db.properties[p].deletedAt.Some? :: after.properties[p] == db.properties[p])
  {
    if source == target {
      assert Transferred(db, source, target).state.properties == db.properties;
    } else {
      MoveConserves(db, LiveProperties(db, source), source, target);
    }
  }

  // ----- Assigning a landlord to an agency -----

  predicate HasGrant(grants: multiset<Grant>, landlord: nat, property: nat)
  {
    Grant(landlord, property, true) in grants || Grant(landlord, property, false) in grants
  }

  /** The unique constraint on (landlord, property). */
  ghost predicate GrantsUnique(grants: multiset<Grant>)
  {
    forall l, p {:trigger Grant(l, p, true)} :: grants[Grant(l, p, true)] + grants[Grant(l, p, false)] <= 1
  }

  /** The properties to move: all live ones of the personal organisation, or those of them in a
      non-empty list of ids. */
  function ToMove(db: Db, personal: Option<nat>, ids: set<nat>): set<nat>
  {
    if personal.None? then {}
    else if ids == {} then LiveProperties(db, personal.value)
    else LiveProperties(db, personal.value) * ids
  }

  function NewGrants(grants: multiset<Grant>, landlord: nat, properties: set<nat>): set<Grant>
  {
    set p | p in properties && !HasGrant(grants, landlord, p) :: Grant(landlord, p, true)
  }

  /** Properties, grants and the landlord's profile once they belong to the agency. */
  function Reassigned(db: Db, landlord: nat, agency: nat, ids: set<nat>): Db
    requires landlord in db.profiles
  {
    var moved := ToMove(db, db.profiles[landlord].organisation, ids);
    db.(properties := MovedTo(db.properties, moved, agency),
        grants := db.grants + multiset(NewGrants(db.grants, landlord, moved)),
        profiles := db.profiles[landlord := db.profiles[landlord].(
          organisation := Some(agency), role := "landlord", readOnly := true)])
  }

  /** `assign_landlord_to_agency` */
  function Assigned(db: Db, landlord: nat, agency: nat, ids: set<nat>, now: int): Outcome<Db>
  {
    if landlord !in db.profiles || agency !in db.orgs then Raised(db, 404)
    else if db.orgs[agency].deletedAt.Some? then Raised(db, 409)
    else
      var personal := db.profiles[landlord].organisation;
      var after := Reassigned(db, landlord, agency, ids);
      if personal.Some? then Archived(after, personal.value, now) else Returned(after)
  }

  lemma NewGrantsUnique(grants: multiset<Grant>, landlord: nat, properties: set<nat>)
    requires GrantsUnique(grants)
    ensures GrantsUnique(grants + multiset(NewGrants(grants, landlord, properties)))
    ensures forall p | p in properties :: HasGrant(grants + multiset(NewGrants(grants, landlord, properties)), landlord, p)
  {
    var added := NewGrants(grants, landlord, properties);
    forall l, p ensures (grants + multiset(added))[Grant(l, p, true)] + (grants + multiset(added))[Grant(l, p, false)] <= 1 {
      assert Grant(l, p, false) !in added;
      if Grant(l, p, true) in added {
        assert !HasGrant(grants, l, p);
      }
    }
    forall p | p in properties ensures HasGrant(grants + multiset(added), landlord, p) {
      if !HasGrant(grants, landlord, p) { assert Grant(landlord, p, true) in added; }
    }
  }

  /** Grants stay unique per landlord and property, none is lost, and every property that moved is
      covered by one. */
  lemma AssignGrants(db: Db, landlord: nat, agency: nat, ids: set<nat>, now: int)
    requires GrantsUnique(db.grants) && Assigned(db, landlord, agency, ids, now).Returned?
    ensures var after := Assigned(db, landlord, agency, ids, now).state;
            GrantsUnique(after.grants) && db.grants <= after.grants
            && forall p | p in db.properties && after.properties[p] != db.properties[p] :: HasGrant(after.grants, landlord, p)
  {
    NewGrantsUnique(db.grants, landlord, ToMove(db, db.profiles[landlord].organisation, ids));
  }

  /** Properties are conserved between the personal organisation and a different agency. */
  lemma AssignConserves(db: Db, landlord: nat, agency: nat, ids: set<nat>, now: int)
    requires Assigned(db, landlord, agency, ids, now).Returned?
    requires db.profiles[landlord].organisation.Some? && db.profiles[landlord].organisation.value != agency
    ensures var personal := db.profiles[landlord].organisation.value;
            var after := Assigned(db, landlord, agency, ids, now).state;
            after.properties.Keys == db.properties.Keys
            && (forall p | p in db.properties && db.properties[p].deletedAt.Some? :: after.properties[p] == db.properties[p])
            && LiveProperties(after, agency) == LiveProperties(db, agency) + ToMove(db, Some(personal), ids)
            && |LiveProperties(after, personal)| + |LiveProperties(after, agency)|
               == |LiveProperties(db, personal)| + |LiveProperties(db, agency)|
            && (forall o | o != personal && o != agency :: LiveProperties(after, o) == LiveProperties(db, o))
  {
    var personal := db.profiles[landlord].organisation.value;
    var after := Assigned(db, landlord, agency, ids, now).state;
    var moved := ToMove(db, Some(personal), ids);
    MoveConserves(db, moved, personal, agency);
    var just := db.(properties := MovedTo(db.properties, moved, agency));
    assert after.properties == just.properties;
    assert forall o :: LiveProperties(after, o) == LiveProperties(just, o);
  }

  /** The archived personal organisation keeps live properties exactly when a list of ids was given that
      leaves some out. */
  lemma LeftBehindIff(db: Db, landlord: nat, agency: nat, ids: set<nat>, now: int)
    requires Assigned(db, landlord, agency, ids, now).Returned?
    requires db.profiles[landlord].organisation.Some? && db.profiles[landlord].organisation.value != agency
    ensures var personal := db.profiles[landlord].organisation.value;
            LiveProperties(Assigned(db, landlord, agency, ids, now).state, personal) == {}
            <==> ids == {} || LiveProperties(db, personal) <= ids
  {
    var personal := db.profiles[landlord].organisation.value;
    var after := Assigned(db, landlord, agency, ids, now).state;
    var moved := ToMove(db, Some(personal), ids);
    MoveConserves(db, moved, personal, agency);
    var just := db.(properties := MovedTo(db.properties, moved, agency));
    assert LiveProperties(after, personal) == LiveProperties(just, personal) == LiveProperties(db, personal) - moved;
  }

  /** The landlord ends up a read-only member of the agency, and is live afterwards exactly if live
      before and not already a member of that agency, which would otherwise archive itself. */
  lemma LandlordStaysLiveIff(db: Db, landlord: nat, agency: nat, ids: set<nat>, now: int)
    requires Assigned(db, landlord, agency, ids, now).Returned?
    ensures var after := Assigned(db, landlord, agency, ids, now).state;
            var personal := db.profiles[landlord].organisation;
            after.profiles[landlord].organisation == Some(agency) && after.profiles[landlord].readOnly
            && (after.profiles[landlord].deletedAt.None? <==> db.profiles[landlord].deletedAt.None? && personal != Some(agency))
            && (personal.Some? ==> after.orgs[personal.value] == Org(Some(now), false))
            && (forall p | p in db.profiles && p != landlord && personal.Some? && db.profiles[p].organisation == personal ::
                  after.profiles[p].deletedAt.Some?)
  {
  }

  /** A landlord of organisation 0 with two live properties, and agency 1. */
  const PORTFOLIO: Db :=
    Db(map[0 := Org(None, true), 1 := Org(None, true)], map[5 := Profile(Some(0), None, "owner", false)],
       map[8 := Property(0, None), 9 := Property(0, None)], multiset{})

  /** Assigned with one of the two ids, the other property stays behind in the archived organisation. */
  lemma PropertyLeftBehind(now: int)
    ensures Assigned(PORTFOLIO, 5, 1, {8}, now).Returned?
    ensures var after := Assigned(PORTFOLIO, 5, 1, {8}, now).state;
            LiveProperties(after, 0) == {9} && LiveProperties(after, 1) == {8} && after.orgs[0].deletedAt == Some(now)
  {
    assert LiveProperties(PORTFOLIO, 0) == {8, 9} && ToMove(PORTFOLIO, Some(0), {8}) == {8};
  }

  /** A landlord assigned to the agency they belong to already is deactivated with it. */
  lemma AgencyArchivesItself(now: int)
    ensures Assigned(PORTFOLIO, 5, 0, {}, now).Returned?
    ensures var after := Assigned(PORTFOLIO, 5, 0, {}, now).state;
            after.orgs[0] == Org(Some(now), false) && after.profiles[5].deletedAt == Some(now)
  {
  }
}
