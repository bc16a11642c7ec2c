/** The admin service as it runs: rows changed in place, one request per transaction. */
module OrganisationService {
  import opened Collections
  import opened Transactions
  import opened Organisations

  datatype Request =
    | ProfileRequest(op: ProfileOp)
    | Archive(org: nat, now: int)
    | Restore(org: nat)
    | Transfer(source: nat, target: nat)
    | Assign(landlord: nat, agency: nat, ids: set<nat>, now: int)

  function HandleOp(db: Db, op: ProfileOp): Outcome<Db>
  {
    match op
    case Deactivate(id, requester, now) => Deactivated(db, id, requester, now)
    case Reactivate(id) => Reactivated(db, id)
  }

  function Handle(db: Db, r: Request): Outcome<Db>
  {
    match r
    case ProfileRequest(op) => HandleOp(db, op)
    case Archive(org, now) => Archived(db, org, now)
    case Restore(org) => Restored(db, org)
    case Transfer(source, target) => Transferred(db, source, target)
    case Assign(landlord, agency, ids, now) => Assigned(db, landlord, agency, ids, now)
  }

  function Run(db: Db, rs: seq<Request>): Db
    decreases |rs|
  {
    if rs == [] then db else Run(Settle(db, Handle(db, rs[0])), rs[1..])
  }

  /** What no admin request may disturb: the set of properties, the archived ones, and grants given. */
  ghost predicate Conserved(before: Db, after: Db)
  {
    after.properties.Keys == before.properties.Keys
    && (forall p | p in before.properties :: after.properties[p].deletedAt == before.properties[p].deletedAt)
    && (forall p | p in before.properties && before.properties[p].deletedAt.Some? :: after.properties[p] == before.properties[p])
    && before.grants <= after.grants
  }

  lemma StepConserves(db: Db, r: Request)
    requires GrantsUnique(db.grants)
    ensures GrantsUnique(Settle(db, Handle(db, r)).grants) && Conserved(db, Settle(db, Handle(db, r)))
  {
    if r.Assign? && r.landlord in db.profiles {
      NewGrantsUnique(db.grants, r.landlord, ToMove(db, db.profiles[r.landlord].organisation, r.ids));
    }
  }

  /** Over every run of admin requests, whatever organisations they name: no property appears or
      disappears, archived ones keep their owner, and grants stay unique and are never withdrawn. */
  lemma {:induction false} RunConserves(db: Db, rs: seq<Request>)
    requires GrantsUnique(db.grants)
    ensures GrantsUnique(Run(db, rs).grants) && Conserved(db, Run(db, rs))
    decreases |rs|
  {
    if rs != [] {
      StepConserves(db, rs[0]);
      RunConserves(Settle(db, Handle(db, rs[0])), rs[1..]);
    }
  }

  // ----- Who owns a property -----

  /** Does this request, if it succeeds, move property p? */
  predicate Moves(db: Db, r: Request, p: nat)
  {
    (r.Transfer? && p in LiveProperties(db, r.source))
    || (r.Assign? && r.landlord in db.profiles && p in ToMove(db, db.profiles[r.landlord].organisation, r.ids))
  }

  function NewOwner(r: Request): nat
    requires r.Transfer? || r.Assign?
  {
    if r.Transfer? then r.target else r.agency
  }

  /** Every property belongs to an organisation on record, archived or not. */
  predicate OwnersExist(db: Db)
  {
    forall p | p in db.properties :: db.properties[p].organisation in db.orgs
  }

  /** Only a transfer from its owner or the assignment of a landlord of its owner changes who owns a live
      property, and then to that request's target. */
  lemma StepOwners(db: Db, r: Request, p: nat)
    requires p in db.properties
    ensures p in Settle(db, Handle(db, r)).properties
    ensures Settle(db, Handle(db, r)).properties[p].organisation
            == if Handle(db, r).Returned? && Moves(db, r, p) then NewOwner(r) else db.properties[p].organisation
    ensures OwnersExist(db) ==> OwnersExist(Settle(db, Handle(db, r)))
  {
  }

  /** Request i of the run succeeds and moves p. */
  predicate MovedBy(db: Db, rs: seq<Request>, i: nat, p: nat)
    requires i < |rs|
  {
    Handle(Run(db, rs[..i]), rs[i]).Returned? && Moves(Run(db, rs[..i]), rs[i], p)
  }

  predicate LastMover(db: Db, rs: seq<Request>, i: nat, p: nat)
    requires i < |rs|
  {
    MovedBy(db, rs, i, p) && forall j | i < j < |rs| :: !MovedBy(db, rs, j, p)
  }

  lemma MovedByTail(db: Db, rs: seq<Request>, i: nat, p: nat)
    requires 0 < i < |rs|
    ensures MovedBy(db, rs, i, p) <==> MovedBy(Settle(db, Handle(db, rs[0])), rs[1..], i - 1, p)
  {
    assert rs[..i][0] == rs[0] && rs[..i][1..] == rs[1..][..i - 1];
  }

  lemma MovedByFirst(db: Db, rs: seq<Request>, p: nat)
    requires rs != []
    ensures MovedBy(db, rs, 0, p) <==> Handle(db, rs[0]).Returned? && Moves(db, rs[0], p)
  {
    assert rs[..0] == [];
  }

  /** Over every run every property keeps an owner on record: the target of the last request that moved it
      away from its owner at the time, or the first owner if none did. */
  lemma {:induction false} RunOwners(db: Db, rs: seq<Request>, p: nat)
    requires p in db.properties && OwnersExist(db)
    ensures OwnersExist(Run(db, rs)) && p in Run(db, rs).properties
    ensures (exists i :: 0 <= i < |rs| && LastMover(db, rs, i, p)
                         && Run(db, rs).properties[p].organisation == NewOwner(rs[i]))
            || (Run(db, rs).properties[p].organisation == db.properties[p].organisation
                && forall i | 0 <= i < |rs| :: !MovedBy(db, rs, i, p))
    decreases |rs|
  {
    if rs != [] {
      var next := Settle(db, Handle(db, rs[0]));
      StepOwners(db, rs[0], p);
      RunOwners(next, rs[1..], p);
      MovedByFirst(db, rs, p);
      forall i | 0 < i < |rs| ensures MovedBy(db, rs, i, p) <==> MovedBy(next, rs[1..], i - 1, p) {
        MovedByTail(db, rs, i, p);
      }
      if i :| 0 <= i < |rs[1..]| && LastMover(next, rs[1..], i, p)
              && Run(next, rs[1..]).properties[p].organisation == NewOwner(rs[1..][i]) {
        assert LastMover(db, rs, i + 1, p) && NewOwner(rs[i + 1]) == NewOwner(rs[1..][i]);
      } else if MovedBy(db, rs, 0, p) {
        assert LastMover(db, rs, 0, p);
      }
    }
  }

  class Admin {
    var orgs: map<nat, Org>
    var profiles: map<nat, Profile>
    var properties: map<nat, Property>
    var grants: multiset<Grant>

    function State(): Db
      reads this
    {
      Db(orgs, profiles, properties, grants)
    }

    constructor (db: Db)
      ensures State() == db
    {
      orgs, profiles, properties, grants := db.orgs, db.profiles, db.properties, db.grants;
    }

    method DeactivateProfile(id: nat, requester: Option<nat>, now: int) returns (error: Option<int>)
      modifies this
      ensures Did(Deactivated(old(State()), id, requester, now), State(), error)
    {
      if id !in profiles { return Some(404); }
      if requester == Some(id) { return Some(400); }
      if profiles[id].deletedAt.Some? { return Some(409); }
      profiles := profiles[id := profiles[id].(deletedAt := Some(now))];
      return None;
    }

    method RestoreProfile(id: nat) returns (error: Option<int>)
      modifies this
      ensures Did(Reactivated(old(State()), id), State(), error)
    {
      if id !in profiles { return Some(404); }
      if profiles[id].deletedAt.None? { return Some(409); }
      profiles := profiles[id := profiles[id].(deletedAt := None)];
      return None;
    }

    /** `for p in profiles: p.deleted_at = at` */
    method SetDeletedAt(ids: set<nat>, at: Option<int>)
      requires ids <= profiles.Keys
      modifies this`profiles
      ensures profiles == WithDeletedAt(old(profiles), ids, at)
    {
      var todo := ids;
      while todo != {}
        invariant todo <= ids && profiles.Keys == old(profiles).Keys
        invariant forall p | p in profiles ::
          profiles[p] == if p in ids - todo then old(profiles)[p].(deletedAt := at) else old(profiles)[p]
      {
        var p :| p in todo;
        profiles := profiles[p := profiles[p].(deletedAt := at)];
        todo := todo - {p};
      }
    }

    method ArchiveOrganisation(o: nat, now: int) returns (error: Option<int>)
      modifies this
      ensures Did(Archived(old(State()), o, now), State(), error)
    {
      if o !in orgs { return Some(404); }
      if orgs[o].deletedAt.Some? { return Some(409); }
      orgs := orgs[o := orgs[o].(deletedAt := Some(now))];
      orgs := orgs[o := orgs[o].(active := false)];
      SetDeletedAt(LiveMembers(State(), o), Some(now));
      return None;
    }

    method RestoreOrganisation(o: nat) returns (error: Option<int>)
      modifies this
      ensures Did(Restored(old(State()), o), State(), error)
    {
      if o !in orgs { return Some(404); }
      if orgs[o].deletedAt.None? { return Some(409); }
      var archivedAt := orgs[o].deletedAt.value;
      orgs := orgs[o := orgs[o].(deletedAt := None)];
      orgs := orgs[o := orgs[o].(active := true)];
      SetDeletedAt(Matching(State(), o, archivedAt), None);
      return None;
    }

    /** Returns how many properties the UPDATE reports, which counts rows even if source is target. */
    method TransferProperties(source: nat, target: nat) returns (error: Option<int>, transferred: nat)
      modifies this
      ensures Did(Transferred(old(State()), source, target), State(), error)
      ensures error.None? ==> transferred == |LiveProperties(old(State()), source)|
    {
      transferred := 0;
      if source !in orgs { return Some(404), 0; }
      if target !in orgs { return Some(404), 0; }
      if orgs[target].deletedAt.Some? { return Some(409), 0; }
      var rows := LiveProperties(State(), source);
      properties := MovedTo(properties, rows, target);
      return None, |rows|;
    }

    /** `for prop in properties: prop.organisation_id = agency_org_id` */
    method MoveProperties(ids: set<nat>, o: nat)
      requires ids <= properties.Keys
      modifies this`properties
      ensures properties == MovedTo(old(properties), ids, o)
    {
      var todo := ids;
      while todo != {}
        invariant todo <= ids && properties.Keys == old(properties).Keys
        invariant forall p | p in properties ::
          properties[p] == if p in ids - todo then old(properties)[p].(organisation := o) else old(properties)[p]
      {
        var p :| p in todo;
        properties := properties[p := properties[p].(organisation := o)];
        todo := todo - {p};
      }
    }

    /** Looks each grant up in the database and adds the missing ones; the additions stay pending, unseen
        by the look-ups, until the flush at the end. */
    method GrantAccess(landlord: nat, ids: set<nat>)
      modifies this`grants
      ensures grants == old(grants) + multiset(NewGrants(old(grants), landlord, ids))
    {
      var pending: set<Grant> := {};
      var todo := ids;
      while todo != {}
        invariant todo <= ids && grants == old(grants)
        invariant pending == NewGrants(grants, landlord, ids - todo)
      {
        var p :| p in todo;
        if !HasGrant(grants, landlord, p) {
          pending := pending + {Grant(landlord, p, true)};
        }
        todo := todo - {p};
      }
      assert ids - {} == ids;
      grants := grants + multiset(pending);
    }

    method MoveLandlord(landlord: nat, agency: nat, ids: set<nat>)
      requires landlord in profiles
      modifies this
      ensures State() == Reassigned(old(State()), landlord, agency, ids)
    {
      var rows := ToMove(State(), profiles[landlord].organisation, ids);
      MoveProperties(rows, agency);
      GrantAccess(landlord, rows);
      profiles := profiles[landlord := profiles[landlord].(organisation := Some(agency))];
      profiles := profiles[landlord := profiles[landlord].(role := "landlord", readOnly := true)];
    }

    method AssignLandlord(landlord: nat, agency: nat, ids: set<nat>, now: int) returns (error: Option<int>)
      modifies this
      ensures Did(Assigned(old(State()), landlord, agency, ids, now), State(), error)
    {
      if landlord !in profiles { return Some(404); }
      if agency !in orgs { return Some(404); }
      if orgs[agency].deletedAt.Some? { return Some(409); }
      var personal := profiles[landlord].organisation;
      MoveLandlord(landlord, agency, ids);
      if personal.Some? {
        error := ArchiveOrganisation(personal.value, now);
      } else {
        error := None;
      }
    }

    /** A request inside `get_db`. */
    method Serve(r: Request) returns (error: Option<int>)
      modifies this
      ensures State() == Settle(old(State()), Handle(old(State()), r))
      ensures error.None? <==> Handle(old(State()), r).Returned?
      ensures GrantsUnique(old(grants)) ==> GrantsUnique(grants) && Conserved(old(State()), State())
    {
      var saved := State();
      StepConservesIf(saved, r);
      match r {
        case ProfileRequest(op) =>
          match op {
            case Deactivate(id, requester, now) => error := DeactivateProfile(id, requester, now);
            case Reactivate(id) => error := RestoreProfile(id);
          }
        case Archive(org, now) => error := ArchiveOrganisation(org, now);
        case Restore(org) => error := RestoreOrganisation(org);
        case Transfer(source, target) =>
          var count: nat;
          error, count := TransferProperties(source, target);
        case Assign(landlord, agency, ids, now) => error := AssignLandlord(landlord, agency, ids, now);
      }
      if error.Some? {
        orgs, profiles, properties, grants := saved.orgs, saved.profiles, saved.properties, saved.grants;
      }
    }
  }

  lemma StepConservesIf(db: Db, r: Request)
    ensures GrantsUnique(db.grants) ==>
              GrantsUnique(Settle(db, Handle(db, r)).grants) && Conserved(db, Settle(db, Handle(db, r)))
  {
    if GrantsUnique(db.grants) { StepConserves(db, r); }
  }
}
