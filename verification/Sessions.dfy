/** Session invalidation: a marker per user in a store with expiry, checked and cleared by requests
    in separate steps that other steps may come between. */
module Sessions {
  import opened Collections

  /** Seconds. */
  const TTL := 86_400

  type Markers = map<string, int>

  predicate Exists(m: Markers, user: string, now: int)
  {
    user in m && now < m[user]
  }

  function SetEx(m: Markers, user: string, now: int): Markers { m[user := now + TTL] }

  function Delete(m: Markers, user: string): Markers { m - {user} }

  // ----- The steps -----

  datatype Event =
    | Invalidate(user: string, at: int)
    | Check(request: nat, at: int)
    | Clear(request: nat)
    | Refuse(request: nat)

  /** Where a request stands after its check. */
  datatype Phase = Admitted | MustClear | MustRefuse | Refused

  datatype State = State(markers: Markers, phases: map<nat, Phase>, clock: int)

  /** Which user a request belongs to. */
  type Owner = nat -> string

  const START := State(map[], map[], 0)

  predicate Enabled(s: State, e: Event)
  {
    match e
    case Invalidate(_, at) => at >= s.clock
    case Check(r, at) => at >= s.clock && r !in s.phases
    case Clear(r) => r in s.phases && s.phases[r] == MustClear
    case Refuse(r) => r in s.phases && s.phases[r] == MustRefuse
  }

  function Next(owner: Owner, s: State, e: Event): State
  {
    match e
    case Invalidate(user, at) => s.(markers := SetEx(s.markers, user, at), clock := at)
    case Check(r, at) =>
      s.(phases := s.phases[r := if Exists(s.markers, owner(r), at) then MustClear else Admitted], clock := at)
    case Clear(r) => s.(markers := Delete(s.markers, owner(r)), phases := s.phases[r := MustRefuse])
    case Refuse(r) => s.(phases := s.phases[r := Refused])
  }

  /** The state after an interleaving, if each of its steps was possible. */
  function Exec(owner: Owner, es: seq<Event>): Option<State>
  {
    if es == [] then Some(START)
    else
      var before := Exec(owner, es[..|es| - 1]);
      var e := es[|es| - 1];
      if before.Some? && Enabled(before.value, e) then Some(Next(owner, before.value, e)) else None
  }

  lemma {:induction false} PrefixRuns(owner: Owner, es: seq<Event>, k: nat)
    requires Exec(owner, es).Some? && k <= |es|
    ensures Exec(owner, es[..k]).Some?
    ensures k < |es| ==> Enabled(Exec(owner, es[..k]).value, es[k])
                         && Exec(owner, es[..k + 1]) == Some(Next(owner, Exec(owner, es[..k]).value, es[k]))
    decreases |es|
  {
    if k < |es| {
      var shorter := es[..|es| - 1];
      if k < |shorter| {
        PrefixRuns(owner, shorter, k);
        assert shorter[..k] == es[..k] && shorter[..k + 1] == es[..k + 1];
      } else {
        assert es[..k] == shorter && es[..k + 1] == es && es[..k + 1][..k] == es[..k];
      }
    } else {
      assert es[..k] == es;
    }
  }

  // ----- What the marker remembers -----

  predicate ClearedAfter(owner: Owner, es: seq<Event>, user: string, i: nat)
  {
    exists j :: i < j < |es| && es[j].Clear? && owner(es[j].request) == user
  }

  /** An invalidation of the user that has not run out by `now` and that nobody cleared since. */
  predicate Outstanding(owner: Owner, es: seq<Event>, user: string, now: int, i: nat)
  {
    i < |es| && es[i].Invalidate? && es[i].user == user && now < es[i].at + TTL && !ClearedAfter(owner, es, user, i)
  }

  lemma {:induction false} ClockBounds(owner: Owner, es: seq<Event>)
    requires Exec(owner, es).Some?
    ensures forall i | 0 <= i < |es| && es[i].Invalidate? :: es[i].at <= Exec(owner, es).value.clock
  {
    if es != [] {
      ClockBounds(owner, es[..|es| - 1]);
    }
  }

  lemma OutstandingGrows(owner: Owner, es: seq<Event>, e: Event, user: string, now: int, i: nat)
    requires i < |es|
    ensures Outstanding(owner, es + [e], user, now, i)
            <==> Outstanding(owner, es, user, now, i) && !(e.Clear? && owner(e.request) == user)
  {
    var more := es + [e];
    if ClearedAfter(owner, es, user, i) {
      var j :| i < j < |es| && es[j].Clear? && owner(es[j].request) == user;
      assert more[j] == es[j];
    }
    if e.Clear? && owner(e.request) == user {
      assert more[|es|] == e;
    }
    assert more[i] == es[i];
  }

  /** The store holds a live marker for a user exactly when some invalidation of that user is still
      outstanding: the whole history, in both directions. */
  lemma {:induction false} MarkerIsHistory(owner: Owner, es: seq<Event>, user: string, now: int)
    requires Exec(owner, es).Some?
    ensures Exists(Exec(owner, es).value.markers, user, now) <==> exists i :: Outstanding(owner, es, user, now, i)
  {
    if es != [] {
      var before, e := es[..|es| - 1], es[|es| - 1];
      assert es == before + [e];
      MarkerIsHistory(owner, before, user, now);
      ClockBounds(owner, before);
      forall i | 0 <= i < |before|
        ensures Outstanding(owner, es, user, now, i)
                <==> Outstanding(owner, before, user, now, i) && !(e.Clear? && owner(e.request) == user)
      {
        OutstandingGrows(owner, before, e, user, now, i);
      }
      if e.Invalidate? && e.user == user && now < e.at + TTL {
        assert Outstanding(owner, es, user, now, |before|);
      }
    }
  }

  // ----- Phases -----

  /** After its check a request only moves on; what has cleared or refused never gets admitted. */
  lemma {:induction false} PhasesOnlyAdvance(owner: Owner, es: seq<Event>, k: nat, r: nat)
    requires Exec(owner, es).Some? && k <= |es| && Exec(owner, es[..k]).Some? && r in Exec(owner, es[..k]).value.phases
    ensures r in Exec(owner, es).value.phases
    ensures var (was, end) := (Exec(owner, es[..k]).value.phases[r], Exec(owner, es).value.phases[r]);
            (was == Admitted <==> end == Admitted) && (was in {MustRefuse, Refused} ==> end in {MustRefuse, Refused})
    decreases |es|
  {
    if k == |es| {
      assert es[..k] == es;
    } else {
      var shorter := es[..|es| - 1];
      assert shorter[..k] == es[..k];
      PhasesOnlyAdvance(owner, shorter, k, r);
    }
  }

  /** A request is admitted, now and ever after, exactly if no invalidation of its user was outstanding
      when it checked. */
  lemma AdmittedIff(owner: Owner, es: seq<Event>, k: nat)
    requires Exec(owner, es).Some? && k < |es| && es[k].Check?
    ensures es[k].request in Exec(owner, es).value.phases
    ensures Exec(owner, es).value.phases[es[k].request] == Admitted
            <==> !exists i :: Outstanding(owner, es[..k], owner(es[k].request), es[k].at, i)
  {
    PrefixRuns(owner, es, k);
    PrefixRuns(owner, es, k + 1);
    MarkerIsHistory(owner, es[..k], owner(es[k].request), es[k].at);
    PhasesOnlyAdvance(owner, es, k + 1, es[k].request);
  }

  /** In every interleaving: a request that checks after an invalidation of its user, within the TTL, is
      admitted only if another request of that user cleared the marker in between, and that one is
      refused, never admitted. */
  lemma AdmittedOnlyAfterRefusal(owner: Owner, es: seq<Event>, i: nat, k: nat)
    requires Exec(owner, es).Some? && i < k < |es|
    requires es[i].Invalidate? && es[k].Check? && es[i].user == owner(es[k].request) && es[k].at < es[i].at + TTL
    requires es[k].request in Exec(owner, es).value.phases && Exec(owner, es).value.phases[es[k].request] == Admitted
    ensures exists j :: i < j < k && es[j].Clear? && owner(es[j].request) == es[i].user && es[j].request != es[k].request
                        && es[j].request in Exec(owner, es).value.phases
                        && Exec(owner, es).value.phases[es[j].request] in {MustRefuse, Refused}
  {
    AdmittedIff(owner, es, k);
    assert !Outstanding(owner, es[..k], es[i].user, es[k].at, i);
    assert ClearedAfter(owner, es[..k], es[i].user, i);
    var j :| i < j < k && es[..k][j].Clear? && owner(es[..k][j].request) == es[i].user;
    PrefixRuns(owner, es, j);
    PrefixRuns(owner, es, j + 1);
    PhasesOnlyAdvance(owner, es, j + 1, es[j].request);
  }

  // ----- Which request does an invalidation refuse? -----

  /** No request of the user stands between its check and its clear. */
  predicate NonePending(owner: Owner, s: State, user: string)
  {
    forall r | r in s.phases && owner(r) == user :: s.phases[r] != MustClear
  }

  lemma QuietStep(owner: Owner, s: State, e: Event, user: string)
    requires Enabled(s, e) && NonePending(owner, s, user) && !(e.Check? && owner(e.request) == user)
    ensures NonePending(owner, Next(owner, s, e), user)
    ensures !(e.Clear? && owner(e.request) == user)
  {
  }

  /** The steps before the k-th left nobody waiting, so the k-th step does not clear. */
  lemma QuietAt(owner: Owner, es: seq<Event>, user: string, k: nat)
    requires Exec(owner, es).Some? && k < |es| && !(es[k].Check? && owner(es[k].request) == user)
    requires Exec(owner, es[..k]).Some? && NonePending(owner, Exec(owner, es[..k]).value, user)
    ensures Exec(owner, es[..k + 1]).Some? && NonePending(owner, Exec(owner, es[..k + 1]).value, user)
    ensures !(es[k].Clear? && owner(es[k].request) == user)
  {
    PrefixRuns(owner, es, k);
    QuietStep(owner, Exec(owner, es[..k]).value, es[k], user);
  }

  /** Until a request of the user checks, none of them starts waiting to clear. */
  lemma {:induction false} StaysQuiet(owner: Owner, es: seq<Event>, user: string, i: nat, k: nat)
    requires Exec(owner, es).Some? && i <= k <= |es| && Exec(owner, es[..i]).Some?
    requires NonePending(owner, Exec(owner, es[..i]).value, user)
    requires forall j | i <= j < k :: !(es[j].Check? && owner(es[j].request) == user)
    ensures Exec(owner, es[..k]).Some? && NonePending(owner, Exec(owner, es[..k]).value, user)
    ensures forall j | i <= j < k :: !(es[j].Clear? && owner(es[j].request) == user)
    decreases k
  {
    if i < k {
      StaysQuiet(owner, es, user, i, k - 1);
      QuietAt(owner, es, user, k - 1);
    }
  }

  /** If nobody is waiting to clear when the user is invalidated, the user's next check within the TTL
      is refused. */
  lemma NextCheckRefused(owner: Owner, es: seq<Event>, i: nat, k: nat)
    requires Exec(owner, es).Some? && i < k < |es|
    requires es[i].Invalidate? && es[k].Check? && es[i].user == owner(es[k].request) && es[k].at < es[i].at + TTL
    requires forall j | i < j < k :: !(es[j].Check? && owner(es[j].request) == es[i].user)
    requires Exec(owner, es[..i]).Some? && NonePending(owner, Exec(owner, es[..i]).value, es[i].user)
    ensures es[k].request in Exec(owner, es).value.phases && Exec(owner, es).value.phases[es[k].request] != Admitted
  {
    StaysQuiet(owner, es, es[i].user, i, k);
    AdmittedIff(owner, es, k);
    assert Outstanding(owner, es[..k], es[i].user, es[k].at, i);
  }

  /** Without that condition it can fail: a request that found an earlier marker clears the new one. */
  lemma LateClearSwallowsInvalidation(owner: Owner, user: string)
    requires owner(1) == owner(2) == user
    ensures var es := [Invalidate(user, 0), Check(1, 1), Invalidate(user, 2), Clear(1), Check(2, 3)];
            Exec(owner, es).Some? && 2 in Exec(owner, es).value.phases && Exec(owner, es).value.phases[2] == Admitted
  {
    var e0, e1, e2, e3, e4 := Invalidate(user, 0), Check(1, 1), Invalidate(user, 2), Clear(1), Check(2, 3);
    assert [e0][..0] == [] && [e0, e1][..1] == [e0] && [e0, e1, e2][..2] == [e0, e1];
    assert [e0, e1, e2, e3][..3] == [e0, e1, e2] && [e0, e1, e2, e3, e4][..4] == [e0, e1, e2, e3];
    assert Exec(owner, [e0]) == Some(State(map[user := TTL], map[], 0));
    assert Exec(owner, [e0, e1]) == Some(State(map[user := TTL], map[1 := MustClear], 1));
    assert (map[user := TTL])[user := 2 + TTL] == map[user := 2 + TTL];
    assert Exec(owner, [e0, e1, e2]) == Some(State(map[user := 2 + TTL], map[1 := MustClear], 2));
    assert Exec(owner, [e0, e1, e2, e3]).value.markers == map[];
  }

  // ----- The store and the guard, as they run -----

  class MarkerStore {
    var markers: Markers

    constructor ()
      ensures markers == map[]
    {
      markers := map[];
    }

    method InvalidateSession(user: string, now: int)
      modifies this
      ensures markers == SetEx(old(markers), user, now)
      ensures forall t :: Exists(markers, user, t) <==> t < now + 86_400
      ensures forall other, t | other != user :: Exists(markers, other, t) <==> Exists(old(markers), other, t)
    {
      markers := markers[user := now + TTL];
    }

    method IsSessionStale(user: string, now: int) returns (stale: bool)
      ensures stale <==> exists t :: t >= now && Exists(markers, user, t)
    {
      stale := user in markers && now < markers[user];
      assert stale ==> Exists(markers, user, now);
    }

    method ClearStaleMarker(user: string)
      modifies this
      ensures markers == Delete(old(markers), user)
      ensures forall t :: !Exists(markers, user, t)
      ensures forall other, t | other != user :: Exists(markers, other, t) <==> Exists(old(markers), other, t)
    {
      markers := markers - {user};
    }

    /** The check at the head of `get_current_user`, run without interruption: a stale session is refused
        once, and the same user's next request passes. */
    method Guard(user: string, now: int) returns (refused: bool)
      modifies this
      ensures refused <==> Exists(old(markers), user, now)
      ensures !Exists(markers, user, now)
      ensures forall other | other != user :: Exists(markers, other, now) <==> Exists(old(markers), other, now)
    {
      refused := IsSessionStale(user, now);
      if refused {
        ClearStaleMarker(user);
      }
    }
  }
}
