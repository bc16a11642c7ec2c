/** The generic transition-table machine, and what a sequence of events does to it. */
module StateMachines {
  import opened Collections

  /** A state absent from the table has no transitions, and neither has an unknown event. */
  datatype Machine<S(==), E(==)> = Machine(table: map<S, map<E, S>>) {
    predicate Can(state: S, event: E)
    {
      state in table && event in table[state]
    }

    /** The state after a sequence of events; None if one of them raises `InvalidTransition`. */
    function Follow(state: S, events: seq<E>): Option<S>
      decreases |events|
    {
      if events == [] then Some(state)
      else if Can(state, events[0]) then Follow(table[state][events[0]], events[1..])
      else None
    }
  }

  /** How often e occurs. */
  function Count<E(==)>(events: seq<E>, e: E): nat
  {
    if events == [] then 0 else (if events[0] == e then 1 else 0) + Count(events[1..], e)
  }

  lemma {:induction false} CountAppend<E>(a: seq<E>, b: seq<E>, e: E)
    ensures Count(a + b, e) == Count(a, e) + Count(b, e)
  {
    if a == [] {
      assert a + b == b;
    } else {
      assert (a + b)[1..] == a[1..] + b;
      CountAppend(a[1..], b, e);
    }
  }

  lemma CountPair<E>(x: E, y: E, e: E)
    ensures Count([x, y], e) == (if x == e then 1 else 0) + (if y == e then 1 else 0)
  {
    assert [x, y][1..] == [y];
    assert Count([y], e) == if y == e then 1 else 0;
  }

  /** Following a and then b. */
  lemma {:induction false} FollowAppend<S, E>(m: Machine<S, E>, s: S, a: seq<E>, b: seq<E>)
    ensures m.Follow(s, a + b) == (if m.Follow(s, a).Some? then m.Follow(m.Follow(s, a).value, b) else None)
    decreases |a|
  {
    if a == [] {
      assert a + b == b;
    } else if m.Can(s, a[0]) {
      assert (a + b)[1..] == a[1..] + b;
      FollowAppend(m, m.table[s][a[0]], a[1..], b);
    }
  }
}
