/** Seeding role assignments from the identity provider's users; safe to run again. */
module RoleMigration {
  import opened Collections

  datatype User = User(sub: string, email: Option<string>, roles: seq<string>)

  /** A row of rbac_user_roles for the application. */
  datatype UserRole = UserRole(sub: string, role: nat)

  datatype Stats = Stats(processed: nat, added: nat, noCribRoles: nat)

  /** The application's roles by name, and `str.lower` on role names. */
  datatype Roles = Roles(ids: map<string, nat>, lower: string -> string)

  /** `crib_matched`: the ids of the user's roles that the application knows, repetitions included. */
  function Matched(rs: Roles, names: seq<string>): seq<nat>
  {
    if names == [] then []
    else
      var name := rs.lower(names[0]);
      (if name in rs.ids then [rs.ids[name]] else []) + Matched(rs, names[1..])
  }

  function RowsOf(sub: string, ids: seq<nat>): set<UserRole>
  {
    set r | r in ids :: UserRole(sub, r)
  }

  /** Every assignment the users call for. */
  function Wanted(rs: Roles, users: seq<User>): set<UserRole>
  {
    if users == [] then {} else RowsOf(users[0].sub, Matched(rs, users[0].roles)) + Wanted(rs, users[1..])
  }

  function WithoutRoles(rs: Roles, users: seq<User>): nat
  {
    if users == [] then 0 else (if Matched(rs, users[0].roles) == [] then 1 else 0) + WithoutRoles(rs, users[1..])
  }

  /** The table after a run: the wanted rows that were missing, once each. */
  ghost function Migrated(table: multiset<UserRole>, wanted: set<UserRole>): multiset<UserRole>
  {
    table + multiset(Missing(table, wanted))
  }

  function Missing(table: multiset<UserRole>, wanted: set<UserRole>): set<UserRole>
  {
    set r | r in wanted && r !in table
  }

  lemma MigrateAppend(table: multiset<UserRole>, a: set<UserRole>, b: set<UserRole>)
    ensures Migrated(Migrated(table, a), b) == Migrated(table, a + b)
    ensures |Missing(table, a)| + |Missing(Migrated(table, a), b)| == |Missing(table, a + b)|
  {
    var first, second := Missing(table, a), Missing(Migrated(table, a), b);
    assert forall r :: r in Migrated(table, a) <==> r in table || r in first;
    assert Missing(table, a + b) == first + second && first !! second;
    assert multiset(first + second) == multiset(first) + multiset(second);
  }

  /** The users' rows after `ON CONFLICT (logto_sub) DO UPDATE SET email`: the last e-mail counts, and
      users without a known role get no row. */
  function Upserted(platform: map<string, Option<string>>, rs: Roles, users: seq<User>): map<string, Option<string>>
    decreases |users|
  {
    if users == [] then platform
    else
      var before := Upserted(platform, rs, users[..|users| - 1]);
      var u := users[|users| - 1];
      if Matched(rs, u.roles) == [] then before else before[u.sub := u.email]
  }

  lemma UpsertedSnoc(platform: map<string, Option<string>>, rs: Roles, users: seq<User>, i: nat)
    requires i < |users|
    ensures Upserted(platform, rs, users[..i + 1])
            == (if Matched(rs, users[i].roles) == [] then Upserted(platform, rs, users[..i])
                else Upserted(platform, rs, users[..i])[users[i].sub := users[i].email])
  {
    assert users[..i + 1][..i] == users[..i];
  }

  lemma WantedSnoc(rs: Roles, users: seq<User>, i: nat)
    requires i < |users|
    ensures Wanted(rs, users[..i + 1]) == Wanted(rs, users[..i]) + RowsOf(users[i].sub, Matched(rs, users[i].roles))
    ensures WithoutRoles(rs, users[..i + 1]) == WithoutRoles(rs, users[..i]) + if Matched(rs, users[i].roles) == [] then 1 else 0
  {
    WantedAppend(rs, users[..i], users[i]);
    assert users[..i + 1] == users[..i] + [users[i]];
  }

  lemma {:induction false} WantedAppend(rs: Roles, users: seq<User>, u: User)
    ensures Wanted(rs, users + [u]) == Wanted(rs, users) + RowsOf(u.sub, Matched(rs, u.roles))
    ensures WithoutRoles(rs, users + [u]) == WithoutRoles(rs, users) + if Matched(rs, u.roles) == [] then 1 else 0
  {
    if users == [] {
      assert [] + [u] == [u] && [u][1..] == [];
    } else {
      assert (users + [u])[1..] == users[1..] + [u];
      WantedAppend(rs, users[1..], u);
    }
  }

  /** No row twice. */
  ghost predicate Unique(table: multiset<UserRole>)
  {
    forall r :: table[r] <= 1
  }

  lemma MigratedUnique(table: multiset<UserRole>, wanted: set<UserRole>)
    requires Unique(table)
    ensures Unique(Migrated(table, wanted))
  {
    forall r ensures Migrated(table, wanted)[r] <= 1 {
      if r in Missing(table, wanted) { assert r !in table; }
    }
  }

  /** Running again changes nothing and assigns nothing. */
  lemma SecondRunIsIdle(table: multiset<UserRole>, wanted: set<UserRole>)
    ensures Missing(Migrated(table, wanted), wanted) == {}
    ensures Migrated(Migrated(table, wanted), wanted) == Migrated(table, wanted)
  {
    forall r | r in wanted ensures r in Migrated(table, wanted) {
      if r !in table { assert r in Missing(table, wanted); }
    }
    assert Missing(Migrated(table, wanted), wanted) == {};
  }

  // ----- Which assignments the users call for -----

  /** The application knows a role of this name, in whatever case, and it is r. */
  predicate Names(rs: Roles, name: string, r: nat)
  {
    rs.lower(name) in rs.ids && rs.ids[rs.lower(name)] == r
  }

  lemma {:induction false} MatchedIff(rs: Roles, names: seq<string>, r: nat)
    ensures r in Matched(rs, names) <==> exists name :: name in names && Names(rs, name, r)
  {
    if names != [] {
      MatchedIff(rs, names[1..], r);
      var head := if rs.lower(names[0]) in rs.ids then [rs.ids[rs.lower(names[0])]] else [];
      assert Matched(rs, names) == head + Matched(rs, names[1..]);
      assert r in head <==> Names(rs, names[0], r);
      assert forall name :: name in names <==> name == names[0] || name in names[1..];
    }
  }

  /** An assignment is called for exactly if a user with that id has a role whose name, in lower case, is that of
      the application's role. */
  lemma {:induction false} WantedIff(rs: Roles, users: seq<User>, row: UserRole)
    ensures row in Wanted(rs, users) <==>
            exists u :: u in users && u.sub == row.sub && exists name :: name in u.roles && Names(rs, name, row.role)
  {
    if users != [] {
      WantedIff(rs, users[1..], row);
      MatchedIff(rs, users[0].roles, row.role);
      assert forall u :: u in users <==> u == users[0] || u in users[1..];
    }
  }

  /** None of the user's roles is known. */
  predicate Unknown(rs: Roles, u: User)
  {
    forall name | name in u.roles :: rs.lower(name) !in rs.ids
  }

  lemma UnknownIff(rs: Roles, u: User)
    ensures Unknown(rs, u) <==> Matched(rs, u.roles) == []
  {
    if Matched(rs, u.roles) != [] {
      var r := Matched(rs, u.roles)[0];
      MatchedIff(rs, u.roles, r);
    } else {
      forall name | name in u.roles ensures rs.lower(name) !in rs.ids {
        if rs.lower(name) in rs.ids {
          MatchedIff(rs, u.roles, rs.ids[rs.lower(name)]);
          assert Names(rs, name, rs.ids[rs.lower(name)]);
        }
      }
    }
  }

  /** The counter of users without a known role grows by one for each of them and for no other; and such a user
      gets no row, where any other gets one with the e-mail seen last. */
  lemma UnknownUsers(rs: Roles, users: seq<User>, u: User, platform: map<string, Option<string>>)
    ensures WithoutRoles(rs, users + [u]) == WithoutRoles(rs, users) + if Unknown(rs, u) then 1 else 0
    ensures var before := Upserted(platform, rs, users);
            Upserted(platform, rs, users + [u]) == if Unknown(rs, u) then before else before[u.sub := u.email]
  {
    UnknownIff(rs, u);
    WantedAppend(rs, users, u);
    assert (users + [u])[..|users|] == users;
  }

  class Migration {
    const roles: Roles
    var userRoles: multiset<UserRole>
    var platformUsers: map<string, Option<string>>

    constructor (roles: Roles, userRoles: multiset<UserRole>, platformUsers: map<string, Option<string>>)
      ensures this.roles == roles && this.userRoles == userRoles && this.platformUsers == platformUsers
    {
      this.roles, this.userRoles, this.platformUsers := roles, userRoles, platformUsers;
    }

    /** `assign_role` */
    method AssignRole(sub: string, role: nat) returns (inserted: bool)
      modifies this`userRoles
      ensures inserted <==> UserRole(sub, role) !in old(userRoles)
      ensures userRoles == Migrated(old(userRoles), {UserRole(sub, role)})
    {
      if UserRole(sub, role) in userRoles {
        assert Missing(userRoles, {UserRole(sub, role)}) == {};
        return false;
      }
      assert Missing(userRoles, {UserRole(sub, role)}) == {UserRole(sub, role)};
      userRoles := userRoles + multiset{UserRole(sub, role)};
      return true;
    }

    method AssignRoles(sub: string, ids: seq<nat>) returns (added: nat)
      modifies this`userRoles
      ensures userRoles == Migrated(old(userRoles), RowsOf(sub, ids))
      ensures added == |Missing(old(userRoles), RowsOf(sub, ids))|
    {
      added := 0;
      assert RowsOf(sub, ids[..0]) == {};
      for i := 0 to |ids|
        invariant userRoles == Migrated(old(userRoles), RowsOf(sub, ids[..i]))
        invariant added == |Missing(old(userRoles), RowsOf(sub, ids[..i]))|
      {
        MigrateAppend(old(userRoles), RowsOf(sub, ids[..i]), {UserRole(sub, ids[i])});
        assert RowsOf(sub, ids[..i + 1]) == RowsOf(sub, ids[..i]) + {UserRole(sub, ids[i])};
        assert Missing(userRoles, {UserRole(sub, ids[i])})
            == if UserRole(sub, ids[i]) in userRoles then {} else {UserRole(sub, ids[i])};
        var inserted := AssignRole(sub, ids[i]);
        if inserted { added := added + 1; }
      }
      assert ids[..|ids|] == ids;
    }

    /** What `run` does for one user with known roles, outside a dry run. */
    method MigrateUser(u: User, ids: seq<nat>) returns (added: nat)
      modifies this
      ensures userRoles == Migrated(old(userRoles), RowsOf(u.sub, ids))
      ensures added == |Missing(old(userRoles), RowsOf(u.sub, ids))|
      ensures platformUsers == old(platformUsers)[u.sub := u.email]
    {
      platformUsers := platformUsers[u.sub := u.email];
      added := AssignRoles(u.sub, ids);
    }

    /** `run`: the counters say what happened, and the table gains exactly the missing rows; a dry run
        writes nothing. */
    method Run(users: seq<User>, dryRun: bool) returns (stats: Stats)
      modifies this
      ensures stats.processed == |users| && stats.noCribRoles == WithoutRoles(roles, users)
      ensures dryRun ==> userRoles == old(userRoles) && platformUsers == old(platformUsers) && stats.added == 0
      ensures !dryRun ==> userRoles == Migrated(old(userRoles), Wanted(roles, users))
                          && stats.added == |userRoles| - |old(userRoles)|
      ensures !dryRun ==> platformUsers == Upserted(old(platformUsers), roles, users)
    {
      stats := Stats(0, 0, 0);
      assert users[..0] == [];
      ghost var table := userRoles;
      for i := 0 to |users|
        invariant stats.processed == i && stats.noCribRoles == WithoutRoles(roles, users[..i])
        invariant dryRun ==> userRoles == table && platformUsers == old(platformUsers) && stats.added == 0
        invariant !dryRun ==> userRoles == Migrated(table, Wanted(roles, users[..i]))
        invariant !dryRun ==> stats.added == |Missing(table, Wanted(roles, users[..i]))|
        invariant !dryRun ==> platformUsers == Upserted(old(platformUsers), roles, users[..i])
      {
        var u := users[i];
        WantedSnoc(roles, users, i);
        UpsertedSnoc(old(platformUsers), roles, users, i);
        MigrateAppend(table, Wanted(roles, users[..i]), RowsOf(u.sub, Matched(roles, u.roles)));
        stats := stats.(processed := stats.processed + 1);
        var matched := Matched(roles, u.roles);
        if matched == [] {
          stats := stats.(noCribRoles := stats.noCribRoles + 1);
          assert RowsOf(u.sub, matched) == {};
          assert Wanted(roles, users[..i + 1]) == Wanted(roles, users[..i]);
          continue;
        }
        if dryRun { continue; }
        var added := MigrateUser(u, matched);
        stats := stats.(added := stats.added + added);
      }
      assert users[..|users|] == users;
    }
  }
}
