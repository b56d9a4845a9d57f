/** `modules::LoginSystem`: registered users, and for each session whether it is
    authenticated and which user it speaks for. */
module Logins {
  import opened Orders
  import opened Store

  /** numeric_limits<uint64_t>::max(), what a new session has for a user id. */
  const NO_USER: nat := 0xFFFF_FFFF_FFFF_FFFF

  datatype Auth = Auth(authenticated: bool, user: nat)

  type Sessions = map<nat, Auth>

  /** operator[] of the map: a missing entry is made of zeros. */
  function EntryOf(sessions: Sessions, session: nat): Auth {
    if session in sessions then sessions[session] else Auth(false, 0)
  }

  predicate NameTaken(users: seq<UserRow>, name: string) {
    exists i :: 0 <= i < |users| && users[i].name == name
  }

  /** The first row of SELECT id FROM users WHERE user_name = ? and v = ?. */
  function FindUser(users: seq<UserRow>, name: string, verifier: string): (id: Option<nat>)
    ensures id.Some? ==> 1 <= id.value <= |users| && users[id.value - 1] == UserRow(name, verifier)
                         && UserRow(name, verifier) !in users[..id.value - 1]
    ensures id.None? ==> UserRow(name, verifier) !in users
  {
    if users == [] then None
    else
      var n := |users| - 1;
      var r := FindUser(users[..n], name, verifier);
      assert users == users[..n] + [users[n]];
      if r.Some? then (assert users[..n][..r.value - 1] == users[..r.value - 1]; r)
      else if users[n] == UserRow(name, verifier) then Some(n + 1)
      else None
  }

  ghost function CheckName(d: Db, f: Oracle, name: string): (Db, bool) {
    (d.Tick(1), !f(d.clock) && NameTaken(d.users, name))
  }

  ghost function ClaimUser(d: Db, f: Oracle, sessions: Sessions, name: string, verifier: string, session: nat)
    : (Db, Sessions, bool)
  {
    var id := FindUser(d.users, name, verifier);
    if f(d.clock) || id.None? then (d.Tick(1), sessions, false)
    else (d.Tick(1), sessions[session := EntryOf(sessions, session).(user := id.value)], true)
  }

  ghost function InsertUser(d: Db, f: Oracle, name: string, verifier: string): (Db, Option<nat>) {
    if f(d.clock) then (d.Tick(1), None)
    else (d.Tick(1).(users := d.users + [UserRow(name, verifier)]), Some(|d.users| + 1))
  }

  class LoginSystem {
    const db: Database
    var sessions: Sessions

    constructor (db: Database)
      ensures this.db == db && sessions == map[]
    {
      this.db := db;
      sessions := map[];
    }

    method Exists(name: string) returns (found: bool)
      modifies db
      ensures (db.View(), found) == CheckName(old(db.View()), db.fails, name)
      ensures db.users == old(db.users)
      ensures found <==> !db.fails(old(db.clock)) && exists row :: row in db.users && row.name == name
    {
      var ok := db.Attempt();
      if !ok {
        return false;
      }
      found := false;
      for i := 0 to |db.users|
        invariant !found && forall j :: 0 <= j < i ==> db.users[j].name != name
      {
        if db.users[i].name == name {
          return true;
        }
      }
    }

    method LoginAccount(name: string, verifier: string, session: nat) returns (ok: bool)
      modifies db, this
      ensures (db.View(), sessions, ok) ==
              ClaimUser(old(db.View()), db.fails, old(sessions), name, verifier, session)
    {
      ok := db.Attempt();
      if !ok {
        return;
      }
      var i := 0;
      while i < |db.users|
        invariant 0 <= i <= |db.users|
        invariant FindUser(db.users[..i], name, verifier).None?
        invariant db.View() == old(db.View()).Tick(1) && sessions == old(sessions)
      {
        assert db.users[..i + 1][..i] == db.users[..i];
        if db.users[i] == UserRow(name, verifier) {
          FindUserStable(db.users[..i + 1], db.users, name, verifier);
          sessions := sessions[session := EntryOf(sessions, session).(user := i + 1)];
          return;
        }
        i := i + 1;
      }
      assert db.users[..|db.users|] == db.users;
      ok := false;
    }

    /** The new user's id, or none when the insertion fails. */
    method RegisterAccount(name: string, verifier: string) returns (id: Option<nat>)
      modifies db
      ensures (db.View(), id) == InsertUser(old(db.View()), db.fails, name, verifier)
      ensures id.None? <==> db.fails(old(db.clock))
      ensures id.Some? ==> db.users == old(db.users) + [UserRow(name, verifier)] && id.value == |db.users|
    {
      var ok := db.Attempt();
      if !ok {
        return None;
      }
      db.users := db.users + [UserRow(name, verifier)];
      id := Some(|db.users|);
    }

    method LoginSession(session: nat)
      modifies this
      ensures sessions == old(sessions)[session := EntryOf(old(sessions), session).(authenticated := true)]
    {
      sessions := sessions[session := EntryOf(sessions, session).(authenticated := true)];
    }

    method InitializeSession(session: nat)
      modifies this
      ensures sessions == old(sessions)[session := Auth(false, NO_USER)]
    {
      sessions := sessions[session := Auth(false, NO_USER)];
    }

    method LogoutSession(session: nat)
      modifies this
      ensures sessions == old(sessions)[session := EntryOf(old(sessions), session).(authenticated := false)]
    {
      sessions := sessions[session := EntryOf(sessions, session).(authenticated := false)];
    }

    method CloseSession(session: nat)
      modifies this
      ensures sessions == old(sessions) - {session}
    {
      sessions := sessions - {session};
    }
  }

  /** Later users do not change who is found. */
  lemma {:induction false} FindUserStable(users: seq<UserRow>, more: seq<UserRow>, name: string, verifier: string)
    requires users <= more && FindUser(users, name, verifier).Some?
    ensures FindUser(more, name, verifier) == FindUser(users, name, verifier)
    decreases |more|
  {
    if |more| == |users| {
      assert more == users;
    } else {
      FindUserStable(users, more[..|more| - 1], name, verifier);
    }
  }
}
