/** What a session had to send to be authenticated, told by its messages alone. */
module Authentication {
  import opened Store
  import opened Servers
  import opened Runs
  import opened Provision
  import opened Answers
  import opened SessionReplay

  /** The event opens or closes the session `k`. */
  predicate Reopens(e: Event, k: nat) {
    e.Boot? || e == Connect(k) || e == Close(k)
  }

  /** The session `k` of a running server is authenticated. */
  ghost predicate Authenticated(w: World, k: nat) {
    w.status.Running? && k in w.state.sessions && w.state.sessions[k].authenticated
  }

  /** Only a right proof, sent on that session, authenticates it; reopening and logging out end it. */
  lemma OnlyAProofAuthenticates(w: World, f: Oracle, e: Event, k: nat)
    ensures Authenticated(Handle(w, f, e), k) ==>
              || e == Receive(k, ChallengeProof(true))
              || (Authenticated(w, k) && !Reopens(e, k) && e != Receive(k, Logout))
  {
    HandleReplays(w, f, e, k);
  }

  /** The i-th event is a right proof on `k`, and none after it reopens the session or logs it out. */
  ghost predicate ProvedAt(es: seq<Event>, k: nat, i: nat) {
    && i < |es| && es[i] == Receive(k, ChallengeProof(true))
    && forall j :: i < j < |es| ==> !Reopens(es[j], k) && es[j] != Receive(k, Logout)
  }

  /** In every run, whatever fails, an authenticated session has sent a right proof since it was
      opened, and has not been logged out since. */
  lemma {:induction false} AuthenticatedByAProof(f: Oracle, es: seq<Event>, k: nat)
    ensures Authenticated(Run(f, es), k) ==> exists i :: ProvedAt(es, k, i)
  {
    if es != [] && Authenticated(Run(f, es), k) {
      var before, e := es[..|es| - 1], es[|es| - 1];
      OnlyAProofAuthenticates(Run(f, before), f, e, k);
      if e == Receive(k, ChallengeProof(true)) {
        assert ProvedAt(es, k, |es| - 1);
      } else {
        AuthenticatedByAProof(f, before, k);
        var i :| ProvedAt(before, k, i);
        assert ProvedAt(es, k, i);
      }
    }
  }

  /** The i-th event is a challenge on `k` for the user whose id is `user`, and none after it reopens
      the session. */
  ghost predicate ClaimedAt(es: seq<Event>, k: nat, i: nat, users: seq<UserRow>, user: nat) {
    && 1 <= user <= |users|
    && i < |es| && es[i] == Receive(k, ChallengeLogin(users[user - 1].name, users[user - 1].verifier))
    && forall j :: i < j < |es| ==> !Reopens(es[j], k)
  }

  /** The user of a session that has been challenged. */
  ghost predicate SpeaksFor(w: World, k: nat, user: nat) {
    && w.status.Running? && Challenged(w.state, k)
    && k in w.state.sessions && w.state.sessions[k].user == user
  }

  lemma UsersAreKept(w: World, f: Oracle, e: Event)
    ensures DbOf(w).users <= DbOf(Handle(w, f, e)).users
  {
    if e.Receive? && e.message.Register? {
      RegisterAnswer(w.state, f, e.session, e.message.name, e.message.verifier);
    } else {
      OthersKeepWallets(w, f, e);
    }
  }

  /** Only a challenge for a user makes a session speak for him. */
  lemma OnlyAChallengeClaims(w: World, f: Oracle, e: Event, k: nat, user: nat)
    requires SpeaksFor(Handle(w, f, e), k, user) && (Challenged(w.state, k) ==> k in w.state.sessions)
    ensures || (SpeaksFor(w, k, user) && !Reopens(e, k))
            || (var users := DbOf(w).users;
                1 <= user <= |users|
                && e == Receive(k, ChallengeLogin(users[user - 1].name, users[user - 1].verifier)))
  {
    HandleReplays(w, f, e, k);
    if e.Receive? && w.status.Running? {
      ClaimKept(w, f, e.session, e.message, k);
    }
  }

  lemma ChallengedIsThere(f: Oracle, es: seq<Event>, k: nat)
    ensures Challenged(Run(f, es).state, k) ==> k in Run(f, es).state.sessions
  {
    if Challenged(Run(f, es).state, k) {
      ChallengedHasClaim(f, es, k);
      SessionsReplay(f, es, k);
      EntryHasLastClaim(Trail(f, es, k));
    }
  }

  lemma ClaimedBefore(
    es: seq<Event>, before: seq<Event>, k: nat, i: nat, users: seq<UserRow>, more: seq<UserRow>, user: nat)
    requires es != [] && before == es[..|es| - 1] && !Reopens(es[|es| - 1], k)
    requires ClaimedAt(before, k, i, users, user) && users <= more
    ensures ClaimedAt(es, k, i, more, user)
  {
    assert more[user - 1] == users[user - 1];
    assert forall j :: 0 <= j < |before| ==> es[j] == before[j];
  }

  lemma ClaimedLast(es: seq<Event>, k: nat, users: seq<UserRow>, more: seq<UserRow>, user: nat)
    requires es != [] && 1 <= user <= |users| && users <= more
    requires es[|es| - 1] == Receive(k, ChallengeLogin(users[user - 1].name, users[user - 1].verifier))
    ensures ClaimedAt(es, k, |es| - 1, more, user)
  {
    assert more[user - 1] == users[user - 1];
  }

  lemma {:induction false} SpeaksForAChallenged(f: Oracle, es: seq<Event>, k: nat, user: nat) returns (i: nat)
    requires SpeaksFor(Run(f, es), k, user)
    ensures ClaimedAt(es, k, i, DbOf(Run(f, es)).users, user)
  {
    var before, e := es[..|es| - 1], es[|es| - 1];
    var w := Run(f, before);
    ChallengedIsThere(f, before, k);
    OnlyAChallengeClaims(w, f, e, k, user);
    UsersAreKept(w, f, e);
    if SpeaksFor(w, k, user) && !Reopens(e, k) {
      i := SpeaksForAChallenged(f, before, k, user);
      ClaimedBefore(es, before, k, i, DbOf(w).users, DbOf(Run(f, es)).users, user);
    } else {
      i := |es| - 1;
      ClaimedLast(es, k, DbOf(w).users, DbOf(Run(f, es)).users, user);
    }
  }

  /** In every run, whatever fails, the user of an authenticated session is a registered one whose
      name and verifier that session has sent in a challenge since it was opened. */
  lemma AuthenticatedForAChallenged(f: Oracle, es: seq<Event>, k: nat)
    ensures var w := Run(f, es);
            Authenticated(w, k) ==> exists i :: ClaimedAt(es, k, i, DbOf(w).users, w.state.sessions[k].user)
  {
    var w := Run(f, es);
    if Authenticated(w, k) {
      ChallengedHasClaim(f, es, k);
      var i := SpeaksForAChallenged(f, es, k, w.state.sessions[k].user);
    }
  }
}
