/** Sessions do not influence each other: what a session may do, and for whom, follows from
    its own events alone. */
module SessionReplay {
  import opened Orders
  import opened Store
  import opened Logins
  import opened Servers
  import opened Replays
  import opened Runs
  import opened Answers

  /** What one event did to a session. */
  datatype Act = Opened | Closed | Claimed(user: nat) | Proved | LoggedOut

  /** What `e`, handled in `w`, does to the session `k`: nothing if it is another session's. */
  ghost function ActsOf(w: World, f: Oracle, e: Event, k: nat): seq<Act> {
    if e.Boot? then (if w.status.Lost? then [] else [Closed])
    else if !w.status.Running? || e.Remove? || e.session != k then []
    else
      match e
      case Connect(_) => [Opened]
      case Close(_) => [Closed]
      case Receive(_, m) => ActsOfMessage(w.state, f, m, k)
  }

  /** A challenge for a user who is there, unless a query fails; a right proof after a challenge; a
      logout of a session that is authenticated. */
  ghost function ActsOfMessage(s: State, f: Oracle, m: Message, k: nat): seq<Act> {
    var users, clock := s.db.users, s.db.clock;
    if m.ChallengeLogin? && UserRow(m.name, m.verifier) in users && !f(clock) && !f(clock + 1)
    then [Claimed(FindUser(users, m.name, m.verifier).GetOr(0))]
    else if m.ChallengeProof? && m.valid && k in s.challenged && s.challenged[k] then [Proved]
    else if m.Logout? && k in s.sessions && s.sessions[k].authenticated then [LoggedOut]
    else []
  }

  /** Everything that happened to the session `k` in a run. */
  ghost function Trail(f: Oracle, es: seq<Event>, k: nat): seq<Act> {
    if es == [] then []
    else Trail(f, es[..|es| - 1], k) + ActsOf(Run(f, es[..|es| - 1]), f, es[|es| - 1], k)
  }

  function Step(entry: Option<Auth>, act: Act): Option<Auth> {
    var at := entry.GetOr(Auth(false, 0));
    match act
    case Opened => Some(Auth(false, NO_USER))
    case Closed => None
    case Claimed(user) => Some(at.(user := user))
    case Proved => Some(at.(authenticated := true))
    case LoggedOut => Some(at.(authenticated := false))
  }

  /** The entry of a session to which just `acts` happened. */
  function EntryAfter(acts: seq<Act>): Option<Auth> {
    if acts == [] then None else Step(EntryAfter(acts[..|acts| - 1]), acts[|acts| - 1])
  }

  function Entry(sessions: Sessions, k: nat): Option<Auth> {
    if k in sessions then Some(sessions[k]) else None
  }

  lemma RespondReplays(w: World, f: Oracle, session: nat, m: Message, k: nat)
    requires w.status.Running?
    ensures var acts := ActsOf(w, f, Receive(session, m), k);
            Entry(Respond(w.state, f, session, m).0.sessions, k) ==
            if acts == [] then Entry(w.state.sessions, k) else Step(Entry(w.state.sessions, k), acts[0])
  {
    if m.ChallengeLogin? {
      NameTakenMeans(w.state.db.users, m.name);
    } else if !m.Logout? && !m.ChallengeProof? {
      OthersKeepSessions(w.state, f, session, m);
    }
  }

  lemma OthersKeepSessions(s: State, f: Oracle, session: nat, m: Message)
    requires !m.ChallengeLogin? && !m.ChallengeProof? && !m.Logout?
    ensures var v := Respond(s, f, session, m).0; v.sessions == s.sessions && v.challenged == s.challenged
  {
  }

  lemma HandleReplays(w: World, f: Oracle, e: Event, k: nat)
    ensures var acts := ActsOf(w, f, e, k);
            Entry(Handle(w, f, e).state.sessions, k) ==
            if acts == [] then Entry(w.state.sessions, k) else Step(Entry(w.state.sessions, k), acts[0])
    ensures |ActsOf(w, f, e, k)| <= 1
  {
    if e.Receive? && w.status.Running? {
      RespondReplays(w, f, e.session, e.message, k);
    }
  }

  /** In every run, whatever fails and however many sessions take turns, the entry of a session
      is what its own events, with the outcomes of their checks, make of it. */
  lemma {:induction false} SessionsReplay(f: Oracle, es: seq<Event>, k: nat)
    ensures Entry(Run(f, es).state.sessions, k) == EntryAfter(Trail(f, es, k))
  {
    if es == [] {
    } else {
      var before := es[..|es| - 1];
      var w, e := Run(f, before), es[|es| - 1];
      SessionsReplay(f, before, k);
      HandleReplays(w, f, e, k);
      var acts := ActsOf(w, f, e, k);
      if acts == [] {
        assert Trail(f, es, k) == Trail(f, before, k);
      } else {
        assert acts == [acts[0]];
        assert (Trail(f, before, k) + acts)[..|Trail(f, before, k)|] == Trail(f, before, k);
      }
    }
  }

  /** Only what happened since the session was last opened counts. */
  lemma {:induction false} OnlySinceOpened(past: seq<Act>, acts: seq<Act>)
    ensures EntryAfter(past + [Opened] + acts) == EntryAfter([Opened] + acts)
    decreases |acts|
  {
    var long, short := past + [Opened] + acts, [Opened] + acts;
    if acts == [] {
      assert long[|long| - 1] == Opened && short[|short| - 1] == Opened;
    } else {
      assert long[..|long| - 1] == past + [Opened] + acts[..|acts| - 1];
      assert short[..|short| - 1] == [Opened] + acts[..|acts| - 1];
      OnlySinceOpened(past, acts[..|acts| - 1]);
    }
  }

  /** The user the last challenge since the last opening was answered for. */
  function LastClaim(acts: seq<Act>): Option<nat> {
    if acts == [] then None
    else
      match acts[|acts| - 1]
      case Claimed(user) => Some(user)
      case Opened => None
      case Closed => None
      case Proved => LastClaim(acts[..|acts| - 1])
      case LoggedOut => LastClaim(acts[..|acts| - 1])
  }

  lemma {:induction false} EntryHasLastClaim(acts: seq<Act>)
    requires LastClaim(acts).Some?
    ensures EntryAfter(acts).Some? && EntryAfter(acts).value.user == LastClaim(acts).value
  {
    if acts[|acts| - 1].Claimed? {
    } else {
      EntryHasLastClaim(acts[..|acts| - 1]);
    }
  }

  /** A session can make a proof exactly when it has claimed a user since it was last opened. */
  lemma {:induction false} ChallengedHasClaim(f: Oracle, es: seq<Event>, k: nat)
    ensures Challenged(Run(f, es).state, k) <==> LastClaim(Trail(f, es, k)).Some?
    ensures k in Run(f, es).state.sessions && Run(f, es).state.sessions[k].authenticated ==>
            LastClaim(Trail(f, es, k)).Some?
  {
    if es == [] {
    } else {
      var before := es[..|es| - 1];
      var w, e := Run(f, before), es[|es| - 1];
      ChallengedHasClaim(f, before, k);
      HandleReplays(w, f, e, k);
      var acts := ActsOf(w, f, e, k);
      ClaimAppend(Trail(f, before, k), acts);
      if e.Receive? && w.status.Running? {
        ClaimKept(w, f, e.session, e.message, k);
      }
    }
  }

  lemma ClaimAppend(past: seq<Act>, acts: seq<Act>)
    requires |acts| <= 1
    ensures LastClaim(past + acts) ==
            if acts == [] || acts[0].Proved? || acts[0].LoggedOut? then LastClaim(past)
            else if acts[0].Claimed? then Some(acts[0].user)
            else None
  {
    if acts == [] {
      assert past + acts == past;
    } else {
      assert (past + acts)[..|past|] == past;
    }
  }

  lemma ClaimKept(w: World, f: Oracle, session: nat, m: Message, k: nat)
    requires w.status.Running?
    ensures var v := Respond(w.state, f, session, m).0;
            var acts := ActsOf(w, f, Receive(session, m), k);
            && (Challenged(v, k) <==> Challenged(w.state, k) || (acts != [] && acts[0].Claimed?))
            && (k in v.sessions && v.sessions[k].authenticated ==>
                  || Challenged(w.state, k)
                  || (k in w.state.sessions && w.state.sessions[k].authenticated)
                  || (acts != [] && acts[0].Claimed?))
            && (acts != [] ==> !acts[0].Opened? && !acts[0].Closed?)
  {
    if m.ChallengeLogin? {
      ChallengeAnswer(w.state, f, session, m.name, m.verifier);
    } else if m.ChallengeProof? {
      ProofAnswer(w.state, f, session, m.valid);
    } else if m.Logout? {
      LogoutAnswer(w.state, f, session);
    } else {
      OthersKeepSessions(w.state, f, session, m);
    }
  }

  /** Only a request message of an authenticated session adds a request, and it adds one. */
  lemma PlacedByItsSession(w: World, f: Oracle, session: nat, m: Message)
    requires DbOf(Handle(w, f, Receive(session, m))).placed != DbOf(w).placed
    ensures var d, e := DbOf(w), DbOf(Handle(w, f, Receive(session, m)));
            && m.MakeRequest?
            && session in w.state.sessions && w.state.sessions[session].authenticated
            && |e.placed| == |d.placed| + 1 && d.placed <= e.placed
            && e.placed[|d.placed|].user == w.state.sessions[session].user
  {
    if m.MakeRequest? {
      var made, r, d := MakeRequestOutcome(w.state, f, session, m.currency, m.amount, m.price, m.requestType);
      if made {
        PassReplays(d, f);
      }
    } else if m.Register? {
      RegisterAddsWallets(w.state, f, m.name, m.verifier);
    } else {
      LoginKeepsTables(w.state, f, session, m);
    }
  }

  /** One request more, owned by the user of the session's entry, is owned by its last claim. */
  ghost predicate OwnedByLastClaim(before: seq<Request>, after: seq<Request>, acts: seq<Act>) {
    || after == before
    || exists r: Request :: after == before + [r] && LastClaim(acts) == Some(r.user)
  }

  lemma NewRequestIsOwned(before: seq<Request>, after: seq<Request>, sessions: Sessions, k: nat, acts: seq<Act>)
    requires |after| == |before| + 1 && before <= after
    requires k in sessions && after[|before|].user == sessions[k].user
    requires LastClaim(acts).Some? && Entry(sessions, k) == EntryAfter(acts)
    ensures OwnedByLastClaim(before, after, acts)
  {
    EntryHasLastClaim(acts);
    assert after == before + [after[|before|]];
  }

  /** Who owns a request: in every run, a message that makes a request makes it for the user
      its own session last claimed, since it was opened, in a challenge that was answered. */
  lemma RequestBelongsToItsSession(f: Oracle, es: seq<Event>, session: nat, m: Message)
    ensures OwnedByLastClaim(DbOf(Run(f, es)).placed, DbOf(Handle(Run(f, es), f, Receive(session, m))).placed,
                             Trail(f, es, session))
  {
    var w := Run(f, es);
    var before, after := DbOf(w).placed, DbOf(Handle(w, f, Receive(session, m))).placed;
    if after != before {
      PlacedByItsSession(w, f, session, m);
      SessionsReplay(f, es, session);
      ChallengedHasClaim(f, es, session);
      NewRequestIsOwned(before, after, w.state.sessions, session, Trail(f, es, session));
    }
  }

  // ----- The user a session speaks for and the user it proved -----

  /** The user for whom the last proof since the last opening succeeded. */
  function LastProved(acts: seq<Act>): Option<nat> {
    if acts == [] then None
    else
      var past := acts[..|acts| - 1];
      match acts[|acts| - 1]
      case Proved => LastClaim(past)
      case Opened => None
      case Closed => None
      case Claimed(_) => LastProved(past)
      case LoggedOut => LastProved(past)
  }

  /** The user claimed since the last proof, if any: a claim takes effect before it is proved. */
  function ClaimedSinceProof(acts: seq<Act>): Option<nat> {
    if acts == [] then None
    else
      match acts[|acts| - 1]
      case Claimed(user) => Some(user)
      case Proved => None
      case Opened => None
      case Closed => None
      case LoggedOut => ClaimedSinceProof(acts[..|acts| - 1])
  }

  lemma {:induction false} ClaimIsNewOrProved(acts: seq<Act>)
    ensures LastClaim(acts) == if ClaimedSinceProof(acts).Some? then ClaimedSinceProof(acts) else LastProved(acts)
  {
    if acts == [] {
    } else {
      ClaimIsNewOrProved(acts[..|acts| - 1]);
    }
  }

  lemma {:induction false} AuthenticatedHasProof(f: Oracle, es: seq<Event>, k: nat)
    ensures k in Run(f, es).state.sessions && Run(f, es).state.sessions[k].authenticated ==>
            LastProved(Trail(f, es, k)).Some?
  {
    if es == [] {
    } else {
      var before := es[..|es| - 1];
      var w, e := Run(f, before), es[|es| - 1];
      AuthenticatedHasProof(f, before, k);
      ChallengedHasClaim(f, before, k);
      HandleReplays(w, f, e, k);
      ProofAppend(Trail(f, before, k), ActsOf(w, f, e, k));
      if e.Receive? && w.status.Running? {
        ProofKept(w, f, e.session, e.message, k);
      }
    }
  }

  lemma ProofAppend(past: seq<Act>, acts: seq<Act>)
    requires |acts| <= 1
    ensures LastProved(past + acts) ==
            if acts == [] || acts[0].Claimed? || acts[0].LoggedOut? then LastProved(past)
            else if acts[0].Proved? then LastClaim(past)
            else None
  {
    if acts == [] {
      assert past + acts == past;
    } else {
      assert (past + acts)[..|past|] == past;
    }
  }

  lemma ProofKept(w: World, f: Oracle, session: nat, m: Message, k: nat)
    requires w.status.Running?
    ensures var v := Respond(w.state, f, session, m).0;
            var acts := ActsOf(w, f, Receive(session, m), k);
            && (k in v.sessions && v.sessions[k].authenticated ==>
                  || (k in w.state.sessions && w.state.sessions[k].authenticated)
                  || (acts != [] && acts[0].Proved?))
            && (acts != [] && acts[0].Proved? ==> Challenged(w.state, k))
            && (acts != [] ==> !acts[0].Opened? && !acts[0].Closed?)
  {
  }

  /** In every run, an authenticated session has proved some user since it was opened, and the
      user it speaks for is the one it last proved if and only if it has claimed nobody else
      since: a claim on an authenticated session changes its user and not its authentication. */
  lemma SpeaksForProvedUserIff(f: Oracle, es: seq<Event>, k: nat)
    ensures var sessions, acts := Run(f, es).state.sessions, Trail(f, es, k);
            k in sessions && sessions[k].authenticated ==>
              && LastProved(acts).Some?
              && (sessions[k].user == LastProved(acts).value <==>
                    ClaimedSinceProof(acts).None? || ClaimedSinceProof(acts) == LastProved(acts))
  {
    var sessions, acts := Run(f, es).state.sessions, Trail(f, es, k);
    if k in sessions && sessions[k].authenticated {
      AuthenticatedHasProof(f, es, k);
      ChallengedHasClaim(f, es, k);
      SessionsReplay(f, es, k);
      EntryHasLastClaim(acts);
      ClaimIsNewOrProved(acts);
    }
  }

  // ----- A session that is authenticated for a user it has not proved -----

  /** Where the session 1 and the users are after the run `es`. */
  ghost predicate Stage(
    f: Oracle, es: seq<Event>, users: seq<UserRow>, entry: Auth, challenged: bool, trail: seq<Act>)
  {
    At(Run(f, es), users, entry, challenged) && Trail(f, es, 1) == trail
  }

  ghost predicate At(w: World, users: seq<UserRow>, entry: Auth, challenged: bool) {
    && w.status.Running? && DbOf(w).users == users
    && Entry(w.state.sessions, 1) == Some(entry) && Challenged(w.state, 1) == challenged
  }

  lemma OneMore(f: Oracle, es: seq<Event>, e: Event)
    ensures Run(f, es + [e]) == Handle(Run(f, es), f, e)
    ensures Trail(f, es + [e], 1) == Trail(f, es, 1) + ActsOf(Run(f, es), f, e, 1)
  {
    assert (es + [e])[..|es + [e]| - 1] == es;
  }

  lemma Starts(f: Oracle)
    requires Reliable(f)
    ensures Stage(f, [Boot, Connect(1)], [], Auth(false, NO_USER), false, [Closed, Opened])
  {
    assert [] + [Boot] == [Boot];
    OneMore(f, [], Boot);
    assert Buyers(EMPTY.requests) == {};
    assert [Boot] + [Connect(1)] == [Boot, Connect(1)];
    OneMore(f, [Boot], Connect(1));
  }

  lemma Registers(
    f: Oracle, es: seq<Event>, users: seq<UserRow>, entry: Auth, challenged: bool, trail: seq<Act>,
    name: string, verifier: string)
    requires Reliable(f) && Stage(f, es, users, entry, challenged, trail) && !NameTaken(users, name)
    ensures Stage(f, es + [Receive(1, Register(name, verifier))], users + [UserRow(name, verifier)],
                  entry, challenged, trail)
  {
    OneMore(f, es, Receive(1, Register(name, verifier)));
  }

  lemma Claims(
    f: Oracle, es: seq<Event>, users: seq<UserRow>, entry: Auth, challenged: bool, trail: seq<Act>,
    name: string, verifier: string, id: nat)
    requires Reliable(f) && Stage(f, es, users, entry, challenged, trail)
    requires NameTaken(users, name) && FindUser(users, name, verifier) == Some(id)
    ensures Stage(f, es + [Receive(1, ChallengeLogin(name, verifier))], users,
                  entry.(user := id), true, trail + [Claimed(id)])
  {
    OneMore(f, es, Receive(1, ChallengeLogin(name, verifier)));
    ClaimAnswered(Run(f, es), f, users, entry, challenged, name, verifier, id);
  }

  lemma ClaimAnswered(
    w: World, f: Oracle, users: seq<UserRow>, entry: Auth, challenged: bool,
    name: string, verifier: string, id: nat)
    requires Reliable(f) && At(w, users, entry, challenged)
    requires NameTaken(users, name) && FindUser(users, name, verifier) == Some(id)
    ensures var e := Receive(1, ChallengeLogin(name, verifier));
            At(Handle(w, f, e), users, entry.(user := id), true) && ActsOf(w, f, e, 1) == [Claimed(id)]
  {
  }

  lemma Proves(f: Oracle, es: seq<Event>, users: seq<UserRow>, entry: Auth, trail: seq<Act>)
    requires Stage(f, es, users, entry, true, trail)
    ensures Stage(f, es + [Receive(1, ChallengeProof(true))], users,
                  entry.(authenticated := true), true, trail + [Proved])
  {
    OneMore(f, es, Receive(1, ChallengeProof(true)));
  }

  lemma TwoUsers(a: UserRow, b: UserRow)
    requires a.name != b.name
    ensures !NameTaken([a], b.name) && NameTaken([a, b], a.name) && NameTaken([a, b], b.name)
    ensures FindUser([a, b], a.name, a.verifier) == Some(1) && FindUser([a, b], b.name, b.verifier) == Some(2)
  {
    assert [a, b][0] == a && [a, b][1] == b;
    assert [a, b][..1] == [a];
  }

  function TwoClaims(a: UserRow, b: UserRow): seq<Event> {
    [Boot, Connect(1),
     Receive(1, Register(a.name, a.verifier)), Receive(1, Register(b.name, b.verifier)),
     Receive(1, ChallengeLogin(a.name, a.verifier)), Receive(1, ChallengeProof(true)),
     Receive(1, ChallengeLogin(b.name, b.verifier))]
  }

  lemma OneRegisters(f: Oracle, a: UserRow, b: UserRow, es: seq<Event>)
    requires Reliable(f) && es == TwoClaims(a, b)
    ensures Stage(f, es[..3], [a], Auth(false, NO_USER), false, [Closed, Opened])
  {
    Starts(f);
    assert es[..2] == [Boot, Connect(1)] && es[..3] == es[..2] + [es[2]];
    assert [] + [a] == [a];
    Registers(f, es[..2], [], Auth(false, NO_USER), false, [Closed, Opened], a.name, a.verifier);
  }

  lemma BothRegister(f: Oracle, a: UserRow, b: UserRow, es: seq<Event>)
    requires Reliable(f) && a.name != b.name && es == TwoClaims(a, b)
    ensures Stage(f, es[..4], [a, b], Auth(false, NO_USER), false, [Closed, Opened])
  {
    TwoUsers(a, b);
    OneRegisters(f, a, b, es);
    assert es[..4] == es[..3] + [es[3]] && [a] + [b] == [a, b];
    Registers(f, es[..3], [a], Auth(false, NO_USER), false, [Closed, Opened], b.name, b.verifier);
  }

  lemma OneProves(f: Oracle, a: UserRow, b: UserRow, es: seq<Event>)
    requires Reliable(f) && a.name != b.name && es == TwoClaims(a, b)
    ensures Stage(f, es[..6], [a, b], Auth(true, 1), true, [Closed, Opened] + [Claimed(1)] + [Proved])
  {
    TwoUsers(a, b);
    BothRegister(f, a, b, es);
    assert es[..5] == es[..4] + [es[4]] && es[..6] == es[..5] + [es[5]];
    var trail := [Closed, Opened];
    Claims(f, es[..4], [a, b], Auth(false, NO_USER), false, trail, a.name, a.verifier, 1);
    Proves(f, es[..5], [a, b], Auth(false, 1), trail + [Claimed(1)]);
  }

  lemma BothClaim(f: Oracle, a: UserRow, b: UserRow, es: seq<Event>)
    requires Reliable(f) && a.name != b.name && es == TwoClaims(a, b)
    ensures Stage(f, es, [a, b], Auth(true, 2), true, [Closed, Opened] + [Claimed(1)] + [Proved] + [Claimed(2)])
  {
    TwoUsers(a, b);
    OneProves(f, a, b, es);
    assert es == es[..6] + [es[6]];
    var trail := [Closed, Opened] + [Claimed(1)] + [Proved];
    Claims(f, es[..6], [a, b], Auth(true, 1), true, trail, b.name, b.verifier, 2);
  }

  /** A run whose session has proved the user 1 and, only claiming the user 2, is authenticated
      for the user 2. */
  lemma ClaimKeepsAuthentication(f: Oracle, a: UserRow, b: UserRow)
    requires Reliable(f) && a.name != b.name
    ensures var es := TwoClaims(a, b);
            && Trail(f, es, 1) == [Closed, Opened, Claimed(1), Proved, Claimed(2)]
            && Entry(Run(f, es).state.sessions, 1) == Some(Auth(true, 2))
            && LastProved(Trail(f, es, 1)) == Some(1)
  {
    BothClaim(f, a, b, TwoClaims(a, b));
    LastProvedIsFirst([Closed, Opened] + [Claimed(1)] + [Proved] + [Claimed(2)]);
  }

  lemma LastProvedIsFirst(acts: seq<Act>)
    requires acts == [Closed, Opened] + [Claimed(1)] + [Proved] + [Claimed(2)]
    ensures acts == [Closed, Opened, Claimed(1), Proved, Claimed(2)] && LastProved(acts) == Some(1)
  {
    assert acts[..4] == [Closed, Opened, Claimed(1), Proved] && acts[..4][..3] == [Closed, Opened, Claimed(1)];
  }
}
