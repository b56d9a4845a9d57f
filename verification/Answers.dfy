/** The answers tell the truth: for every message, what is answered and what has then been done. */
module Answers {
  import opened Orders
  import opened Ledger
  import opened Store
  import opened Logins
  import opened Servers
  import opened Matching
  import opened Replays
  import opened Runs
  import opened Provision
  import Lives

  ghost predicate HasName(users: seq<UserRow>, name: string) {
    exists row :: row in users && row.name == name
  }

  lemma NameTakenMeans(users: seq<UserRow>, name: string)
    ensures NameTaken(users, name) <==> HasName(users, name)
  {
  }

  // ----- Registration -----

  /** A registration adds the user, and each of the two wallets whose insertion does not fail, or
      changes no table; which of them, and the answer, follow from whether the name is there. */
  lemma RegisterAnswer(s: State, f: Oracle, session: nat, name: string, verifier: string)
    ensures var (v, outcome) := Respond(s, f, session, Register(name, verifier));
            var d, e, user := s.db, v.db, |s.db.users| + 1;
            && outcome == Answered(Code(if HasName(d.users, name) && !f(d.clock) then AuthExists
                                        else if f(d.clock + 1) then AuthFailed
                                        else Success))
            && (outcome.response != Code(Success) ==> d.Same(e))
            && (outcome.response == Code(Success) ==>
                  && e == d.(users := e.users, wallets := e.wallets, clock := e.clock)
                  && e.users == d.users + [UserRow(name, verifier)]
                  && e.wallets == d.wallets
                       + (if f(d.clock + 2) then [] else [WalletRow(user, "USD")])
                       + (if f(d.clock + 3) then [] else [WalletRow(user, "RUB")]))
            && v == s.(db := e)
  {
    NameTakenMeans(s.db.users, name);
    assert s.db.wallets + [] == s.db.wallets;
  }

  ghost predicate UniqueNames(users: seq<UserRow>) {
    forall i, j :: 0 <= i < j < |users| ==> users[i].name != users[j].name
  }

  lemma UniqueAppend(users: seq<UserRow>, row: UserRow)
    requires UniqueNames(users)
    ensures UniqueNames(users + [row]) <==> !HasName(users, row.name)
  {
    var all := users + [row];
    if HasName(users, row.name) {
      var i :| 0 <= i < |users| && users[i].name == row.name;
      assert all[i].name == all[|users|].name;
    } else {
      assert forall i :: 0 <= i < |users| ==> all[i] == users[i] && users[i] in users;
    }
  }

  /** A registration gives a name away twice exactly when the query for the name fails, which counts
      as not found, and the insertion does not. */
  lemma RegisterKeepsNamesUniqueIff(s: State, f: Oracle, session: nat, name: string, verifier: string)
    requires UniqueNames(s.db.users)
    ensures UniqueNames(Respond(s, f, session, Register(name, verifier)).0.db.users) <==>
            !(HasName(s.db.users, name) && f(s.db.clock) && !f(s.db.clock + 1))
  {
    RegisterAnswer(s, f, session, name, verifier);
    UniqueAppend(s.db.users, UserRow(name, verifier));
  }

  lemma {:induction false} NamesStayUnique(f: Oracle, es: seq<Event>)
    requires Reliable(f)
    ensures UniqueNames(DbOf(Run(f, es)).users)
  {
    if es == [] {
    } else {
      var w, e := Run(f, es[..|es| - 1]), es[|es| - 1];
      NamesStayUnique(f, es[..|es| - 1]);
      if e.Receive? && e.message.Register? {
        RegisterKeepsNamesUniqueIff(w.state, f, e.session, e.message.name, e.message.verifier);
      } else {
        OthersKeepWallets(w, f, e);
      }
    }
  }

  // ----- Login -----

  /** A challenge makes the session speak for the first user with the name and verifier; if the
      name is not found, or there is no such user, it changes nothing. */
  lemma ChallengeAnswer(s: State, f: Oracle, session: nat, name: string, verifier: string)
    ensures var (v, outcome) := Respond(s, f, session, ChallengeLogin(name, verifier));
            var users, clock := s.db.users, s.db.clock;
            && outcome == Answered(Code(if f(clock) || !HasName(users, name) then AuthNotFound
                                        else if f(clock + 1) || UserRow(name, verifier) !in users then AuthFailed
                                        else Success))
            && s.db.Same(v.db)
            && (outcome.response != Code(Success) ==> v == s.(db := v.db))
            && (outcome.response == Code(Success) ==>
                  && v == s.(db := v.db, sessions := v.sessions, challenged := s.challenged[session := true])
                  && session in v.sessions && v.sessions - {session} == s.sessions - {session}
                  && var entry := v.sessions[session];
                     && entry.authenticated == (session in s.sessions && s.sessions[session].authenticated)
                     && 1 <= entry.user <= |users| && users[entry.user - 1] == UserRow(name, verifier)
                     && UserRow(name, verifier) !in users[..entry.user - 1])
  {
    NameTakenMeans(s.db.users, name);
  }

  /** A proof authenticates the session, for the user it speaks for, exactly when it is right and
      the session has been challenged; otherwise it changes no session. */
  lemma ProofAnswer(s: State, f: Oracle, session: nat, valid: bool)
    ensures var (v, outcome) := Respond(s, f, session, ChallengeProof(valid));
            var right := valid && session in s.challenged && s.challenged[session];
            && outcome == Answered(Code(if right then Success else AuthFailed))
            && v.db == s.db && (forall k :: Challenged(v, k) <==> Challenged(s, k))
            && v.sessions == (if !right then s.sessions
                              else s.sessions[session := EntryOf(s.sessions, session).(authenticated := true)])
  {
  }

  /** A logout ends the authentication of the session and keeps its user; one of a session that is
      not authenticated is not a known message, and one of a session that is not there throws. */
  lemma LogoutAnswer(s: State, f: Oracle, session: nat)
    ensures var (v, outcome) := Respond(s, f, session, Logout);
            if session !in s.sessions then v == s && outcome == Gone(Escaped)
            else
              && outcome == Answered(if s.sessions[session].authenticated then Plain else Unknown)
              && v == s.(sessions := s.sessions[session := Auth(false, s.sessions[session].user)])
  {
    if session in s.sessions && !s.sessions[session].authenticated {
      assert s.sessions[session := s.sessions[session]] == s.sessions;
    }
  }

  // ----- Wallets and requests -----

  /** An authenticated session is answered with its user's wallets unless reading them fails. */
  lemma WalletListAnswer(s: State, f: Oracle, session: nat)
    requires session in s.sessions
    ensures var (v, outcome) := Respond(s, f, session, WalletList);
            && s.db.Same(v.db) && v == s.(db := v.db) && outcome.Answered?
            && if !s.sessions[session].authenticated then outcome.response == Code(Restricted)
               else if f(s.db.clock) then outcome.response == Code(DBFailed)
               else outcome.response.Balances?
                    && ListsWallets(outcome.response.wallets, s.db.wallets, s.db.transactions, s.sessions[session].user)
  {
    InfosListWallets(s.db.wallets, s.db.transactions, s.sessions[session].user);
  }

  /** A request message that is answered is answered Success exactly when it has made a request,
      which is then its own; any other answer says why not, and no table has changed. */
  lemma MakeRequestAnswer(
    s: State, f: Oracle, session: nat, currency: string, amount: real, price: real, requestType: nat)
    requires session in s.sessions
    ensures var (v, outcome) := Respond(s, f, session, MakeRequest(currency, amount, price, requestType));
            var entry, n := s.sessions[session], |s.db.placed|;
            var made := entry.authenticated && requestType <= 1 && !f(s.db.clock);
            var r := Request(entry.user, currency, amount, price, if requestType == 0 then Buy else Sell, n);
            && v == s.(db := v.db)
            && v.db.placed == s.db.placed + (if made then [r] else [])
            && (!made ==> s.db.Same(v.db))
            && (outcome.Answered? ==>
                  outcome.response == Code(if made then Success
                                           else if !entry.authenticated then Restricted
                                           else if requestType > 1 then ValidationError
                                           else DBFailed))
            && (outcome.Gone? ==> made && !outcome.flow.Next? && !outcome.flow.Caught?)
  {
    if s.sessions[session].authenticated && requestType <= 1 && !f(s.db.clock) {
      var side := if requestType == 0 then Buy else Sell;
      var d := Lives.MakeRequest(s.db, f, s.sessions[session].user, currency, amount, price, side).0;
      PassReplays(d, f);
    }
  }

  /** Unknown is the answer to what is not a message, and to a logout of a session that is there and
      not authenticated, and to nothing else. */
  lemma UnknownAnswerIff(s: State, f: Oracle, session: nat, m: Message)
    ensures Respond(s, f, session, m).1 == Answered(Unknown) <==>
            m.Other? || (m.Logout? && session in s.sessions && !s.sessions[session].authenticated)
    ensures m.Other? ==> Respond(s, f, session, m).0 == s
  {
  }

  // ----- The server goes on -----

  /** A pass that ends in an SQLite::Exception leaves the server running. */
  ghost predicate KeptBy(flow: Flow, status: Status) {
    match flow
    case Next => status == Running
    case Caught => status == Running
    case Escaped => status == Stopped
    case Undefined => status == Lost
  }

  /** A message from a session that is not there, if it asks for the session, stops a running server;
      one that makes a request does with it what the pass does; and no other changes anything. */
  lemma MessageKeepsServer(w: World, f: Oracle, session: nat, m: Message)
    requires w.status.Running?
    ensures var v := Handle(w, f, Receive(session, m));
            if session !in w.state.sessions && (m.MakeRequest? || m.WalletList? || m.Logout?)
            then v == w.(status := Stopped)
            else if m.MakeRequest? && DbOf(v).placed != DbOf(w).placed
            then var d := Lives.MakeRequest(DbOf(w), f, w.state.sessions[session].user, m.currency, m.amount,
                                            m.price, if m.requestType == 0 then Buy else Sell).0;
                 DbOf(v) == ProcessRequests(d, f).0 && KeptBy(ProcessRequests(d, f).1, v.status)
            else v.status.Running?
  {
    if m.MakeRequest? && session in w.state.sessions {
      MakeRequestAnswer(w.state, f, session, m.currency, m.amount, m.price, m.requestType);
      var made, r, d := MakeRequestOutcome(w.state, f, session, m.currency, m.amount, m.price, m.requestType);
    }
  }

  /** Starting runs a pass on the tables as they are, which decides whether the server runs; when the
      query for the buy requests fails, it runs and nothing has changed. */
  lemma BootRunsAPass(w: World, f: Oracle)
    requires !w.status.Lost?
    ensures var v := Handle(w, f, Boot);
            && DbOf(v) == ProcessRequests(DbOf(w), f).0 && KeptBy(ProcessRequests(DbOf(w), f).1, v.status)
            && (f(DbOf(w).clock) ==> DbOf(w).Same(DbOf(v)) && v.status.Running?)
  {
  }
}
