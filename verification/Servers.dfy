/** `Core`: what each message does to the database and the sessions. */
module Servers {
  import opened Orders
  import opened Ledger
  import opened Store
  import opened Wallets
  import opened Logins
  import opened Exchanges
  import Matching
  import Lives

  /** A decoded message.  `valid` is what the SRP-6 comparison of a proof says. */
  datatype Message =
    | MakeRequest(currency: string, amount: real, price: real, requestType: nat)
    | WalletList
    | Logout
    | Register(name: string, verifier: string)
    | ChallengeLogin(name: string, verifier: string)
    | ChallengeProof(valid: bool)
    | Other

  datatype ErrorCode = Success | AuthFailed | AuthNotFound | AuthExists | DBFailed | Restricted | ValidationError

  datatype Response =
    | Plain
    | Unknown
    | Code(code: ErrorCode)
    | Balances(wallets: seq<WalletInfo>)

  /** A message is answered, or its handling ends the process. */
  datatype Outcome = Answered(response: Response) | Gone(flow: Matching.Flow)

  /** `challenged` has the sessions of `m_srp6_sessions`, and of each whether the first step
      of the protocol has been made. */
  datatype State = State(db: Db, sessions: Sessions, challenged: map<nat, bool>)

  predicate Challenged(s: State, session: nat) {
    session in s.challenged && s.challenged[session]
  }

  ghost function Finish(s: State, flow: Matching.Flow): (State, Outcome) {
    (s, if flow.Next? || flow.Caught? then Answered(Code(Success)) else Gone(flow))
  }

  ghost function OnMakeRequest(
    s: State, f: Oracle, session: nat, currency: string, amount: real, price: real, requestType: nat)
    : (State, Outcome)
  {
    if session !in s.sessions then (s, Gone(Matching.Escaped))
    else if !s.sessions[session].authenticated then (s, Answered(Code(Restricted)))
    else if requestType != 0 && requestType != 1 then (s, Answered(Code(ValidationError)))
    else
      var (d, ok) := Lives.MakeRequest(s.db, f, s.sessions[session].user, currency, amount, price,
                                       if requestType == 0 then Buy else Sell);
      if !ok then (s.(db := d), Answered(Code(DBFailed)))
      else
        var (e, flow) := Matching.ProcessRequests(d, f);
        Finish(s.(db := e), flow)
  }

  ghost function OnWalletList(s: State, f: Oracle, session: nat): (State, Outcome) {
    if session !in s.sessions then (s, Gone(Matching.Escaped))
    else if !s.sessions[session].authenticated then (s, Answered(Code(Restricted)))
    else
      (s.(db := s.db.Tick(1)),
       Answered(if f(s.db.clock) then Code(DBFailed)
                else Balances(Infos(s.db.wallets, s.db.transactions, s.sessions[session].user))))
  }

  ghost function OnLogout(s: State, session: nat): (State, Outcome) {
    if session !in s.sessions then (s, Gone(Matching.Escaped))
    else if !s.sessions[session].authenticated then (s, Answered(Unknown))
    else (s.(sessions := s.sessions[session := s.sessions[session].(authenticated := false)]), Answered(Plain))
  }

  ghost function OnRegister(s: State, f: Oracle, name: string, verifier: string): (State, Outcome) {
    var (d, taken) := CheckName(s.db, f, name);
    if taken then (s.(db := d), Answered(Code(AuthExists)))
    else
      var (e, id) := InsertUser(d, f, name, verifier);
      if id.None? then (s.(db := e), Answered(Code(AuthFailed)))
      else
        var u := InsertWallet(e, f, id.value, "USD").0;
        (s.(db := InsertWallet(u, f, id.value, "RUB").0), Answered(Code(Success)))
  }

  ghost function OnChallengeLogin(s: State, f: Oracle, session: nat, name: string, verifier: string): (State, Outcome) {
    var (d, found) := CheckName(s.db, f, name);
    if !found then (s.(db := d), Answered(Code(AuthNotFound)))
    else
      var (e, sessions, ok) := ClaimUser(d, f, s.sessions, name, verifier, session);
      if !ok then (State(e, sessions, s.challenged), Answered(Code(AuthFailed)))
      else (State(e, sessions, s.challenged[session := true]), Answered(Code(Success)))
  }

  /** A proof can only be right on a session that has been challenged. */
  ghost function OnChallengeProof(s: State, session: nat, valid: bool): (State, Outcome) {
    var u := s.(challenged := s.challenged[session := Challenged(s, session)]);
    if valid && Challenged(s, session) then
      (u.(sessions := s.sessions[session := EntryOf(s.sessions, session).(authenticated := true)]),
       Answered(Code(Success)))
    else (u, Answered(Code(AuthFailed)))
  }

  ghost function Respond(s: State, f: Oracle, session: nat, m: Message): (State, Outcome) {
    match m
    case MakeRequest(currency, amount, price, requestType) =>
      OnMakeRequest(s, f, session, currency, amount, price, requestType)
    case WalletList => OnWalletList(s, f, session)
    case Logout => OnLogout(s, session)
    case Register(name, verifier) => OnRegister(s, f, name, verifier)
    case ChallengeLogin(name, verifier) => OnChallengeLogin(s, f, session, name, verifier)
    case ChallengeProof(valid) => OnChallengeProof(s, session, valid)
    case Other => (s, Answered(Unknown))
  }

  ghost function OnConnected(s: State, session: nat): State {
    s.(sessions := s.sessions[session := Auth(false, NO_USER)], challenged := s.challenged[session := false])
  }

  ghost function OnClosed(s: State, session: nat): State {
    s.(sessions := s.sessions - {session}, challenged := s.challenged - {session})
  }

  class Core {
    const db: Database
    const login: LoginSystem
    const wallet: Wallet
    const exchange: Exchange
    var challenged: map<nat, bool>

    constructor (db: Database)
      ensures Valid() && this.db == db && fresh(login) && Value() == State(db.View(), map[], map[])
    {
      this.db := db;
      login := new LoginSystem(db);
      wallet := new Wallet(db);
      exchange := new Exchange(db);
      challenged := map[];
    }

    predicate Valid() {
      login.db == db && wallet.db == db && exchange.db == db
    }

    function Value(): State
      reads this, db, login
    {
      State(db.View(), login.sessions, challenged)
    }

    method Start() returns (flow: Matching.Flow)
      requires Valid()
      modifies db
      ensures Value() == old(Value()).(db := Matching.ProcessRequests(old(db.View()), db.fails).0)
      ensures flow == Matching.ProcessRequests(old(db.View()), db.fails).1
    {
      flow := exchange.ProcessRequests(wallet);
    }

    method OnSessionConnected(session: nat)
      requires Valid()
      modifies this`challenged, login
      ensures Value() == OnConnected(old(Value()), session)
      ensures session in login.sessions && login.sessions[session] == Auth(false, NO_USER)
      ensures session in challenged && !challenged[session]
    {
      login.InitializeSession(session);
      challenged := challenged[session := false];
    }

    method OnSessionClosed(session: nat)
      requires Valid()
      modifies this`challenged, login
      ensures Value() == OnClosed(old(Value()), session)
    {
      login.CloseSession(session);
      challenged := challenged - {session};
    }

    method OnMessage(session: nat, m: Message) returns (outcome: Outcome)
      requires Valid()
      modifies this`challenged, login, db
      ensures (Value(), outcome) == Respond(old(Value()), db.fails, session, m)
    {
      match m
      case MakeRequest(currency, amount, price, requestType) =>
        outcome := HandleMakeRequest(session, currency, amount, price, requestType);
      case WalletList =>
        outcome := HandleWalletList(session);
      case Logout =>
        if session !in login.sessions {
          return Gone(Matching.Escaped);
        }
        if !login.sessions[session].authenticated {
          return Answered(Unknown);
        }
        login.LogoutSession(session);
        outcome := Answered(Plain);
      case Register(name, verifier) =>
        outcome := HandleRegister(name, verifier);
      case ChallengeLogin(name, verifier) =>
        outcome := HandleChallengeLogin(session, name, verifier);
      case ChallengeProof(valid) =>
        var known := session in challenged && challenged[session];
        challenged := challenged[session := known];
        if valid && known {
          login.LoginSession(session);
          outcome := Answered(Code(Success));
        } else {
          outcome := Answered(Code(AuthFailed));
        }
      case Other =>
        outcome := Answered(Unknown);
    }

    method HandleMakeRequest(session: nat, currency: string, amount: real, price: real, requestType: nat)
      returns (outcome: Outcome)
      requires Valid()
      modifies db
      ensures (Value(), outcome) ==
              OnMakeRequest(old(Value()), db.fails, session, currency, amount, price, requestType)
    {
      if session !in login.sessions {
        return Gone(Matching.Escaped);
      }
      if !login.sessions[session].authenticated {
        return Answered(Code(Restricted));
      }
      if !(requestType == 0 || requestType == 1) {
        return Answered(Code(ValidationError));
      }
      var ok := exchange.MakeRequest(login.sessions[session].user, currency, amount, price,
                                     if requestType == 0 then Buy else Sell);
      if !ok {
        return Answered(Code(DBFailed));
      }
      var flow := exchange.ProcessRequests(wallet);
      outcome := if flow.Next? || flow.Caught? then Answered(Code(Success)) else Gone(flow);
    }

    method HandleWalletList(session: nat) returns (outcome: Outcome)
      requires Valid()
      modifies db
      ensures (Value(), outcome) == OnWalletList(old(Value()), db.fails, session)
    {
      if session !in login.sessions {
        return Gone(Matching.Escaped);
      }
      if !login.sessions[session].authenticated {
        return Answered(Code(Restricted));
      }
      var infos := wallet.Wallets(login.sessions[session].user);
      outcome := Answered(if infos.None? then Code(DBFailed) else Balances(infos.value));
    }

    method HandleRegister(name: string, verifier: string) returns (outcome: Outcome)
      requires Valid()
      modifies db
      ensures (Value(), outcome) == OnRegister(old(Value()), db.fails, name, verifier)
    {
      var taken := login.Exists(name);
      if taken {
        return Answered(Code(AuthExists));
      }
      var id := login.RegisterAccount(name, verifier);
      if id.None? {
        return Answered(Code(AuthFailed));
      }
      var usd := wallet.CreateWallet(id.value, "USD");
      var rub := wallet.CreateWallet(id.value, "RUB");
      outcome := Answered(Code(Success));
    }

    method HandleChallengeLogin(session: nat, name: string, verifier: string) returns (outcome: Outcome)
      requires Valid()
      modifies this`challenged, login, db
      ensures (Value(), outcome) == OnChallengeLogin(old(Value()), db.fails, session, name, verifier)
    {
      var found := login.Exists(name);
      if !found {
        return Answered(Code(AuthNotFound));
      }
      var ok := login.LoginAccount(name, verifier, session);
      if !ok {
        return Answered(Code(AuthFailed));
      }
      challenged := challenged[session := true];
      outcome := Answered(Code(Success));
    }
  }
}
