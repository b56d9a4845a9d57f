/** Runs for the one pair that users have wallets for never reach undefined behaviour. */
module Provision {
  import opened Orders
  import opened Pairs
  import opened Trades
  import opened Ledger
  import opened Store
  import Logins
  import opened Servers
  import opened Lives
  import opened Matching
  import opened Replays
  import opened FailureFree
  import opened Runs

  predicate Registered(d: Db, user: nat) {
    1 <= user <= |d.users|
  }

  /** Every user has both wallets. */
  ghost predicate UsersEquipped(users: nat, w: seq<WalletRow>) {
    forall u :: 1 <= u <= users ==> FirstWallet(w, u, "USD").Some? && FirstWallet(w, u, "RUB").Some?
  }

  /** Every live request is a user's and for the pair of those wallets. */
  ghost predicate RequestsOwned(users: nat, t: Table) {
    forall id :: id in t ==> t[id].currency == USD_RUB && 1 <= t[id].user <= users
  }

  /** Every session that may make requests, or needs only a proof to, speaks for a user. */
  ghost predicate SessionsOwned(s: State) {
    && (forall k :: k in s.sessions && s.sessions[k].authenticated ==> Registered(s.db, s.sessions[k].user))
    && (forall k :: Challenged(s, k) ==> k in s.sessions && Registered(s.db, s.sessions[k].user))
  }

  ghost predicate WellFormed(s: State) {
    UsersEquipped(|s.db.users|, s.db.wallets) && RequestsOwned(|s.db.users|, s.db.requests) && SessionsOwned(s)
  }

  lemma OwnedIsProvisioned(users: nat, w: seq<WalletRow>, t: Table)
    requires UsersEquipped(users, w) && RequestsOwned(users, t)
    ensures Provisioned(w, t)
  {
    UsdRub();
  }

  /** The pair is the one users have wallets for; and when a registration's user is inserted,
      so are its two wallets. */
  ghost predicate Proper(w: World, f: Oracle, e: Event) {
    e.Receive? ==>
      && (e.message.MakeRequest? ==> e.message.currency == USD_RUB)
      && (e.message.Register? ==> WalletsFollow(DbOf(w).clock, f))
  }

  ghost predicate WalletsFollow(clock: nat, f: Oracle) {
    f(clock + 1) || (!f(clock + 2) && !f(clock + 3))
  }

  ghost predicate ProperRun(f: Oracle, es: seq<Event>) {
    es == [] || (ProperRun(f, es[..|es| - 1]) && Proper(Run(f, es[..|es| - 1]), f, es[|es| - 1]))
  }

  lemma PassKeepsOwned(d: Db, f: Oracle)
    requires UsersEquipped(|d.users|, d.wallets) && RequestsOwned(|d.users|, d.requests)
    ensures var (e, flow) := ProcessRequests(d, f);
            && !flow.Undefined?
            && e.users == d.users && e.wallets == d.wallets && RequestsOwned(|e.users|, e.requests)
  {
    OwnedIsProvisioned(|d.users|, d.wallets, d.requests);
    PassIsDefined(d, f);
    PassReplays(d, f);
    ReplayShrinks(d.requests, Committed(d, f));
  }

  lemma BootKeepsWellFormed(w: World, f: Oracle)
    requires WellFormed(w.state) && !w.status.Lost?
    ensures WellFormed(Handle(w, f, Boot).state) && !Handle(w, f, Boot).status.Lost?
  {
    PassKeepsOwned(DbOf(w), f);
    var (d, flow) := ProcessRequests(DbOf(w), f);
    assert flow.Next? || flow.Caught? || flow.Escaped?;
    assert Handle(w, f, Boot) == World(State(d, map[], map[]), StatusAfter(flow));
  }

  lemma MakeRequestKeepsWellFormed(
    s: State, f: Oracle, session: nat, currency: string, amount: real, price: real, requestType: nat)
    requires WellFormed(s) && currency == USD_RUB
    ensures var (v, outcome) := OnMakeRequest(s, f, session, currency, amount, price, requestType);
            WellFormed(v) && !(outcome.Gone? && outcome.flow.Undefined?)
  {
    var made, r, d := MakeRequestOutcome(s, f, session, currency, amount, price, requestType);
    if made {
      assert RequestsOwned(|d.users|, d.requests);
      PassKeepsOwned(d, f);
    }
  }

  lemma RegisterAddsUser(s: State, f: Oracle, name: string, verifier: string)
    requires WalletsFollow(s.db.clock, f)
    ensures var v, u := OnRegister(s, f, name, verifier).0, |s.db.users| + 1;
            && v.sessions == s.sessions && v.challenged == s.challenged
            && ((v.db.users == s.db.users && v.db.wallets == s.db.wallets)
                || (|v.db.users| == u && v.db.wallets == s.db.wallets + [WalletRow(u, "USD"), WalletRow(u, "RUB")]))
  {
  }

  lemma RegisterKeepsWellFormed(s: State, f: Oracle, name: string, verifier: string)
    requires WellFormed(s) && WalletsFollow(s.db.clock, f)
    ensures WellFormed(OnRegister(s, f, name, verifier).0)
  {
    RegisterAddsWallets(s, f, name, verifier);
    RegisterAddsUser(s, f, name, verifier);
    NewUserIsEquipped(|s.db.users|, s.db.wallets);
  }

  lemma NewUserIsEquipped(users: nat, w: seq<WalletRow>)
    requires UsersEquipped(users, w)
    ensures UsersEquipped(users + 1, w + [WalletRow(users + 1, "USD"), WalletRow(users + 1, "RUB")])
  {
    var v := w + [WalletRow(users + 1, "USD"), WalletRow(users + 1, "RUB")];
    assert v[|w|] == WalletRow(users + 1, "USD") && v[|w| + 1] == WalletRow(users + 1, "RUB");
    forall u | 1 <= u <= users + 1 ensures FirstWallet(v, u, "USD").Some? && FirstWallet(v, u, "RUB").Some? {
      if u <= users {
        FirstWalletStable(w, v, u, "USD");
        FirstWalletStable(w, v, u, "RUB");
      }
    }
  }

  lemma ChallengeKeepsOwned(s: State, f: Oracle, session: nat, name: string, verifier: string)
    requires SessionsOwned(s)
    ensures SessionsOwned(OnChallengeLogin(s, f, session, name, verifier).0)
  {
  }

  lemma LoginKeepsWellFormed(s: State, f: Oracle, session: nat, m: Message)
    requires WellFormed(s) && (m.ChallengeLogin? || m.ChallengeProof? || m.Logout? || m.WalletList? || m.Other?)
    ensures var (v, outcome) := Respond(s, f, session, m);
            WellFormed(v) && !(outcome.Gone? && outcome.flow.Undefined?)
  {
    LoginKeepsTables(s, f, session, m);
    if m.ChallengeLogin? {
      ChallengeKeepsOwned(s, f, session, m.name, m.verifier);
    }
  }

  lemma ReceiveKeepsWellFormed(w: World, f: Oracle, session: nat, m: Message)
    requires WellFormed(w.state) && Proper(w, f, Receive(session, m)) && !w.status.Lost?
    ensures WellFormed(Handle(w, f, Receive(session, m)).state)
    ensures !Handle(w, f, Receive(session, m)).status.Lost?
  {
    if m.MakeRequest? {
      MakeRequestKeepsWellFormed(w.state, f, session, m.currency, m.amount, m.price, m.requestType);
    } else if m.Register? {
      RegisterKeepsWellFormed(w.state, f, m.name, m.verifier);
    } else {
      LoginKeepsWellFormed(w.state, f, session, m);
    }
  }

  /** If every request is for the one pair and no registration loses a wallet, then in every
      run, whatever else fails, every user, session and live request is in order, and no pass
      ever looks for a wallet that is not there. */
  lemma {:induction false} RunIsDefined(f: Oracle, es: seq<Event>)
    requires ProperRun(f, es)
    ensures WellFormed(Run(f, es).state) && !Run(f, es).status.Lost?
  {
    if es == [] {
    } else {
      var w, e := Run(f, es[..|es| - 1]), es[|es| - 1];
      RunIsDefined(f, es[..|es| - 1]);
      match e
      case Boot => BootKeepsWellFormed(w, f);
      case Receive(session, message) => ReceiveKeepsWellFormed(w, f, session, message);
      case Connect(session) =>
      case Close(session) =>
      case Remove(id) =>
    }
  }

  // ----- One wallet per user and currency -----

  /** No user has two wallets in one currency, and every wallet is a user's. */
  ghost predicate WalletsUnique(d: Db) {
    && (forall i, j :: 0 <= i < j < |d.wallets| ==> d.wallets[i] != d.wallets[j])
    && (forall i :: 0 <= i < |d.wallets| ==> Registered(d, d.wallets[i].user))
  }

  lemma RegisterOutcome(s: State, f: Oracle, name: string, verifier: string) returns (more: seq<WalletRow>)
    ensures var d, u := OnRegister(s, f, name, verifier).0.db, |s.db.users| + 1;
            var usd, rub := WalletRow(u, "USD"), WalletRow(u, "RUB");
            && s.db.users <= d.users && (more != [] ==> |d.users| == u)
            && d.wallets == s.db.wallets + more
            && (more == [] || more == [usd] || more == [rub] || more == [usd, rub])
  {
    var u, clock := |s.db.users| + 1, s.db.clock;
    var usd, rub := WalletRow(u, "USD"), WalletRow(u, "RUB");
    var inserted := !Logins.CheckName(s.db, f, name).1 && !f(clock + 1);
    more := if !inserted then [] else if f(clock + 2) then if f(clock + 3) then [] else [rub]
            else if f(clock + 3) then [usd] else [usd, rub];
    Associative(s.db.wallets, [usd], [rub]);
    assert [usd] + [rub] == [usd, rub];
  }

  /** Whatever fails, a registration adds wallets for the new user alone, and no two alike. */
  lemma RegisterAddsOwnWallets(s: State, f: Oracle, name: string, verifier: string)
    ensures var d, n := OnRegister(s, f, name, verifier).0.db, |s.db.wallets|;
            && s.db.users <= d.users && s.db.wallets <= d.wallets
            && (forall i :: n <= i < |d.wallets| ==> d.wallets[i].user == |s.db.users| + 1 == |d.users|)
            && (forall i, j :: n <= i < j < |d.wallets| ==> d.wallets[i] != d.wallets[j])
  {
    var more := RegisterOutcome(s, f, name, verifier);
    assert "USD"[0] != "RUB"[0];
  }

  lemma RegisterKeepsUnique(s: State, f: Oracle, name: string, verifier: string)
    requires WalletsUnique(s.db)
    ensures WalletsUnique(OnRegister(s, f, name, verifier).0.db)
  {
    var d := OnRegister(s, f, name, verifier).0.db;
    RegisterAddsOwnWallets(s, f, name, verifier);
    assert forall i :: 0 <= i < |s.db.wallets| ==> d.wallets[i] == s.db.wallets[i];
  }

  lemma OthersKeepWallets(w: World, f: Oracle, e: Event)
    requires !(e.Receive? && e.message.Register?)
    ensures var d := DbOf(Handle(w, f, e)); d.wallets == DbOf(w).wallets && d.users == DbOf(w).users
  {
    if e.Boot? {
      PassReplays(DbOf(w), f);
    } else if e.Receive? && e.message.MakeRequest? {
      if e.session in w.state.sessions {
        var m, side := e.message, if e.message.requestType == 0 then Buy else Sell;
        PassReplays(Lives.MakeRequest(
          DbOf(w), f, w.state.sessions[e.session].user, m.currency, m.amount, m.price, side).0, f);
      }
    } else if e.Receive? {
      LoginKeepsTables(w.state, f, e.session, e.message);
    }
  }

  lemma {:induction false} WalletsStayUnique(f: Oracle, es: seq<Event>)
    ensures WalletsUnique(DbOf(Run(f, es)))
  {
    if es == [] {
    } else {
      var w, e := Run(f, es[..|es| - 1]), es[|es| - 1];
      WalletsStayUnique(f, es[..|es| - 1]);
      if e.Receive? && e.message.Register? {
        RegisterKeepsUnique(w.state, f, e.message.name, e.message.verifier);
      } else {
        OthersKeepWallets(w, f, e);
      }
    }
  }

  lemma BalanceOfUniqueWallet(d: Db, wallet: nat)
    requires WalletsUnique(d) && LedgerSound(d) && 1 <= wallet <= |d.wallets|
    ensures var row := d.wallets[wallet - 1];
            && (forall i :: 0 <= i < |d.wallets| && d.wallets[i] == row ==> i == wallet - 1)
            && AllPairs(d.trades)
            && Balance(d.transactions, wallet) == Position(d.trades, row.user, row.currency)
  {
    var row := d.wallets[wallet - 1];
    forall i | 0 <= i < |d.wallets| && d.wallets[i] == row ensures i == wallet - 1 {
      assert !(i < wallet - 1) && !(wallet - 1 < i);
    }
    assert FirstWallet(d.wallets, row.user, row.currency) == Some(wallet);
    BalanceIsPosition(d.wallets, d.trades, wallet);
  }

  /** In every run, with whatever failures, no user has two wallets in one currency, and the
      balance of every wallet is its owner's position over all trades. */
  lemma EveryBalanceIsAPosition(f: Oracle, es: seq<Event>, wallet: nat)
    requires 1 <= wallet <= |DbOf(Run(f, es)).wallets|
    ensures var d := DbOf(Run(f, es));
            var row := d.wallets[wallet - 1];
            && (forall i :: 0 <= i < |d.wallets| && d.wallets[i] == row ==> i == wallet - 1)
            && AllPairs(d.trades)
            && Balance(d.transactions, wallet) == Position(d.trades, row.user, row.currency)
  {
    RunIsSound(f, es);
    WalletsStayUnique(f, es);
    BalanceOfUniqueWallet(DbOf(Run(f, es)), wallet);
  }

  lemma InfoIsPosition(d: Db, info: WalletInfo, user: nat)
    requires WalletsUnique(d) && LedgerSound(d) && IsInfo(info, d.wallets, d.transactions, user)
    ensures info.amount == Position(d.trades, user, info.currency)
  {
    BalanceOfUniqueWallet(d, info.id);
  }

  lemma InfosArePositions(d: Db, user: nat)
    requires WalletsUnique(d) && LedgerSound(d)
    ensures var infos := Infos(d.wallets, d.transactions, user);
            && ListsWallets(infos, d.wallets, d.transactions, user)
            && forall k :: 0 <= k < |infos| ==> infos[k].amount == Position(d.trades, user, infos[k].currency)
  {
    var infos := Infos(d.wallets, d.transactions, user);
    InfosListWallets(d.wallets, d.transactions, user);
    forall k | 0 <= k < |infos| ensures infos[k].amount == Position(d.trades, user, infos[k].currency) {
      assert IsInfo(infos[k], d.wallets, d.transactions, user);
      InfoIsPosition(d, infos[k], user);
    }
  }

  /** In every run, with whatever failures, a wallet list that is answered has exactly the wallets
      of the user of the session, in id order, each with the user's position in its currency. */
  lemma WalletListIsPositions(f: Oracle, es: seq<Event>, session: nat)
    ensures var s := Run(f, es).state;
            var outcome := Respond(s, f, session, WalletList).1;
            outcome.Answered? && outcome.response.Balances? ==>
              && session in s.sessions && s.sessions[session].authenticated
              && var infos, user := outcome.response.wallets, s.sessions[session].user;
                 && ListsWallets(infos, s.db.wallets, s.db.transactions, user)
                 && forall k :: 0 <= k < |infos| ==>
                      infos[k].amount == Position(s.db.trades, user, infos[k].currency)
  {
    var s := Run(f, es).state;
    if session in s.sessions {
      RunIsSound(f, es);
      WalletsStayUnique(f, es);
      InfosArePositions(s.db, s.sessions[session].user);
    }
  }

  // ----- Runs in which nothing fails -----

  /** Every request is for the pair that users have wallets for. */
  ghost predicate UsdRubOnly(es: seq<Event>) {
    forall i :: 0 <= i < |es| && es[i].Receive? && es[i].message.MakeRequest? ==> es[i].message.currency == USD_RUB
  }

  lemma {:induction false} ReliableRunIsProper(f: Oracle, es: seq<Event>)
    requires Reliable(f) && UsdRubOnly(es)
    ensures ProperRun(f, es)
  {
    if es == [] {
    } else {
      ReliableRunIsProper(f, es[..|es| - 1]);
    }
  }

  lemma ReliableRunIsDefined(f: Oracle, es: seq<Event>)
    requires Reliable(f) && UsdRubOnly(es)
    ensures !Run(f, es).status.Lost?
  {
    ReliableRunIsProper(f, es);
    RunIsDefined(f, es);
  }
}
