/** Whole runs of the server: any interleaving of sessions, messages, removals and restarts,
    under any pattern of failures. */
module Runs {
  import opened Orders
  import opened Trades
  import opened Ledger
  import opened Store
  import opened Servers
  import opened Lives
  import opened Matching
  import opened Replays

  /** Not started, or ended by an exception nothing caught; running; or past undefined
      behaviour.  What really follows that is unknown: here every later event is ignored, and
      the database stays as rolled back from the unfinished transaction. */
  datatype Status = Stopped | Running | Lost

  datatype World = World(state: State, status: Status)

  /** `Boot` starts the process on the database as it is.  `Remove` is a call of
      `remove_request`, which no message makes. */
  datatype Event =
    | Boot
    | Connect(session: nat)
    | Close(session: nat)
    | Receive(session: nat, message: Message)
    | Remove(id: nat)

  const INIT := World(State(EMPTY, map[], map[]), Stopped)

  function StatusAfter(flow: Flow): Status {
    match flow
    case Next => Running
    case Caught => Running
    case Escaped => Stopped
    case Undefined => Lost
  }

  ghost function Handle(w: World, f: Oracle, e: Event): World {
    if w.status.Lost? || (w.status.Stopped? && !e.Boot?) then w
    else
      match e
      case Boot =>
        var (d, flow) := ProcessRequests(w.state.db, f);
        World(State(d, map[], map[]), StatusAfter(flow))
      case Connect(session) => w.(state := OnConnected(w.state, session))
      case Close(session) => w.(state := OnClosed(w.state, session))
      case Receive(session, message) =>
        var (s, outcome) := Respond(w.state, f, session, message);
        World(s, if outcome.Gone? then StatusAfter(outcome.flow) else Running)
      case Remove(id) => w.(state := w.state.(db := RemoveRequest(w.state.db, f, id).0))
  }

  /** The world after the events `es`. */
  ghost function Run(f: Oracle, es: seq<Event>): World {
    if es == [] then INIT else Handle(Run(f, es[..|es| - 1]), f, es[|es| - 1])
  }

  function DbOf(w: World): Db {
    w.state.db
  }

  // ----- What every reachable database satisfies, whatever fails -----

  ghost predicate Sound(d: Db) {
    BookSound(BookOf(d)) && LedgerSound(d)
  }

  lemma LoginKeepsTables(s: State, f: Oracle, session: nat, m: Message)
    requires m.ChallengeLogin? || m.ChallengeProof? || m.Logout? || m.WalletList? || m.Other?
    ensures s.db.Same(Respond(s, f, session, m).0.db)
  {
  }

  lemma RegisterAddsWallets(s: State, f: Oracle, name: string, verifier: string)
    ensures var d := OnRegister(s, f, name, verifier).0.db;
            s.db.wallets <= d.wallets && d == s.db.(users := d.users, wallets := d.wallets, clock := d.clock)
  {
  }

  lemma RegisterKeepsSound(s: State, f: Oracle, name: string, verifier: string)
    requires Sound(s.db)
    ensures Sound(OnRegister(s, f, name, verifier).0.db)
  {
    var d := OnRegister(s, f, name, verifier).0.db;
    RegisterAddsWallets(s, f, name, verifier);
    assert BookOf(d) == BookOf(s.db);
    JournalStable(s.db.wallets, d.wallets, s.db.trades);
  }

  /** A request message of an authenticated session makes a request and runs a pass; one that
      does not changes nothing but the clock. */
  lemma MakeRequestOutcome(
    s: State, f: Oracle, session: nat, currency: string, amount: real, price: real, requestType: nat)
    returns (made: bool, r: Request, d: Db)
    ensures var (v, outcome) := OnMakeRequest(s, f, session, currency, amount, price, requestType);
            if made
            then && session in s.sessions && s.sessions[session].authenticated && requestType <= 1
                 && r == Request(s.sessions[session].user, currency, amount, price,
                                 if requestType == 0 then Buy else Sell, |s.db.placed|)
                 && d == s.db.Tick(1).(requests := s.db.requests[NextId(s.db.requests.Keys) := r],
                                       placed := s.db.placed + [r])
                 && (v, outcome) == Finish(s.(db := ProcessRequests(d, f).0), ProcessRequests(d, f).1)
            else && s.db.Same(v.db) && v == s.(db := v.db)
                 && (outcome.Gone? ==> outcome.flow.Escaped?)
  {
    made := session in s.sessions && s.sessions[session].authenticated
            && (requestType == 0 || requestType == 1) && !f(s.db.clock);
    r := Request(if session in s.sessions then s.sessions[session].user else 0, currency, amount, price,
                 if requestType == 0 then Buy else Sell, |s.db.placed|);
    d := s.db.Tick(1).(requests := s.db.requests[NextId(s.db.requests.Keys) := r], placed := s.db.placed + [r]);
  }

  lemma MakeRequestKeepsSound(
    s: State, f: Oracle, session: nat, currency: string, amount: real, price: real, requestType: nat)
    requires Sound(s.db)
    ensures Sound(OnMakeRequest(s, f, session, currency, amount, price, requestType).0.db)
  {
    if session in s.sessions {
      var side := if requestType == 0 then Buy else Sell;
      var d := Lives.MakeRequest(s.db, f, s.sessions[session].user, currency, amount, price, side).0;
      MakeRequestKeepsBook(s.db, f, s.sessions[session].user, currency, amount, price, side);
      PassKeepsBook(d, f);
      PassKeepsLedger(d, f);
    }
  }

  lemma SameKeepsSound(d: Db, e: Db)
    requires Sound(d) && d.Same(e)
    ensures Sound(e)
  {
    assert BookOf(e) == BookOf(d);
  }

  lemma RespondKeepsSound(s: State, f: Oracle, session: nat, m: Message)
    requires Sound(s.db)
    ensures Sound(Respond(s, f, session, m).0.db)
  {
    if m.MakeRequest? {
      MakeRequestKeepsSound(s, f, session, m.currency, m.amount, m.price, m.requestType);
    } else if m.Register? {
      RegisterKeepsSound(s, f, m.name, m.verifier);
    } else {
      LoginKeepsTables(s, f, session, m);
      SameKeepsSound(s.db, Respond(s, f, session, m).0.db);
    }
  }

  lemma HandleKeepsSound(w: World, f: Oracle, e: Event)
    requires Sound(DbOf(w))
    ensures Sound(DbOf(Handle(w, f, e)))
  {
    match e
    case Boot =>
      PassKeepsBook(DbOf(w), f);
      PassKeepsLedger(DbOf(w), f);
    case Connect(session) =>
    case Close(session) =>
    case Receive(session, message) => RespondKeepsSound(w.state, f, session, message);
    case Remove(id) => RemoveRequestKeepsBook(DbOf(w), f, id);
  }

  lemma {:induction false} RunIsSound(f: Oracle, es: seq<Event>)
    ensures Sound(DbOf(Run(f, es)))
  {
    if es == [] {
      assert BookSound(BookOf(EMPTY));
    } else {
      RunIsSound(f, es[..|es| - 1]);
      HandleKeepsSound(Run(f, es[..|es| - 1]), f, es[|es| - 1]);
    }
  }

  /** The zero-sum law: in every run, with whatever failures, the balances of each currency
      over all wallets add up to zero. */
  lemma CurrenciesAreZeroSum(f: Oracle, es: seq<Event>, currency: string)
    ensures var d := DbOf(Run(f, es)); Total(d.wallets, d.transactions, currency) == 0.0
  {
    RunIsSound(f, es);
    var d := DbOf(Run(f, es));
    JournalIsZeroSum(d.wallets, d.trades, currency);
  }

  /** In every run, what `wallets` computes for a user's wallet in a currency is bought minus
      sold, and received minus paid, over all the trades committed. */
  lemma BalancesFoldTheTrades(f: Oracle, es: seq<Event>, user: nat, currency: string)
    ensures var d := DbOf(Run(f, es));
            var wallet := FirstWallet(d.wallets, user, currency);
            AllPairs(d.trades) &&
            (wallet.Some? ==> Balance(d.transactions, wallet.value) == Position(d.trades, user, currency))
  {
    RunIsSound(f, es);
    var d := DbOf(Run(f, es));
    if FirstWallet(d.wallets, user, currency).Some? {
      BalanceIsPosition(d.wallets, d.trades, FirstWallet(d.wallets, user, currency).value);
    }
  }

  /** In every run, among live requests a smaller id means an earlier request, so that ordering
      by id is time priority, although ids of deleted requests are given out again. */
  lemma IdOrderIsTimeOrder(f: Oracle, es: seq<Event>)
    ensures var t := DbOf(Run(f, es)).requests;
            forall i, j :: i in t && j in t ==> (i < j <==> t[i].arrival < t[j].arrival)
  {
    RunIsSound(f, es);
    var t := DbOf(Run(f, es)).requests;
    assert IdsFollowArrival(t);
    forall i, j | i in t && j in t ensures i < j <==> t[i].arrival < t[j].arrival {
      assert i == j || i < j || j < i;
    }
  }

  /** In every run, with whatever failures, a sell request never removed has sold exactly what
      it no longer offers. */
  lemma SellVolumeIsConserved(f: Oracle, es: seq<Event>, k: nat)
    requires var d := DbOf(Run(f, es)); k < |d.placed| && d.placed[k].side.Sell? && k !in d.removed
    ensures var d := DbOf(Run(f, es));
            if Live(d.requests, k)
            then (exists id :: id in d.requests && d.requests[id].arrival == k
                    && d.placed[k].amount == d.requests[id].amount + Sold(d.trades, k))
            else d.placed[k].amount == Sold(d.trades, k)
  {
    RunIsSound(f, es);
    var d := DbOf(Run(f, es));
    if Live(d.requests, k) {
      var id :| id in d.requests && d.requests[id].arrival == k;
      assert d.requests[id].side.Sell?;
      assert d.placed[k].amount == d.requests[id].amount + Sold(d.trades, k);
    }
  }

  /** In every run, with whatever failures, a buy request never removed is live until its one
      trade and gone from then on. */
  lemma BuyEndsWithItsTrade(f: Oracle, es: seq<Event>, k: nat)
    requires var d := DbOf(Run(f, es)); k < |d.placed| && d.placed[k].side.Buy? && k !in d.removed
    ensures var d := DbOf(Run(f, es));
            && (Live(d.requests, k) <==> !Bought(d.trades, k))
            && (forall i, j :: 0 <= i < j < |d.trades| && d.trades[i].buy.arrival == k ==> d.trades[j].buy.arrival != k)
  {
    RunIsSound(f, es);
    assert BuysTradeOnce(BookOf(DbOf(Run(f, es))));
  }

  // ----- Amounts -----

  /** If every request made asks or offers a positive amount, so does every live request, and
      every trade is for a positive amount. */
  ghost predicate AmountsPositive(d: Db) {
    (forall k :: 0 <= k < |d.placed| ==> d.placed[k].amount > 0.0) ==>
      Positive(d.requests) && forall i :: 0 <= i < |d.trades| ==> d.trades[i].amount > 0.0
  }

  lemma PassKeepsAmounts(d: Db, f: Oracle)
    requires AmountsPositive(d)
    ensures AmountsPositive(ProcessRequests(d, f).0)
  {
    PassReplays(d, f);
    if Positive(d.requests) {
      ReplayStaysPositive(d.requests, Committed(d, f));
    }
  }

  lemma NewRequestKeepsAmounts(d: Db, id: nat, r: Request)
    requires AmountsPositive(d)
    ensures AmountsPositive(d.(requests := d.requests[id := r], placed := d.placed + [r]))
  {
    var placed := d.placed + [r];
    if forall k :: 0 <= k < |placed| ==> placed[k].amount > 0.0 {
      assert forall k :: 0 <= k < |d.placed| ==> d.placed[k] == placed[k];
      assert placed[|d.placed|] == r;
    }
  }

  lemma RespondKeepsAmounts(s: State, f: Oracle, session: nat, m: Message)
    requires AmountsPositive(s.db)
    ensures AmountsPositive(Respond(s, f, session, m).0.db)
  {
    if m.MakeRequest? {
      var made, r, d := MakeRequestOutcome(s, f, session, m.currency, m.amount, m.price, m.requestType);
      if made {
        NewRequestKeepsAmounts(s.db, NextId(s.db.requests.Keys), r);
        assert AmountsPositive(d);
        PassKeepsAmounts(d, f);
      }
    } else if m.Register? {
      RegisterAddsWallets(s, f, m.name, m.verifier);
    } else {
      LoginKeepsTables(s, f, session, m);
    }
  }

  /** In every run, with whatever failures, live amounts stay strictly positive and no trade is
      for nothing, provided that no request was made for nothing or less. */
  lemma {:induction false} AmountsStayPositive(f: Oracle, es: seq<Event>)
    ensures AmountsPositive(DbOf(Run(f, es)))
  {
    if es == [] {
    } else {
      var w, e := Run(f, es[..|es| - 1]), es[|es| - 1];
      AmountsStayPositive(f, es[..|es| - 1]);
      match e
      case Boot => PassKeepsAmounts(DbOf(w), f);
      case Receive(session, message) => RespondKeepsAmounts(w.state, f, session, message);
      case Connect(session) =>
      case Close(session) =>
      case Remove(id) =>
    }
  }

  // ----- Every trade crosses -----

  ghost predicate AllCross(ts: seq<Trade>) {
    forall i :: 0 <= i < |ts| ==> Crosses(ts[i])
  }

  /** The seller asks no more than the buyer pays, they are different users trading one pair, and
      neither gives or gets more than he had or wanted. */
  ghost predicate Crosses(d: Trade) {
    && d.buy.side.Buy? && d.sell.side.Sell?
    && d.sell.price <= d.buy.price && d.sell.currency == d.buy.currency && d.sell.user != d.buy.user
    && d.amount <= d.buy.amount && d.amount <= d.sell.amount
  }

  lemma {:induction false} LegalCrosses(t: Table, ts: seq<Trade>)
    requires AllLegal(t, ts)
    ensures AllCross(ts)
    decreases |ts|
  {
    if ts == [] {
    } else {
      LegalCrosses(Apply(t, ts[0]), ts[1..]);
      assert forall i :: 1 <= i < |ts| ==> ts[i] == ts[1..][i - 1];
    }
  }

  lemma PassKeepsCrossing(d: Db, f: Oracle)
    requires AllCross(d.trades)
    ensures AllCross(ProcessRequests(d, f).0.trades)
  {
    PassReplays(d, f);
    LegalCrosses(d.requests, Committed(d, f));
  }

  lemma HandleKeepsCrossing(w: World, f: Oracle, e: Event)
    requires AllCross(DbOf(w).trades)
    ensures AllCross(DbOf(Handle(w, f, e)).trades)
  {
    if e.Boot? {
      PassKeepsCrossing(DbOf(w), f);
    } else if e.Receive? && e.message.MakeRequest? {
      var m := e.message;
      var made, r, d := MakeRequestOutcome(w.state, f, e.session, m.currency, m.amount, m.price, m.requestType);
      if made {
        PassKeepsCrossing(d, f);
      }
    } else if e.Receive? && e.message.Register? {
      RegisterAddsWallets(w.state, f, e.message.name, e.message.verifier);
    } else if e.Receive? {
      LoginKeepsTables(w.state, f, e.session, e.message);
    }
  }

  lemma {:induction false} RunCrosses(f: Oracle, es: seq<Event>)
    ensures AllCross(DbOf(Run(f, es)).trades)
  {
    if es == [] {
    } else {
      RunCrosses(f, es[..|es| - 1]);
      HandleKeepsCrossing(Run(f, es[..|es| - 1]), f, es[|es| - 1]);
    }
  }

  /** In every run, with whatever failures, every trade is between a buy and a sell request that
      were made, at the terms they were made on, crossing, of different users and one pair, for
      no more than the buyer asked for or the seller had left. */
  lemma EveryTradeCrosses(f: Oracle, es: seq<Event>, i: nat)
    requires i < |DbOf(Run(f, es)).trades|
    ensures var d := DbOf(Run(f, es));
            var t := d.trades[i];
            && t.buy.arrival < |d.placed| && t.sell.arrival < |d.placed|
            && t.buy == d.placed[t.buy.arrival]
            && t.sell == d.placed[t.sell.arrival].(amount := t.sell.amount)
            && Crosses(t)
  {
    RunIsSound(f, es);
    RunCrosses(f, es);
    assert TradesFaithful(BookOf(DbOf(Run(f, es))));
  }
}
