/** A reference exchange that serves one order after another, and the proof that every run in
    which nothing fails is that exchange. */
module Reference {
  import opened Orders
  import opened Trades
  import opened Ledger
  import opened Store
  import opened Servers
  import opened Lives
  import opened Matching
  import opened Replays
  import opened Settlement
  import opened FailureFree
  import opened Incoming
  import opened Runs
  import opened Quiescence
  import opened Provision

  datatype Market = Market(requests: Table, trades: seq<Trade>)

  datatype Order = Place(request: Request) | Cancel(id: nat)

  /** A sell request sweeps its takers; a buy request makes one deal with its counterparty. */
  ghost function Served(t: Table, row: Row): seq<Trade> {
    if row.req.side.Sell? then Sweep(Cursor(t, Takers(t, row.req)), row)
    else
      var c := Counterparty(t, row.req);
      if c.None? then [] else [Deal(row, RowOf(t, c.value), row.req.amount)]
  }

  /** Only the new request is ever matched; the live ones are never looked through again. */
  ghost function Enter(m: Market, order: Order): Market {
    match order
    case Place(r) =>
      var row := Row(NextId(m.requests.Keys), r);
      var ts := Served(m.requests, row);
      Market(Replay(m.requests[row.id := r], ts), m.trades + ts)
    case Cancel(id) => m.(requests := m.requests - {id})
  }

  /** The market after `orders`. */
  ghost function MarketAfter(orders: seq<Order>): Market {
    if orders == [] then Market(map[], [])
    else Enter(MarketAfter(orders[..|orders| - 1]), orders[|orders| - 1])
  }

  /** The order an event gives: a well-formed request message of an authenticated session, for its
      user, or a removal.  No other event gives one. */
  ghost function OrderOf(w: World, e: Event): seq<Order> {
    if !w.status.Running? then []
    else if e.Remove? then [Cancel(e.id)]
    else if e.Receive? && e.message.MakeRequest? && e.message.requestType <= 1
            && e.session in w.state.sessions && w.state.sessions[e.session].authenticated
    then [Place(NewRow(w, e.session, e.message).req)]
    else []
  }

  ghost function OrdersOf(f: Oracle, es: seq<Event>): seq<Order> {
    if es == [] then []
    else OrdersOf(f, es[..|es| - 1]) + OrderOf(Run(f, es[..|es| - 1]), es[|es| - 1])
  }

  function MarketOf(w: World): Market {
    Market(DbOf(w).requests, DbOf(w).trades)
  }

  // ----- A quiet book -----

  /** On a quiet book a failure-free pass changes nothing but the clock. */
  lemma QuietPassIsIdle(d: Db, f: Oracle)
    requires Reliable(f) && Quiet(d.requests) && !ProcessRequests(d, f).1.Undefined?
    ensures d.Same(ProcessRequests(d, f).0)
  {
    IdleIff(d.requests);
    PassIsIdeal(d, f);
    NothingReplayed(d, ProcessRequests(d, f).0);
  }

  /** If nothing fails, all buy requests ask for something and all are for the pair users have
      wallets for, then after every event the behaviour is defined and no live requests cross. */
  lemma RunIsQuiet(f: Oracle, es: seq<Event>)
    requires Reliable(f) && Sensible(es) && UsdRubOnly(es)
    ensures !Run(f, es).status.Lost? && Quiet(DbOf(Run(f, es)).requests)
  {
    ReliableRunIsDefined(f, es);
    NoCrossedRequests(f, es);
  }

  lemma BootOnQuietBook(w: World, f: Oracle)
    requires Reliable(f) && Quiet(DbOf(w).requests) && !w.status.Lost? && !Handle(w, f, Boot).status.Lost?
    ensures var v := Handle(w, f, Boot);
            DbOf(w).Same(DbOf(v)) && v == World(State(DbOf(v), map[], map[]), Running)
  {
    PassIsIdeal(DbOf(w), f);
    QuietPassIsIdle(DbOf(w), f);
  }

  /** After such a run, starting the server again loses the sessions and changes no table. */
  lemma RestartChangesNothing(f: Oracle, es: seq<Event>)
    requires Reliable(f) && Sensible(es) && UsdRubOnly(es)
    ensures var w, v := Run(f, es), Run(f, es + [Boot]);
            && DbOf(w).Same(DbOf(v)) && v == World(State(DbOf(v), map[], map[]), Running)
  {
    RunIsQuiet(f, es);
    assert (es + [Boot])[..|es|] == es;
    ReliableRunIsDefined(f, es + [Boot]);
    BootOnQuietBook(Run(f, es), f);
  }

  // ----- The run is the reference -----

  lemma PlaceIsEnter(w: World, f: Oracle, session: nat, m: Message)
    requires Reliable(f) && Quiet(DbOf(w).requests) && m.MakeRequest? && m.requestType <= 1
    requires Requests(w, session, m, m.requestType)
    ensures var v := Handle(w, f, Receive(session, m));
            v.status.Lost? || MarketOf(v) == Enter(MarketOf(w), Place(NewRow(w, session, m).req))
  {
    if m.requestType == 1 {
      NewSellSweeps(f, w, session, m);
    } else {
      NewBuyTradesAtMostOnce(f, w, session, m);
    }
  }

  lemma OthersKeepMarket(w: World, f: Oracle, session: nat, m: Message)
    requires w.status.Running? && OrderOf(w, Receive(session, m)) == []
    ensures MarketOf(Handle(w, f, Receive(session, m))) == MarketOf(w)
  {
    if m.MakeRequest? {
      var made, r, d := MakeRequestOutcome(w.state, f, session, m.currency, m.amount, m.price, m.requestType);
    } else if m.Register? {
      RegisterAddsWallets(w.state, f, m.name, m.verifier);
    } else {
      LoginKeepsTables(w.state, f, session, m);
    }
  }

  lemma HandleIsEnter(w: World, f: Oracle, e: Event)
    requires Reliable(f) && Quiet(DbOf(w).requests) && !w.status.Lost? && !Handle(w, f, e).status.Lost?
    ensures var orders := OrderOf(w, e);
            MarketOf(Handle(w, f, e)) == if orders == [] then MarketOf(w) else Enter(MarketOf(w), orders[0])
  {
    if e.Boot? {
      QuietPassIsIdle(DbOf(w), f);
    } else if e.Receive? && w.status.Running? {
      if OrderOf(w, e) == [] {
        OthersKeepMarket(w, f, e.session, e.message);
      } else {
        PlaceIsEnter(w, f, e.session, e.message);
      }
    } else if e.Remove? && e.id !in DbOf(w).requests {
      assert DbOf(w).requests - {e.id} == DbOf(w).requests;
    }
  }

  lemma MarketAfterOne(orders: seq<Order>, more: seq<Order>)
    requires |more| <= 1
    ensures MarketAfter(orders + more) ==
            if more == [] then MarketAfter(orders) else Enter(MarketAfter(orders), more[0])
  {
    if more == [] {
      assert orders + more == orders;
    } else {
      assert (orders + more)[..|orders|] == orders;
    }
  }

  lemma {:induction false} RunFollowsOrders(f: Oracle, es: seq<Event>)
    requires Reliable(f) && Sensible(es) && UsdRubOnly(es)
    ensures MarketOf(Run(f, es)) == MarketAfter(OrdersOf(f, es))
  {
    if es == [] {
    } else {
      var before, e := es[..|es| - 1], es[|es| - 1];
      RunFollowsOrders(f, before);
      RunIsQuiet(f, before);
      ReliableRunIsDefined(f, es);
      HandleIsEnter(Run(f, before), f, e);
      MarketAfterOne(OrdersOf(f, before), OrderOf(Run(f, before), e));
    }
  }

  /** If nothing fails, all buy requests ask for something and all are for the pair users have
      wallets for, then every run, whatever sessions, restarts and removals are in it, and although
      it matches the whole book again after each message, is the reference exchange on the orders
      given; and the log is the journal of that exchange's trades. */
  lemma RunIsReference(f: Oracle, es: seq<Event>)
    requires Reliable(f) && Sensible(es) && UsdRubOnly(es)
    ensures var d, m := DbOf(Run(f, es)), MarketAfter(OrdersOf(f, es));
            && d.requests == m.requests && d.trades == m.trades
            && AllPayable(d.wallets, m.trades) && d.transactions == Journal(d.wallets, m.trades)
  {
    RunFollowsOrders(f, es);
    RunIsSound(f, es);
  }
}
