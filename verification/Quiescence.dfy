/** Failure-free runs: the book never stays crossed, and so each new request can be understood
    on its own. */
module Quiescence {
  import opened Orders
  import opened Trades
  import opened Ledger
  import opened Store
  import opened Servers
  import opened Lives
  import opened Matching
  import opened Replays
  import opened Settlement
  import opened FailureFree
  import opened Incoming
  import opened Runs

  /** No buy request for nothing or less is made. */
  ghost predicate Sensible(es: seq<Event>) {
    forall i :: 0 <= i < |es| ==> SensibleEvent(es[i])
  }

  predicate SensibleEvent(e: Event) {
    e.Receive? && e.message.MakeRequest? && e.message.requestType == 0 ==> e.message.amount > 0.0
  }

  ghost predicate Quiet(t: Table) {
    PositiveBuys(t) && Uncrossed(t)
  }

  lemma PassQuiets(d: Db, f: Oracle)
    requires Reliable(f) && PositiveBuys(d.requests) && !ProcessRequests(d, f).1.Undefined?
    ensures Quiet(ProcessRequests(d, f).0.requests)
  {
    PassIsIdeal(d, f);
    PositiveIsUnstuck(d.requests);
    PassUncrosses(d.requests);
    ReplayShrinks(d.requests, Committed(d, f));
  }

  /** Any live buy request of the pair that should have been served before `d`'s buyer belongs
      to the seller himself. */
  ghost predicate NotOvertaken(u: Table, d: Trade) {
    forall b :: b in Buyers(u) && u[b].currency == d.buy.currency && BidsMore(RowOf(u, b), BuyRow(d)) ==>
      d.sell.user == u[b].user
  }

  /** A failure-free pass keeps price-time priority: its trades are in strictly increasing
      (price desc, id asc) order of their buyers, each with the best seller of the table as
      the earlier trades left it, and no buyer it leaves alive is overtaken except by trades
      with his own sell requests. */
  lemma PassKeepsPriority(d: Db, f: Oracle)
    requires Reliable(f) && Unstuck(d.requests)
    ensures var (e, flow) := ProcessRequests(d, f);
            var ts := Committed(d, f);
            flow.Undefined? || forall i :: 0 <= i < |ts| ==>
              && BestChoice(Replay(d.requests, ts[..i]), ts[i])
              && NotOvertaken(e.requests, ts[i])
              && forall j :: i < j < |ts| ==> BidsMore(BuyRow(ts[i]), BuyRow(ts[j]))
  {
    var (e, flow) := ProcessRequests(d, f);
    if !flow.Undefined? {
      PassIsIdeal(d, f);
      forall i | 0 <= i < |Ideal(d.requests)|
        ensures BestChoice(Replay(d.requests, Ideal(d.requests)[..i]), Ideal(d.requests)[i])
        ensures NotOvertaken(e.requests, Ideal(d.requests)[i])
        ensures forall j :: i < j < |Ideal(d.requests)| ==>
                  BidsMore(BuyRow(Ideal(d.requests)[i]), BuyRow(Ideal(d.requests)[j]))
      {
        PriceTimePriority(d.requests, i);
        IdealDoesNotOvertake(d.requests, i);
      }
    }
  }

  lemma IdealIsLegal(t: Table)
    ensures AllLegal(t, Ideal(t)) && Shrunk(t, Replay(t, Ideal(t)))
  {
    BuyersAreBuyRows(t);
    SettleIsLegal(t, Cursor(t, Buyers(t)));
    ReplayShrinks(t, Ideal(t));
  }

  lemma IdealDoesNotOvertake(t: Table, i: nat)
    requires Unstuck(t) && i < |Ideal(t)|
    ensures NotOvertaken(Replay(t, Ideal(t)), Ideal(t)[i])
  {
    IdealIsLegal(t);
    var u, d := Replay(t, Ideal(t)), Ideal(t)[i];
    forall b | b in Buyers(u) && u[b].currency == d.buy.currency && BidsMore(RowOf(u, b), BuyRow(d))
      ensures d.sell.user == u[b].user
    {
      NoPriorityInversion(t, b, i);
    }
  }

  /** A second failure-free pass right after a first changes nothing but the clock. */
  lemma SecondPassChangesNothing(d: Db, f: Oracle)
    requires Reliable(f) && Unstuck(d.requests) && !ProcessRequests(d, f).1.Undefined?
    requires var e := ProcessRequests(d, f).0; !ProcessRequests(e, f).1.Undefined?
    ensures var e := ProcessRequests(d, f).0; e.Same(ProcessRequests(e, f).0)
  {
    var e := ProcessRequests(d, f).0;
    PassIsIdeal(d, f);
    SecondPassIsIdle(d.requests);
    PassIsIdeal(e, f);
    NothingReplayed(e, ProcessRequests(e, f).0);
  }

  /** A failure-free pass over a mixed book trades each pair, and leaves the requests of each
      pair, as the ideal pass does on the book of that pair alone. */
  lemma PassTreatsPairsApart(d: Db, f: Oracle, currency: string)
    requires Reliable(f) && !ProcessRequests(d, f).1.Undefined?
    ensures var part := Restrict(d.requests, currency);
            && OfPair(Committed(d, f), currency) == Ideal(part)
            && Restrict(ProcessRequests(d, f).0.requests, currency) == Replay(part, Ideal(part))
  {
    PassIsIdeal(d, f);
    PairIndependence(d.requests, currency);
  }

  lemma MakeRequestKeepsQuiet(w: World, f: Oracle, session: nat, m: Message)
    requires Reliable(f) && Quiet(DbOf(w).requests) && w.status.Running?
    requires m.MakeRequest? && SensibleEvent(Receive(session, m))
    ensures var v := Handle(w, f, Receive(session, m)); v.status.Lost? || Quiet(DbOf(v).requests)
  {
    var made, r, d := MakeRequestOutcome(w.state, f, session, m.currency, m.amount, m.price, m.requestType);
    if made && !ProcessRequests(d, f).1.Undefined? {
      assert PositiveBuys(d.requests);
      PassQuiets(d, f);
    }
  }

  lemma HandleKeepsQuiet(w: World, f: Oracle, e: Event)
    requires Reliable(f) && SensibleEvent(e) && (w.status.Lost? || Quiet(DbOf(w).requests))
    ensures var v := Handle(w, f, e); v.status.Lost? || Quiet(DbOf(v).requests)
  {
    if w.status.Lost? || Handle(w, f, e).status.Lost? {
    } else if e.Boot? {
      PassQuiets(DbOf(w), f);
    } else if e.Receive? && e.message.MakeRequest? && w.status.Running? {
      MakeRequestKeepsQuiet(w, f, e.session, e.message);
    } else if e.Receive? {
      OthersKeepRequests(w, f, e);
    }
  }

  lemma OthersKeepRequests(w: World, f: Oracle, e: Event)
    requires e.Receive? && !(e.message.MakeRequest? && w.status.Running?)
    ensures DbOf(Handle(w, f, e)).requests == DbOf(w).requests
  {
    if e.message.Register? {
      RegisterAddsWallets(w.state, f, e.message.name, e.message.verifier);
    } else if !e.message.MakeRequest? {
      LoginKeepsTables(w.state, f, e.session, e.message);
    }
  }

  /** In every failure-free run whose buy requests ask for positive amounts, after the start
      and after every message no live buy and sell requests of the same pair and of different
      users cross, as long as behaviour has been defined. */
  lemma {:induction false} NoCrossedRequests(f: Oracle, es: seq<Event>)
    requires Reliable(f) && Sensible(es)
    ensures !Run(f, es).status.Lost? ==> Quiet(DbOf(Run(f, es)).requests)
  {
    if es == [] {
    } else {
      NoCrossedRequests(f, es[..|es| - 1]);
      HandleKeepsQuiet(Run(f, es[..|es| - 1]), f, es[|es| - 1]);
    }
  }

  /** Every buy request ever made asks for something. */
  ghost predicate BuysSomething(placed: seq<Request>) {
    forall k :: 0 <= k < |placed| && placed[k].side.Buy? ==> placed[k].amount > 0.0
  }

  lemma LiveBuysArePositive(d: Db)
    requires Sound(d) && BuysSomething(d.placed)
    ensures PositiveBuys(d.requests)
  {
    assert Faithful(BookOf(d));
  }

  /** Recovery: after any run, with whatever failures, whose buy requests asked for something,
      starting the server leaves no live requests crossed if nothing fails from then on, and it
      runs, unless behaviour is undefined because a wallet is missing. */
  lemma OnePassRecovers(f: Oracle, es: seq<Event>, g: Oracle)
    requires Reliable(g) && BuysSomething(DbOf(Run(f, es)).placed)
    ensures var w := Run(f, es);
            var v := Handle(w, g, Boot);
            w.status.Lost? || v.status.Lost? || (v.status.Running? && Quiet(DbOf(v).requests))
  {
    RunIsSound(f, es);
    LiveBuysArePositive(DbOf(Run(f, es)));
    if !Run(f, es).status.Lost? {
      BootQuiets(Run(f, es), g);
    }
  }

  lemma BootQuiets(w: World, g: Oracle)
    requires Reliable(g) && PositiveBuys(DbOf(w).requests) && !w.status.Lost?
    ensures var v := Handle(w, g, Boot); v.status.Lost? || (v.status.Running? && Quiet(DbOf(v).requests))
  {
    if !ProcessRequests(DbOf(w), g).1.Undefined? {
      PassIsIdeal(DbOf(w), g);
      PassQuiets(DbOf(w), g);
    }
  }

  // ----- One new request in a run -----

  /** The request that a message of an authenticated session makes, under its new id. */
  ghost function NewRow(w: World, session: nat, m: Message): Row
    requires m.MakeRequest? && session in w.state.sessions
  {
    Row(NextId(DbOf(w).requests.Keys),
        Request(w.state.sessions[session].user, m.currency, m.amount, m.price,
                if m.requestType == 0 then Buy else Sell, |DbOf(w).placed|))
  }

  /** Making a request and matching the whole book has done `ts` and nothing else. */
  ghost predicate Does(w: World, v: World, row: Row, ts: seq<Trade>) {
    var d, e := DbOf(w), DbOf(v);
    && AllPayable(d.wallets, ts)
    && e.trades == d.trades + ts
    && e.requests == Replay(d.requests[row.id := row.req], ts)
    && e.transactions == d.transactions + Journal(d.wallets, ts)
    && e.placed == d.placed + [row.req]
  }

  /** The trades that `v` has logged beyond `w`. */
  function NewTrades(w: World, v: World): seq<Trade> {
    if |DbOf(w).trades| <= |DbOf(v).trades| then DbOf(v).trades[|DbOf(w).trades|..] else []
  }

  lemma DoesIsNew(w: World, v: World, row: Row, ts: seq<Trade>)
    requires Does(w, v, row, ts)
    ensures NewTrades(w, v) == ts
  {
  }

  /** An authenticated session of a running server asks for a request. */
  ghost predicate Requests(w: World, session: nat, m: Message, requestType: nat) {
    && w.status.Running? && m.MakeRequest? && m.requestType == requestType
    && session in w.state.sessions && w.state.sessions[session].authenticated
  }

  lemma NewRequestRunsAPass(f: Oracle, w: World, session: nat, m: Message, requestType: nat)
    requires Reliable(f) && Requests(w, session, m, requestType) && requestType <= 1
    ensures var v, row := Handle(w, f, Receive(session, m)), NewRow(w, session, m);
            v.status.Lost? || Does(w, v, row, Ideal(DbOf(w).requests[row.id := row.req]))
  {
    var row := NewRow(w, session, m);
    var d := Lives.MakeRequest(DbOf(w), f, row.req.user, m.currency, m.amount, m.price, row.req.side).0;
    assert d.requests == DbOf(w).requests[row.id := row.req];
    if !ProcessRequests(d, f).1.Undefined? {
      PassIsIdeal(d, f);
      PassReplays(d, f);
    }
  }

  /** Without failures and from a quiet book, as every event of a run leaves it, a new sell
      request does exactly this to requests, trades and ledger: it trades with its takers of
      the old book in price-time order, each at the taker's price, until it is used up. */
  lemma NewSellSweeps(f: Oracle, w: World, session: nat, m: Message)
    requires Reliable(f) && Quiet(DbOf(w).requests) && Requests(w, session, m, 1)
    ensures var v, row := Handle(w, f, Receive(session, m)), NewRow(w, session, m);
            v.status.Lost? || Does(w, v, row, Sweep(Cursor(DbOf(w).requests, Takers(DbOf(w).requests, row.req)), row))
  {
    NewRequestRunsAPass(f, w, session, m, 1);
    var row := NewRow(w, session, m);
    PositiveIsUnstuck(DbOf(w).requests[row.id := row.req]);
    IncomingSell(DbOf(w).requests, row.id, row.req);
  }

  /** Exact fill: a new sell request of size S sells min(S, D) at once, where D is what all its
      takers ask for together; it stays live with the rest, and not at all if there is none. */
  lemma NewSellIsFilled(f: Oracle, w: World, session: nat, m: Message)
    requires Reliable(f) && Quiet(DbOf(w).requests) && Requests(w, session, m, 1) && m.amount > 0.0
    ensures var v, row := Handle(w, f, Receive(session, m)), NewRow(w, session, m);
            var t, u := DbOf(w).requests, DbOf(v).requests;
            var demand := Amounts(Cursor(t, Takers(t, row.req)));
            v.status.Lost? ||
            (&& Volume(NewTrades(w, v)) == Lesser(m.amount, demand)
             && (row.id in u <==> demand < m.amount)
             && (row.id in u ==> u[row.id] == row.req.(amount := m.amount - demand)))
  {
    var v, row := Handle(w, f, Receive(session, m)), NewRow(w, session, m);
    NewRequestRunsAPass(f, w, session, m, 1);
    IncomingSellFill(DbOf(w).requests, row.id, row.req);
    if !v.status.Lost? {
      DoesIsNew(w, v, row, Ideal(DbOf(w).requests[row.id := row.req]));
    }
  }

  /** What a new sell request of size S does to the i-th of its takers, `before` being what those
      ahead of him want together: he trades exactly when he is the first or that leaves something,
      is filled whole exactly when it leaves all he wants, and is live afterwards exactly when he
      has not traded. */
  ghost predicate Serves(taker: Row, before: real, size: real, i: nat, ts: seq<Trade>, after: Table) {
    && (i < |ts| <==> i == 0 || before < size)
    && (i < |ts| ==>
          && BuyRow(ts[i]) == taker
          && (ts[i].amount == taker.req.amount <==> before + taker.req.amount <= size))
    && (taker.id in after <==> i > 0 && size <= before)
  }

  lemma SweepServesTaker(t: Table, queue: seq<Row>, offer: Row, i: nat)
    requires BuyRows(queue) && Coherent(t, queue) && i < |queue|
    requires forall j :: 0 <= j < |queue| ==> queue[j].req.amount > 0.0
    requires AllLegal(t, Sweep(queue, offer))
    ensures var ts := Sweep(queue, offer);
            Serves(queue[i], Amounts(queue[..i]), offer.req.amount, i, ts, Replay(t, ts))
  {
    var ts := Sweep(queue, offer);
    SweepServes(queue, offer, i);
    SweepFollowsQueue(queue, offer);
    BuyOutlives(t, ts, queue[i].id);
    forall k | 0 <= k < |ts| && k != i ensures ts[k].buyId != queue[i].id {
      assert BuyRow(ts[k]) == queue[k];
    }
    assert i < |ts| ==> ts[i].buyId == queue[i].id;
  }

  lemma TakersQueue(t: Table, r: Request, id: nat)
    requires PositiveBuys(t) && id !in t
    ensures var queue := Cursor(t, Takers(t, r));
            && BuyRows(queue) && Coherent(t[id := r], queue)
            && forall j :: 0 <= j < |queue| ==> queue[j].req.amount > 0.0
  {
    CursorCoherent(t, Takers(t, r));
    CursorLists(t, Takers(t, r));
  }

  /** Who is served: without failures and from a quiet book, a new sell request serves exactly the
      first of its takers, all but the last of them whole; every taker it reaches loses his row,
      and with it what he did not get. */
  lemma NewSellServes(f: Oracle, w: World, session: nat, m: Message, i: nat)
    requires Reliable(f) && Quiet(DbOf(w).requests) && Requests(w, session, m, 1)
    ensures var v, row := Handle(w, f, Receive(session, m)), NewRow(w, session, m);
            var queue := Cursor(DbOf(w).requests, Takers(DbOf(w).requests, row.req));
            v.status.Lost? || |queue| <= i ||
            Serves(queue[i], Amounts(queue[..i]), m.amount, i, NewTrades(w, v), DbOf(v).requests)
  {
    var v, row := Handle(w, f, Receive(session, m)), NewRow(w, session, m);
    var t := DbOf(w).requests;
    var queue := Cursor(t, Takers(t, row.req));
    if !v.status.Lost? && i < |queue| {
      NewSellSweeps(f, w, session, m);
      DoesIsNew(w, v, row, Sweep(queue, row));
      PositiveIsUnstuck(t[row.id := row.req]);
      IncomingSell(t, row.id, row.req);
      IdealIsLegal(t[row.id := row.req]);
      TakersQueue(t, row.req, row.id);
      SweepServesTaker(t[row.id := row.req], queue, row, i);
    }
  }

  /** Without failures and from a quiet book, a new buy request makes at most one trade, with
      its counterparty in the old book. */
  lemma NewBuyTradesAtMostOnce(f: Oracle, w: World, session: nat, m: Message)
    requires Reliable(f) && Quiet(DbOf(w).requests) && Requests(w, session, m, 0)
    ensures var v, row := Handle(w, f, Receive(session, m)), NewRow(w, session, m);
            var c := Counterparty(DbOf(w).requests, row.req);
            v.status.Lost? || Does(w, v, row,
              if c.None? then [] else [Deal(row, RowOf(DbOf(w).requests, c.value), row.req.amount)])
  {
    NewRequestRunsAPass(f, w, session, m, 0);
    var row := NewRow(w, session, m);
    IncomingBuy(DbOf(w).requests, row.id, row.req);
  }

  /** A new buy request is filled whole exactly when the old book covers it, and its row is gone
      exactly when it has a counterparty there: what is not filled at once is dropped. */
  lemma NewBuyIsFilledIff(f: Oracle, w: World, session: nat, m: Message)
    requires Reliable(f) && Quiet(DbOf(w).requests) && Requests(w, session, m, 0)
    ensures var v, row := Handle(w, f, Receive(session, m)), NewRow(w, session, m);
            var t := DbOf(w).requests;
            v.status.Lost? ||
            (&& ((exists d :: NewTrades(w, v) == [d] && d.amount == m.amount) <==> Covering(t, row.req) != {})
             && (row.id !in DbOf(v).requests <==> Counterparty(t, row.req).Some?))
  {
    var v, row := Handle(w, f, Receive(session, m)), NewRow(w, session, m);
    var t := DbOf(w).requests;
    NewBuyTradesAtMostOnce(f, w, session, m);
    if !v.status.Lost? {
      var c := Counterparty(t, row.req);
      var ts := if c.None? then [] else [Deal(row, RowOf(t, c.value), row.req.amount)];
      DoesIsNew(w, v, row, ts);
      if c.Some? {
        ReplaySingle(t[row.id := row.req], ts[0]);
        assert NewTrades(w, v) == [ts[0]];
        assert c.value in Covering(t, row.req) || c.value in Smaller(t, row.req);
      }
    }
  }

  // ----- The price paid -----

  /** The documented rule: the price of a trade is that of the earlier of its two requests. */
  predicate PaysEarlierPrice(d: Trade) {
    d.buy.price == if d.buy.arrival < d.sell.arrival then d.buy.price else d.sell.price
  }

  lemma {:induction false} SweepPaysEarlierPrice(queue: seq<Row>, offer: Row)
    requires forall i :: 0 <= i < |queue| ==> queue[i].req.arrival < offer.req.arrival
    ensures forall i :: 0 <= i < |Sweep(queue, offer)| ==> PaysEarlierPrice(Sweep(queue, offer)[i])
    decreases |queue|
  {
    if queue == [] {
    } else {
      var ds := Sweep(queue, offer);
      var rest := Row(offer.id, Reduced(offer.req, ds[0].amount));
      SweepPaysEarlierPrice(queue[1..], rest);
      forall i | 0 <= i < |ds| ensures PaysEarlierPrice(ds[i]) {
        if i > 0 {
          assert ds[i] == Sweep(queue[1..], rest)[i - 1];
        }
      }
    }
  }

  /** The rule holds of every trade that a new sell request makes. */
  lemma NewSellPaysEarlierPrice(f: Oracle, w: World, session: nat, m: Message)
    requires Reliable(f) && Quiet(DbOf(w).requests) && Requests(w, session, m, 1) && Sound(DbOf(w))
    ensures var v := Handle(w, f, Receive(session, m));
            v.status.Lost? || forall d :: d in NewTrades(w, v) ==> PaysEarlierPrice(d)
  {
    var v, row := Handle(w, f, Receive(session, m)), NewRow(w, session, m);
    var t := DbOf(w).requests;
    NewSellSweeps(f, w, session, m);
    if !v.status.Lost? {
      DoesIsNew(w, v, row, Sweep(Cursor(t, Takers(t, row.req)), row));
      CursorLists(t, Takers(t, row.req));
      SweepPaysEarlierPrice(Cursor(t, Takers(t, row.req)), row);
    }
  }

  lemma DealPaysEarlierPriceIff(d: Db, buyer: Row, s: nat)
    requires Sound(d) && s in d.requests && buyer.req.arrival == |d.placed|
    ensures PaysEarlierPrice(Deal(buyer, RowOf(d.requests, s), buyer.req.amount)) <==>
            d.requests[s].price == buyer.req.price
  {
    assert Faithful(BookOf(d));
  }

  /** Of the trade that a new buy request makes, if it makes one, it holds exactly when the
      seller asks what the buyer bids: the buyer pays his own price, not the earlier one. */
  lemma NewBuyPaysEarlierPriceIff(f: Oracle, w: World, session: nat, m: Message)
    requires Reliable(f) && Quiet(DbOf(w).requests) && Requests(w, session, m, 0) && Sound(DbOf(w))
    ensures var v := Handle(w, f, Receive(session, m));
            var t := DbOf(w).requests;
            var c := Counterparty(t, NewRow(w, session, m).req);
            v.status.Lost? ||
            ((forall d :: d in NewTrades(w, v) ==> PaysEarlierPrice(d)) <==> (c.Some? ==> t[c.value].price == m.price))
  {
    var v, row := Handle(w, f, Receive(session, m)), NewRow(w, session, m);
    NewBuyTradesAtMostOnce(f, w, session, m);
    if !v.status.Lost? {
      var c := Counterparty(DbOf(w).requests, row.req);
      OneDealPaysEarlierPriceIff(w, v, row, c);
    }
  }

  lemma OneDealPaysEarlierPriceIff(w: World, v: World, row: Row, c: Option<nat>)
    requires Sound(DbOf(w)) && row.req.arrival == |DbOf(w).placed| && (c.Some? ==> c.value in DbOf(w).requests)
    requires Does(w, v, row, if c.None? then [] else [Deal(row, RowOf(DbOf(w).requests, c.value), row.req.amount)])
    ensures (forall d :: d in NewTrades(w, v) ==> PaysEarlierPrice(d)) <==>
            (c.Some? ==> DbOf(w).requests[c.value].price == row.req.price)
  {
    if c.Some? {
      var d := Deal(row, RowOf(DbOf(w).requests, c.value), row.req.amount);
      DoesIsNew(w, v, row, [d]);
      DealPaysEarlierPriceIff(DbOf(w), row, c.value);
      assert d in NewTrades(w, v);
    } else {
      DoesIsNew(w, v, row, []);
    }
  }

  /** A new buy of 50 at 65 meets an earlier offer of 50 at 60, and pays 65. */
  lemma LaterBuyerPaysOwnPrice()
    ensures var t := map[1 := Request(1, "USD/RUB", 50.0, 60.0, Sell, 0)];
            var r := Request(2, "USD/RUB", 50.0, 65.0, Buy, 1);
            var d := Trade(2, r, 1, t[1], 50.0);
            Ideal(t[2 := r]) == [d] && !PaysEarlierPrice(d)
  {
    var t := map[1 := Request(1, "USD/RUB", 50.0, 60.0, Sell, 0)];
    var r := Request(2, "USD/RUB", 50.0, 65.0, Buy, 1);
    assert Covering(t, r) == {1};
    IncomingBuy(t, 2, r);
  }
}
