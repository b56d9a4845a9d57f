/** Matching the whole book after one new request is the same as matching that request alone. */
module Incoming {
  import opened Orders
  import opened Trades
  import opened Matching
  import opened Replays
  import opened Settlement

  // ----- Which rows decide a buyer's counterparty -----

  lemma FirstFrame(t: Table, u: Table, ids: set<nat>)
    requires ids != {} && ids <= t.Keys && ids <= u.Keys
    requires forall id :: id in ids ==> t[id] == u[id]
    ensures First(t, ids) == First(u, ids)
  {
  }

  /** Only the eligible sellers matter. */
  lemma CounterpartyFrame(t: Table, u: Table, b: Request)
    requires forall s :: s in t && Eligible(t[s], b) ==> s in u && u[s] == t[s]
    requires forall s :: s in u && Eligible(u[s], b) ==> s in t && u[s] == t[s]
    ensures Counterparty(t, b) == Counterparty(u, b)
  {
    assert Covering(t, b) == Covering(u, b);
    assert Smaller(t, b) == Smaller(u, b);
    if Covering(t, b) != {} {
      FirstFrame(t, u, Covering(t, b));
    } else if Smaller(t, b) != {} {
      FirstFrame(t, u, Smaller(t, b));
    }
  }

  // ----- A new sell request -----

  /** A sell request meeting a queue of buyers: it trades with one after the other, at each
      buyer's price and for no more than that buyer wants, until nothing of it is left. */
  function Sweep(queue: seq<Row>, offer: Row): seq<Trade>
    decreases |queue|
  {
    if queue == [] then []
    else
      var d := Deal(queue[0], offer, queue[0].req.amount);
      [d] + if d.amount == offer.req.amount then []
            else Sweep(queue[1..], Row(offer.id, Reduced(offer.req, d.amount)))
  }

  /** The live buy requests that would take the offer. */
  function Takers(t: Table, offer: Request): set<nat> {
    set b | b in t && t[b].side.Buy? && Eligible(offer, t[b])
  }

  /** Nobody but `id` offers anything to these buyers. */
  ghost predicate OnlySeller(t: Table, buyers: seq<Row>, id: nat) {
    && id in t && t[id].side.Sell?
    && forall i, s :: 0 <= i < |buyers| && s in t && Eligible(t[s], buyers[i].req) ==> s == id
  }

  lemma OnlySellerIsCounterparty(t: Table, buyers: seq<Row>, id: nat)
    requires OnlySeller(t, buyers, id) && buyers != [] && Unstuck(t)
    requires buyers[0].id in t && t[buyers[0].id] == buyers[0].req && buyers[0].req.side.Buy?
    ensures Counterparty(t, buyers[0].req) == if Eligible(t[id], buyers[0].req) then Some(id) else None
  {
    var b := buyers[0].req;
    NoCounterpartyIff(t, b);
    assert Eligible(t[id], b) && b.amount <= 0.0 ==> id in Covering(t, b);
  }

  lemma NobodySells(t: Table, buyers: seq<Row>)
    requires forall i :: 0 <= i < |buyers| ==> NoOffer(t, buyers[i].req)
    ensures Settle(t, buyers) == []
  {
    forall i | 0 <= i < |buyers| ensures Counterparty(t, buyers[i].req).None? {
      NoOfferNoTrade(t, buyers[i].req);
    }
    SettleNothing(t, buyers);
  }

  /** After one trade of the only seller he is the only one still, or nobody sells. */
  lemma OnlySellerAfter(t: Table, buyers: seq<Row>, id: nat)
    requires OnlySeller(t, buyers, id) && buyers != [] && BuyRows(buyers) && Coherent(t, buyers)
    ensures var d := Deal(buyers[0], RowOf(t, id), buyers[0].req.amount);
            var u := Apply(t, d);
            if d.amount == t[id].amount then forall i :: 0 <= i < |buyers[1..]| ==> NoOffer(u, buyers[1..][i].req)
            else OnlySeller(u, buyers[1..], id) && u[id] == Reduced(t[id], d.amount)
  {
    var rest := buyers[1..];
    assert forall i :: 0 <= i < |rest| ==> rest[i] == buyers[i + 1];
  }

  /** `keep` marks the buyers who would take the offer of the only seller. */
  ghost predicate Marked(t: Table, buyers: seq<Row>, keep: set<nat>, id: nat) {
    && BuyRows(buyers) && Coherent(t, buyers) && Unstuck(t) && OnlySeller(t, buyers, id)
    && forall i :: 0 <= i < |buyers| ==> (buyers[i].id in keep <==> Eligible(t[id], buyers[i].req))
  }

  lemma TakerTrades(t: Table, buyers: seq<Row>, keep: set<nat>, id: nat)
    requires Marked(t, buyers, keep, id) && buyers != [] && buyers[0].id in keep
    ensures var d := Deal(buyers[0], RowOf(t, id), buyers[0].req.amount);
            var u, rest := Apply(t, d), buyers[1..];
            && Settle(t, buyers) == [d] + Settle(u, rest)
            && Pick(buyers, keep) == [buyers[0]] + Pick(rest, keep)
            && (d.amount == t[id].amount ==> Settle(u, rest) == [])
            && (d.amount != t[id].amount ==>
                  Marked(u, rest, keep, id) && u[id] == Reduced(t[id], d.amount))
  {
    var d := Deal(buyers[0], RowOf(t, id), buyers[0].req.amount);
    OnlySellerIsCounterparty(t, buyers, id);
    OnlySellerAfter(t, buyers, id);
    ApplyKeepsBuyers(t, buyers, d);
    TradeKeepsUnstuck(t, d);
    if d.amount == t[id].amount {
      NobodySells(Apply(t, d), buyers[1..]);
    }
  }

  lemma OthersAreSkipped(t: Table, buyers: seq<Row>, keep: set<nat>, id: nat)
    requires Marked(t, buyers, keep, id) && buyers != [] && buyers[0].id !in keep
    ensures Settle(t, buyers) == Settle(t, buyers[1..])
    ensures Pick(buyers, keep) == Pick(buyers[1..], keep) && Marked(t, buyers[1..], keep, id)
  {
    OnlySellerIsCounterparty(t, buyers, id);
  }

  lemma SweepUnfolds(head: Row, tail: seq<Row>, offer: Row)
    ensures var d := Deal(head, offer, head.req.amount);
            Sweep([head] + tail, offer) ==
            [d] + if d.amount == offer.req.amount then []
                  else Sweep(tail, Row(offer.id, Reduced(offer.req, d.amount)))
  {
    assert ([head] + tail)[1..] == tail;
  }

  lemma TakerSweeps(t: Table, buyers: seq<Row>, keep: set<nat>, id: nat, d: Trade)
    requires Marked(t, buyers, keep, id) && buyers != [] && buyers[0].id in keep
    requires d == Deal(buyers[0], RowOf(t, id), buyers[0].req.amount)
    requires d.amount != t[id].amount ==>
               id in Apply(t, d)
               && Settle(Apply(t, d), buyers[1..]) == Sweep(Pick(buyers[1..], keep), RowOf(Apply(t, d), id))
    ensures Settle(t, buyers) == Sweep(Pick(buyers, keep), RowOf(t, id))
  {
    TakerTrades(t, buyers, keep, id);
    SweepUnfolds(buyers[0], Pick(buyers[1..], keep), RowOf(t, id));
  }

  lemma {:induction false} SettleSweeps(t: Table, buyers: seq<Row>, keep: set<nat>, id: nat)
    requires Marked(t, buyers, keep, id)
    ensures Settle(t, buyers) == Sweep(Pick(buyers, keep), RowOf(t, id))
    decreases |buyers|
  {
    if buyers == [] {
    } else if buyers[0].id in keep {
      var d := Deal(buyers[0], RowOf(t, id), buyers[0].req.amount);
      TakerTrades(t, buyers, keep, id);
      if d.amount != t[id].amount {
        SettleSweeps(Apply(t, d), buyers[1..], keep, id);
      }
      TakerSweeps(t, buyers, keep, id, d);
    } else {
      OthersAreSkipped(t, buyers, keep, id);
      SettleSweeps(t, buyers[1..], keep, id);
    }
  }

  lemma NewSellIsMarked(t: Table, id: nat, r: Request, rows: seq<Row>)
    requires Uncrossed(t) && id !in t && r.side.Sell? && Unstuck(t[id := r])
    requires BuyRows(rows) && Coherent(t[id := r], rows)
    ensures Marked(t[id := r], rows, Takers(t, r), id)
  {
    var u := t[id := r];
    forall i, s | 0 <= i < |rows| && s in u && Eligible(u[s], rows[i].req) ensures s == id {
      assert u[rows[i].id] == t[rows[i].id];
    }
  }

  /** On an uncrossed book, a pass after a new sell request that is stuck with no buyer makes
      exactly the trades of the new request with its takers, in price-time order, and leaves the
      rest of the book alone. */
  lemma IncomingSell(t: Table, id: nat, r: Request)
    requires Uncrossed(t) && id !in t && r.side.Sell? && Unstuck(t[id := r])
    ensures Ideal(t[id := r]) == Sweep(Cursor(t, Takers(t, r)), Row(id, r))
  {
    var u := t[id := r];
    var rows := Cursor(u, Buyers(u));
    var keep := Takers(t, r);
    BuyersAreBuyRows(u);
    NewSellIsMarked(t, id, r, rows);
    SettleSweeps(u, rows, keep, id);
    PickCursor(u, Buyers(u), keep);
    assert Buyers(u) * keep == keep;
    CursorFrame(t, u, keep);
  }

  // ----- How much of it is filled -----

  function Volume(ds: seq<Trade>): real
    decreases |ds|
  {
    if ds == [] then 0.0 else ds[0].amount + Volume(ds[1..])
  }

  lemma {:induction false} AmountsArePositive(queue: seq<Row>)
    requires forall i :: 0 <= i < |queue| ==> queue[i].req.amount > 0.0
    ensures Amounts(queue) >= 0.0 && (queue != [] ==> Amounts(queue) > 0.0)
    decreases |queue|
  {
    if queue == [] {
    } else {
      AmountsArePositive(queue[1..]);
    }
  }

  lemma {:induction false} SweepFollowsQueue(queue: seq<Row>, offer: Row)
    ensures var ds := Sweep(queue, offer);
            |ds| <= |queue| && forall k :: 0 <= k < |ds| ==> BuyRow(ds[k]) == queue[k]
    decreases |queue|
  {
    if queue == [] {
    } else {
      var d := Deal(queue[0], offer, queue[0].req.amount);
      var rest := Row(offer.id, Reduced(offer.req, d.amount));
      SweepFollowsQueue(queue[1..], rest);
      assert forall k :: 1 <= k < |queue| ==> queue[k] == queue[1..][k - 1];
    }
  }

  lemma AmountsOfPrefix(queue: seq<Row>, i: nat)
    requires 0 < i <= |queue| && forall j :: 0 <= j < |queue| ==> queue[j].req.amount > 0.0
    ensures Amounts(queue[..i]) == queue[0].req.amount + Amounts(queue[1..][..i - 1])
    ensures Amounts(queue[..i]) >= queue[0].req.amount
  {
    assert queue[..i][1..] == queue[1..][..i - 1];
    AmountsArePositive(queue[1..][..i - 1]);
  }

  /** The i-th in the queue is reached exactly when he is the first or those before him leave
      something of the offer, and gets all he wants exactly when they leave him that much. */
  lemma {:induction false} SweepServes(queue: seq<Row>, offer: Row, i: nat)
    requires forall j :: 0 <= j < |queue| ==> queue[j].req.amount > 0.0
    requires i < |queue|
    ensures var ds, earlier := Sweep(queue, offer), Amounts(queue[..i]);
            && (i < |ds| <==> i == 0 || earlier < offer.req.amount)
            && (i < |ds| ==> ds[i].amount == Lesser(queue[i].req.amount, offer.req.amount - earlier))
    decreases |queue|
  {
    if i > 0 {
      var d := Deal(queue[0], offer, queue[0].req.amount);
      AmountsOfPrefix(queue, i);
      if d.amount != offer.req.amount {
        SweepServes(queue[1..], Row(offer.id, Reduced(offer.req, d.amount)), i - 1);
      }
    }
  }

  lemma {:induction false} SweepFills(t: Table, queue: seq<Row>, id: nat)
    requires id in t && t[id].side.Sell? && t[id].amount > 0.0
    requires forall i :: 0 <= i < |queue| ==> queue[i].req.amount > 0.0 && queue[i].id != id
    ensures var ds := Sweep(queue, RowOf(t, id));
            var u := Replay(t, ds);
            && Volume(ds) == Lesser(t[id].amount, Amounts(queue))
            && (id in u <==> Amounts(queue) < t[id].amount)
            && (id in u ==> u[id] == Reduced(t[id], Amounts(queue)))
    decreases |queue|
  {
    if queue == [] {
    } else {
      var ds := Sweep(queue, RowOf(t, id));
      var d := ds[0];
      AmountsArePositive(queue[1..]);
      if d.amount == t[id].amount {
        assert ds == [d];
        ReplaySingle(t, d);
        assert ds[1..] == [];
      } else {
        var u := Apply(t, d);
        assert ds[1..] == Sweep(queue[1..], RowOf(u, id));
        SweepFills(u, queue[1..], id);
      }
    }
  }

  /** Exact fill: a new sell request of size S on an uncrossed book trades min(S, D), where D
      is what all its takers want together; it stays with S - D, and is gone when this is not
      positive. */
  lemma IncomingSellFill(t: Table, id: nat, r: Request)
    requires Uncrossed(t) && PositiveBuys(t)
    requires id !in t && r.side.Sell? && r.amount > 0.0
    ensures var demand := Amounts(Cursor(t, Takers(t, r)));
            var u := Replay(t[id := r], Ideal(t[id := r]));
            && Volume(Ideal(t[id := r])) == Lesser(r.amount, demand)
            && (id in u <==> demand < r.amount)
            && (id in u ==> u[id] == Reduced(r, demand))
  {
    PositiveIsUnstuck(t[id := r]);
    IncomingSell(t, id, r);
    var queue := Cursor(t, Takers(t, r));
    CursorLists(t, Takers(t, r));
    forall i | 0 <= i < |queue| ensures queue[i].req.amount > 0.0 && queue[i].id != id {
      assert queue[i].id in Takers(t, r);
    }
    SweepFills(t[id := r], queue, id);
  }

  // ----- A new buy request -----

  lemma {:induction false} SettleOne(t: Table, buyers: seq<Row>, b: Row)
    requires BuyRows(buyers) && Coherent(t, buyers) && b in buyers
    requires forall i :: 0 <= i < |buyers| && buyers[i] != b ==> NoOffer(t, buyers[i].req)
    ensures var c := Counterparty(t, b.req);
            Settle(t, buyers) == if c.None? then [] else [Deal(b, RowOf(t, c.value), b.req.amount)]
    decreases |buyers|
  {
    var rest := buyers[1..];
    var c := Counterparty(t, b.req);
    if buyers[0] == b {
      var u := if c.None? then t else Apply(t, Deal(b, RowOf(t, c.value), b.req.amount));
      forall i | 0 <= i < |rest| ensures Counterparty(u, rest[i].req).None? {
        assert rest[i] == buyers[i + 1] && rest[i].id != b.id;
        if c.Some? {
          NoOfferAfter(t, Deal(b, RowOf(t, c.value), b.req.amount), rest[i].req);
        }
        NoOfferNoTrade(u, rest[i].req);
      }
      SettleNothing(u, rest);
    } else {
      NoOfferNoTrade(t, buyers[0].req);
      SettleOne(t, rest, b);
    }
  }

  lemma NewBuyOffersNothing(t: Table, id: nat, r: Request, row: Row)
    requires Uncrossed(t) && id !in t && r.side.Buy?
    requires row != Row(id, r) && row.req.side.Buy? && row.id in t[id := r] && t[id := r][row.id] == row.req
    ensures NoOffer(t[id := r], row.req)
  {
  }

  /** On an uncrossed book, a pass after a new buy request makes at most one trade: the new
      request with its counterparty in the old book. */
  lemma IncomingBuy(t: Table, id: nat, r: Request)
    requires Uncrossed(t) && id !in t && r.side.Buy?
    ensures var c := Counterparty(t, r);
            Ideal(t[id := r]) == if c.None? then [] else [Deal(Row(id, r), RowOf(t, c.value), r.amount)]
  {
    var u := t[id := r];
    var rows := Cursor(u, Buyers(u));
    BuyersAreBuyRows(u);
    assert id in Buyers(u);
    RowListed(u, Buyers(u), id);
    forall i | 0 <= i < |rows| && rows[i] != Row(id, r) ensures NoOffer(u, rows[i].req) {
      NewBuyOffersNothing(t, id, r, rows[i]);
    }
    SettleOne(u, rows, Row(id, r));
    CounterpartyFrame(t, u, r);
  }

  /** Exactly when the book is uncrossed again after a new buy request and a pass: nobody offers,
      or the request is for something, or some offer covers it. */
  lemma NewBuyUncrossesIff(t: Table, id: nat, r: Request)
    requires Uncrossed(t) && id !in t && r.side.Buy?
    ensures Uncrossed(Replay(t[id := r], Ideal(t[id := r]))) <==>
            NoOffer(t, r) || r.amount > 0.0 || Covering(t, r) != {}
  {
    var u := t[id := r];
    IncomingBuy(t, id, r);
    NoCounterpartyIff(t, r);
    var c := Counterparty(t, r);
    if c.None? {
      assert Replay(u, []) == u;
      assert forall s :: s in t ==> s in u && u[s] == t[s];
      assert NoOffer(u, r) <==> NoOffer(t, r);
      assert u[id] == r;
      forall b | b in t && t[b].side.Buy? ensures NoOffer(u, u[b]) {
        NewBuyOffersNothing(t, id, r, RowOf(t, b));
      }
    } else {
      var d := Deal(Row(id, r), RowOf(t, c.value), r.amount);
      ReplaySingle(u, d);
      forall b | b in Apply(u, d) && Apply(u, d)[b].side.Buy? ensures NoOffer(Apply(u, d), Apply(u, d)[b]) {
        NewBuyOffersNothing(t, id, r, RowOf(t, b));
        NoOfferAfter(u, d, t[b]);
      }
    }
  }

  // ----- Pairs do not influence each other -----

  function Restrict(t: Table, currency: string): Table {
    map id | id in t && t[id].currency == currency :: t[id]
  }

  function OfPair(ds: seq<Trade>, currency: string): seq<Trade>
    decreases |ds|
  {
    if ds == [] then []
    else (if ds[0].buy.currency == currency then [ds[0]] else []) + OfPair(ds[1..], currency)
  }

  lemma RestrictApply(t: Table, d: Trade, currency: string)
    requires Legal(t, d)
    ensures Restrict(Apply(t, d), currency) ==
            if d.buy.currency == currency then Apply(Restrict(t, currency), d) else Restrict(t, currency)
  {
  }

  lemma {:induction false} SettleOfPair(t: Table, buyers: seq<Row>, keep: set<nat>, currency: string)
    requires BuyRows(buyers) && Coherent(t, buyers)
    requires forall i :: 0 <= i < |buyers| ==> (buyers[i].id in keep <==> buyers[i].req.currency == currency)
    ensures var part, few := Restrict(t, currency), Pick(buyers, keep);
            && OfPair(Settle(t, buyers), currency) == Settle(part, few)
            && Restrict(Replay(t, Settle(t, buyers)), currency) == Replay(part, Settle(part, few))
    decreases |buyers|
  {
    if buyers == [] {
    } else {
      var b, rest := buyers[0], buyers[1..];
      var part := Restrict(t, currency);
      assert forall i :: 0 <= i < |rest| ==> rest[i] == buyers[i + 1];
      var c := Counterparty(t, b.req);
      if b.id in keep {
        CounterpartyFrame(t, part, b.req);
        assert Pick(buyers, keep)[1..] == Pick(rest, keep);
      } else {
        assert Pick(buyers, keep) == Pick(rest, keep);
      }
      if c.None? {
        SettleOfPair(t, rest, keep, currency);
      } else {
        var d := Deal(b, RowOf(t, c.value), b.req.amount);
        ApplyKeepsBuyers(t, buyers, d);
        RestrictApply(t, d, currency);
        SettleOfPair(Apply(t, d), rest, keep, currency);
        assert Settle(t, buyers)[1..] == Settle(Apply(t, d), rest);
      }
    }
  }

  /** What a failure-free pass over a mixed book does to one pair, its trades and its requests,
      is what it does to the book of that pair alone. */
  lemma PairIndependence(t: Table, currency: string)
    ensures var part := Restrict(t, currency);
            && OfPair(Ideal(t), currency) == Ideal(part)
            && Restrict(Replay(t, Ideal(t)), currency) == Replay(part, Ideal(part))
  {
    var part := Restrict(t, currency);
    var keep := Buyers(part);
    BuyersAreBuyRows(t);
    SettleOfPair(t, Cursor(t, Buyers(t)), keep, currency);
    PickCursor(t, Buyers(t), keep);
    assert Buyers(t) * keep == keep;
    CursorFrame(t, part, keep);
  }
}
