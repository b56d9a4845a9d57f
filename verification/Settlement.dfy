/** The trades a matching pass makes when nothing fails, as a function of the table alone,
    and what the trading rules of the exchange promise about them. */
module Settlement {
  import opened Orders
  import opened Trades
  import opened Matching
  import opened Replays

  /** The sell request a buy request trades with: the first that covers it whole, else the
      first smaller one. */
  ghost function Counterparty(t: Table, b: Request): (s: Option<nat>)
    ensures s.Some? ==> s.value in t && Eligible(t[s.value], b)
  {
    if Covering(t, b) != {} then Some(First(t, Covering(t, b)))
    else if Smaller(t, b) != {} && b.amount > 0.0 then Some(First(t, Smaller(t, b)))
    else None
  }

  /** The trades of a failure-free pass over the rows of `buyers`. */
  ghost function Settle(t: Table, buyers: seq<Row>): seq<Trade>
    decreases |buyers|
  {
    if buyers == [] then []
    else
      var s := Counterparty(t, buyers[0].req);
      if s.None? then Settle(t, buyers[1..])
      else
        var d := Deal(buyers[0], RowOf(t, s.value), buyers[0].req.amount);
        [d] + Settle(Apply(t, d), buyers[1..])
  }

  ghost function Ideal(t: Table): seq<Trade> {
    Settle(t, Cursor(t, Buyers(t)))
  }

  /** A trade leaves the other rows of a buyers' cursor as they are. */
  lemma ApplyKeepsBuyers(t: Table, buyers: seq<Row>, d: Trade)
    requires buyers != [] && BuyRows(buyers) && Coherent(t, buyers)
    requires d.buyId == buyers[0].id && d.sellId in t && t[d.sellId] == d.sell && d.sell.side.Sell?
    ensures Coherent(Apply(t, d), buyers[1..]) && BuyRows(buyers[1..])
  {
  }

  lemma {:induction false} SettleIsLegal(t: Table, buyers: seq<Row>)
    requires BuyRows(buyers) && Coherent(t, buyers)
    ensures AllLegal(t, Settle(t, buyers))
    decreases |buyers|
  {
    if buyers == [] {
    } else {
      var s := Counterparty(t, buyers[0].req);
      if s.None? {
        SettleIsLegal(t, buyers[1..]);
      } else {
        var d := Deal(buyers[0], RowOf(t, s.value), buyers[0].req.amount);
        ApplyKeepsBuyers(t, buyers, d);
        SettleIsLegal(Apply(t, d), buyers[1..]);
      }
    }
  }

  // ----- An uncrossed book -----

  /** No sell request would be sold to `b`. */
  ghost predicate NoOffer(t: Table, b: Request) {
    forall s :: s in t ==> !Eligible(t[s], b)
  }

  /** No live sell request asks no more than a live buy request of the same pair and of a different
      user bids. */
  ghost predicate Uncrossed(t: Table) {
    forall b, s :: b in t && s in t && t[b].side.Buy? && t[s].side.Sell? ==>
      t[s].price > t[b].price || t[s].currency != t[b].currency || t[s].user == t[b].user
  }

  ghost predicate PositiveBuys(t: Table) {
    forall b :: b in t && t[b].side.Buy? ==> t[b].amount > 0.0
  }

  /** No buy request for nothing or less meets an offer that is smaller still: such a pair would
      be passed over.  Positive buy amounts are enough for this, and so are positive sell amounts. */
  ghost predicate Unstuck(t: Table) {
    forall b, s :: b in t && s in t && t[b].side.Buy? && Eligible(t[s], t[b]) ==>
      t[b].amount > 0.0 || t[s].amount >= t[b].amount
  }

  lemma PositiveIsUnstuck(t: Table)
    ensures PositiveBuys(t) || (forall s :: s in t && t[s].side.Sell? ==> t[s].amount > 0.0) ==> Unstuck(t)
  {
  }

  lemma TradeKeepsUnstuck(t: Table, d: Trade)
    requires Legal(t, d) && Unstuck(t)
    ensures Unstuck(Apply(t, d))
  {
  }

  /** Exactly when a buy request survives its visit: nobody offers, or it asks for nothing
      and every offer is for less than that. */
  lemma NoCounterpartyIff(t: Table, b: Request)
    ensures Counterparty(t, b).None? <==> NoOffer(t, b) || (b.amount <= 0.0 && Covering(t, b) == {})
  {
    assert forall s :: s in t && Eligible(t[s], b) ==> s in Covering(t, b) || s in Smaller(t, b);
  }

  lemma UnstuckSurvivorHasNoOffer(t: Table, b: nat)
    requires Unstuck(t) && b in t && t[b].side.Buy? && Counterparty(t, t[b]).None?
    ensures NoOffer(t, t[b])
  {
    NoCounterpartyIff(t, t[b]);
    assert forall s :: s in t && Eligible(t[s], t[b]) && t[b].amount <= 0.0 ==> s in Covering(t, t[b]);
  }

  lemma NoOfferNoTrade(t: Table, b: Request)
    requires NoOffer(t, b)
    ensures Counterparty(t, b).None?
  {
  }

  /** A book does not become crossed by a trade. */
  lemma NoOfferAfter(t: Table, d: Trade, b: Request)
    requires Legal(t, d) && NoOffer(t, b)
    ensures NoOffer(Apply(t, d), b)
  {
  }

  lemma {:induction false} SettleUncrosses(t: Table, buyers: seq<Row>)
    requires BuyRows(buyers) && Coherent(t, buyers) && Unstuck(t)
    requires forall b :: b in Buyers(t) && NoRow(buyers, b) ==> NoOffer(t, t[b])
    ensures Uncrossed(Replay(t, Settle(t, buyers)))
    decreases |buyers|
  {
    if buyers == [] {
    } else {
      var rest := buyers[1..];
      var s := Counterparty(t, buyers[0].req);
      var u := t;
      if s.Some? {
        var d := Deal(buyers[0], RowOf(t, s.value), buyers[0].req.amount);
        u := Apply(t, d);
        ApplyKeepsBuyers(t, buyers, d);
        TradeKeepsUnstuck(t, d);
      } else {
        UnstuckSurvivorHasNoOffer(t, buyers[0].id);
      }
      forall b | b in Buyers(u) && NoRow(rest, b) ensures NoOffer(u, u[b]) {
        if b != buyers[0].id {
          NoRowPrepends(buyers, b);
          assert u[b] == t[b];
        }
      }
      SettleUncrosses(u, rest);
    }
  }

  lemma NoRowPrepends(rows: seq<Row>, id: nat)
    requires rows != [] && rows[0].id != id && NoRow(rows[1..], id)
    ensures NoRow(rows, id)
  {
    assert forall i :: 1 <= i < |rows| ==> rows[i] == rows[1..][i - 1];
  }

  ghost predicate NoRow(rows: seq<Row>, id: nat) {
    forall i :: 0 <= i < |rows| ==> rows[i].id != id
  }

  /** After a failure-free pass over a book without stuck pairs no two live requests cross. */
  lemma PassUncrosses(t: Table)
    requires Unstuck(t)
    ensures Uncrossed(Replay(t, Ideal(t)))
  {
    BuyersAreBuyRows(t);
    var rows := Cursor(t, Buyers(t));
    CursorLists(t, Buyers(t));
    assert forall b :: b in Buyers(t) ==> !NoRow(rows, b);
    SettleUncrosses(t, rows);
  }

  lemma {:induction false} SettleNothing(t: Table, buyers: seq<Row>)
    requires forall i :: 0 <= i < |buyers| ==> Counterparty(t, buyers[i].req).None?
    ensures Settle(t, buyers) == []
    decreases |buyers|
  {
    if buyers == [] {
    } else {
      SettleNothing(t, buyers[1..]);
    }
  }

  lemma {:induction false} FirstCounterpartyTrades(t: Table, buyers: seq<Row>, i: nat)
    requires i < |buyers| && Counterparty(t, buyers[i].req).Some?
    ensures Settle(t, buyers) != []
    decreases |buyers|
  {
    if i == 0 || Counterparty(t, buyers[0].req).Some? {
    } else {
      FirstCounterpartyTrades(t, buyers[1..], i - 1);
    }
  }

  /** Exactly when a pass makes no trade at all: every buy request either has no offer, or asks
      for nothing and no offer covers even that. */
  lemma IdleIff(t: Table)
    ensures Ideal(t) == [] <==>
            forall b :: b in Buyers(t) ==> NoOffer(t, t[b]) || (t[b].amount <= 0.0 && Covering(t, t[b]) == {})
  {
    var rows := Cursor(t, Buyers(t));
    CursorLists(t, Buyers(t));
    forall b | b in Buyers(t)
      ensures Counterparty(t, t[b]).None? <==>
              NoOffer(t, t[b]) || (t[b].amount <= 0.0 && Covering(t, t[b]) == {})
      ensures Ideal(t) == [] ==> Counterparty(t, t[b]).None?
    {
      NoCounterpartyIff(t, t[b]);
      var i :| 0 <= i < |rows| && rows[i].id == b;
      if Counterparty(t, t[b]).Some? {
        FirstCounterpartyTrades(t, rows, i);
      }
    }
    if forall b :: b in Buyers(t) ==> Counterparty(t, t[b]).None? {
      SettleNothing(t, rows);
    }
  }

  /** A buy request for nothing stays crossed with a sell request for less than nothing:
      without positive amounts a pass need not uncross the book. */
  lemma StuckBuy()
    ensures var t := map[1 := Request(1, "USD/RUB", 0.0, 60.0, Buy, 0),
                         2 := Request(2, "USD/RUB", -1.0, 60.0, Sell, 1)];
            Ideal(t) == [] && !Uncrossed(t) && !Unstuck(t)
  {
    var t := map[1 := Request(1, "USD/RUB", 0.0, 60.0, Buy, 0), 2 := Request(2, "USD/RUB", -1.0, 60.0, Sell, 1)];
    assert Eligible(t[2], t[1]);
    assert Buyers(t) == {1} && Covering(t, t[1]) == {};
    IdleIff(t);
  }

  /** A pass right after a pass over a book without stuck pairs does nothing. */
  lemma SecondPassIsIdle(t: Table)
    requires Unstuck(t)
    ensures Ideal(Replay(t, Ideal(t))) == []
  {
    PassUncrosses(t);
    IdleIff(Replay(t, Ideal(t)));
  }

  /** A book with a stuck pair: the buy request for -1 and the offer of -2. */
  function StuckBook(): Table {
    map[1 := Request(1, "USD/RUB", -2.0, 60.0, Sell, 0),
        2 := Request(2, "USD/RUB", -1.0, 65.0, Buy, 1),
        3 := Request(3, "USD/RUB", -3.0, 61.0, Buy, 2)]
  }

  lemma StuckBookCursor()
    ensures var t := StuckBook(); Buyers(t) == {2, 3} && Cursor(t, {2, 3}) == [Row(2, t[2]), Row(3, t[3])]
  {
    var t := StuckBook();
    var rows := [Row(2, t[2]), Row(3, t[3])];
    assert IsListing(t, {2, 3}, rows) by {
      assert rows[0].id == 2 && rows[1].id == 3;
    }
    CursorLists(t, {2, 3});
    ListingUnique(t, {2, 3}, rows, Cursor(t, {2, 3}));
  }

  lemma StuckBookTrade()
    ensures var t := StuckBook(); Ideal(t) == [Trade(3, t[3], 1, t[1], -3.0)]
  {
    var t := StuckBook();
    var rows := [Row(2, t[2]), Row(3, t[3])];
    StuckBookCursor();
    NoCounterpartyIff(t, t[2]);
    assert Covering(t, t[3]) == {1};
    assert rows[1..] == [rows[1]] && [rows[1]][1..] == [];
    assert Settle(t, [rows[1]]) == [Trade(3, t[3], 1, t[1], -3.0)];
  }

  /** With a stuck pair a second pass may trade: here the first passes over the buy request for
      -1 and turns the offer of -2 into one of 1, and the second sells that to it. */
  lemma SecondPassMayTrade()
    ensures !Unstuck(StuckBook()) && Ideal(Replay(StuckBook(), Ideal(StuckBook()))) != []
  {
    var t := StuckBook();
    assert Eligible(t[1], t[2]);
    StuckBookTrade();
    var d := Trade(3, t[3], 1, t[1], -3.0);
    ReplaySingle(t, d);
    var u := Apply(t, d);
    assert 1 in Covering(u, u[2]) && 2 in Buyers(u);
    IdleIff(u);
  }

  // ----- Order of the trades and choice of the seller -----

  function BuyRow(d: Trade): Row {
    Row(d.buyId, d.buy)
  }

  function SellRow(d: Trade): Row {
    Row(d.sellId, d.sell)
  }

  /** A visit makes at most one trade, the buyer's own, before the rest are served. */
  lemma SettleStep(t: Table, buyers: seq<Row>) returns (first: seq<Trade>, u: Table)
    requires buyers != []
    ensures Settle(t, buyers) == first + Settle(u, buyers[1..])
    ensures first == [] || (first == [first[0]] && BuyRow(first[0]) == buyers[0])
  {
    var s := Counterparty(t, buyers[0].req);
    first, u := [], t;
    if s.Some? {
      var d := Deal(buyers[0], RowOf(t, s.value), buyers[0].req.amount);
      first, u := [d], Apply(t, d);
    }
  }

  lemma {:induction false} SettleOrigin(t: Table, buyers: seq<Row>, i: nat)
    requires i < |Settle(t, buyers)|
    ensures BuyRow(Settle(t, buyers)[i]) in buyers
    decreases |buyers|
  {
    var first, u := SettleStep(t, buyers);
    if i >= |first| {
      SettleOrigin(u, buyers[1..], i - |first|);
    }
  }

  lemma HeadIsAhead(buyers: seq<Row>, row: Row)
    requires Ascending(buyers) && buyers != [] && row in buyers[1..]
    ensures Ahead(buyers[0], row)
  {
    var k :| 0 <= k < |buyers[1..]| && buyers[1..][k] == row;
    assert buyers[k + 1] == row;
  }

  lemma TailAscends(rows: seq<Row>)
    requires Ascending(rows) && rows != []
    ensures Ascending(rows[1..])
  {
  }

  lemma {:induction false} SettleInOrder(t: Table, buyers: seq<Row>, i: nat, j: nat)
    requires Ascending(buyers) && i < j < |Settle(t, buyers)|
    ensures Ahead(BuyRow(Settle(t, buyers)[i]), BuyRow(Settle(t, buyers)[j]))
    decreases |buyers|
  {
    TailAscends(buyers);
    var first, u := SettleStep(t, buyers);
    if i < |first| {
      SettleOrigin(u, buyers[1..], j - |first|);
      HeadIsAhead(buyers, BuyRow(Settle(u, buyers[1..])[j - |first|]));
    } else {
      SettleInOrder(u, buyers[1..], i - |first|, j - |first|);
    }
  }

  /** `d` is the best trade for its buyer in `t`: the seller asks no more than the price paid;
      a seller covering the whole buy is taken if there is one, and then the cheapest and
      oldest of those; otherwise the cheapest and oldest of all. */
  ghost predicate BestChoice(t: Table, d: Trade) {
    && d.sellId in t && t[d.sellId] == d.sell && Eligible(d.sell, d.buy)
    && d.amount == (if d.buy.amount >= d.sell.amount then d.sell.amount else d.buy.amount)
    && forall s :: s in t && Eligible(t[s], d.buy) && s != d.sellId ==>
         if d.sell.amount >= d.buy.amount
         then t[s].amount >= d.buy.amount ==> AsksLess(SellRow(d), RowOf(t, s))
         else t[s].amount < d.buy.amount && AsksLess(SellRow(d), RowOf(t, s))
  }

  lemma CounterpartyIsBest(t: Table, buyer: Row)
    requires Counterparty(t, buyer.req).Some?
    ensures BestChoice(t, Deal(buyer, RowOf(t, Counterparty(t, buyer.req).value), buyer.req.amount))
  {
    var d := Deal(buyer, RowOf(t, Counterparty(t, buyer.req).value), buyer.req.amount);
    forall s | s in t && Eligible(t[s], d.buy) && s != d.sellId
      ensures AsksLess(SellRow(d), RowOf(t, s)) <==> Ahead(SellRow(d), RowOf(t, s))
    {
      AheadMeans(SellRow(d), RowOf(t, s));
    }
  }

  /** A sell request before which no other of those that would be sold to `b` is asking less. */
  ghost predicate IsCheapest(t: Table, b: Request, best: nat) {
    && best in t && Eligible(t[best], b)
    && forall s :: s in t && Eligible(t[s], b) && s != best ==> AsksLess(RowOf(t, best), RowOf(t, s))
  }

  lemma {:induction false} SettleChoosesBest(t: Table, buyers: seq<Row>, i: nat)
    requires i < |Settle(t, buyers)|
    ensures var ds := Settle(t, buyers); BestChoice(Replay(t, ds[..i]), ds[i])
    decreases |buyers|
  {
    var ds := Settle(t, buyers);
    var s := Counterparty(t, buyers[0].req);
    if s.None? {
      SettleChoosesBest(t, buyers[1..], i);
    } else if i == 0 {
      CounterpartyIsBest(t, buyers[0]);
    } else {
      SettleChoosesBest(Apply(t, ds[0]), buyers[1..], i - 1);
      assert ds[1..][..i - 1] == ds[..i][1..];
    }
  }

  /** Price-time priority: the trades of a failure-free pass are in strictly increasing
      (price desc, id asc) order of their buyers, and each buyer gets the best seller of the
      table as the earlier trades have left it. */
  lemma PriceTimePriority(t: Table, i: nat)
    requires i < |Ideal(t)|
    ensures BestChoice(Replay(t, Ideal(t)[..i]), Ideal(t)[i])
    ensures forall j :: i < j < |Ideal(t)| ==> BidsMore(BuyRow(Ideal(t)[i]), BuyRow(Ideal(t)[j]))
  {
    var rows := Cursor(t, Buyers(t));
    CursorLists(t, Buyers(t));
    BuyersAreBuyRows(t);
    SettleChoosesBest(t, rows, i);
    SettleOrigin(t, rows, i);
    forall j | i < j < |Ideal(t)| ensures BidsMore(BuyRow(Ideal(t)[i]), BuyRow(Ideal(t)[j])) {
      SettleInOrder(t, rows, i, j);
      SettleOrigin(t, rows, j);
      AheadMeans(BuyRow(Ideal(t)[i]), BuyRow(Ideal(t)[j]));
    }
  }

  /** A seller of a later trade was there before, under the same terms. */
  lemma {:induction false} SellerWasThere(t: Table, buyers: seq<Row>, i: nat)
    requires BuyRows(buyers) && Coherent(t, buyers) && i < |Settle(t, buyers)|
    ensures var d := Settle(t, buyers)[i];
            d.sellId in t && d.sell == t[d.sellId].(amount := d.sell.amount) && Eligible(d.sell, d.buy)
    decreases |buyers|
  {
    var s := Counterparty(t, buyers[0].req);
    if s.None? {
      SellerWasThere(t, buyers[1..], i);
    } else if i > 0 {
      var d := Deal(buyers[0], RowOf(t, s.value), buyers[0].req.amount);
      ApplyKeepsBuyers(t, buyers, d);
      SellerWasThere(Apply(t, d), buyers[1..], i - 1);
    }
  }

  /** A later trade of the pair is with an offer the survivor would have taken, were it not his own. */
  lemma SurvivorHadNoOffer(t: Table, buyers: seq<Row>, b: Row, i: nat)
    requires BuyRows(buyers) && Coherent(t, buyers) && NoOffer(t, b.req) && b.req.side.Buy?
    requires i < |Settle(t, buyers)| && Ahead(b, BuyRow(Settle(t, buyers)[i]))
    requires Settle(t, buyers)[i].buy.currency == b.req.currency
    ensures Settle(t, buyers)[i].sell.user == b.req.user
  {
    SellerWasThere(t, buyers, i);
    SettleOrigin(t, buyers, i);
    assert !Eligible(t[Settle(t, buyers)[i].sellId], b.req);
  }

  lemma BuyerDoesNotReturn(t: Table, buyers: seq<Row>)
    requires BuyRows(buyers) && Coherent(t, buyers) && buyers != []
    requires buyers[0].id in Replay(t, Settle(t, buyers))
    ensures Counterparty(t, buyers[0].req).None?
  {
    var ds := Settle(t, buyers);
    SettleIsLegal(t, buyers);
    if Counterparty(t, buyers[0].req).Some? {
      GoneForGood(Apply(t, ds[0]), ds[1..], buyers[0].id);
      assert false;
    }
  }

  /** The buyer `b` outlives the pass, although the i-th trade, of the same pair, is a later one's. */
  ghost predicate Overtaken(t: Table, buyers: seq<Row>, b: Row, i: nat) {
    && BuyRows(buyers) && Coherent(t, buyers) && Ascending(buyers) && Unstuck(t)
    && b in buyers && b.id in Replay(t, Settle(t, buyers))
    && i < |Settle(t, buyers)| && Ahead(b, BuyRow(Settle(t, buyers)[i]))
    && Settle(t, buyers)[i].buy.currency == b.req.currency
  }

  lemma OvertakenLater(t: Table, buyers: seq<Row>, b: Row, i: nat) returns (u: Table, j: nat)
    requires Overtaken(t, buyers, b, i) && buyers[0] != b
    ensures Overtaken(u, buyers[1..], b, j) && Settle(u, buyers[1..])[j] == Settle(t, buyers)[i]
  {
    var k :| 0 <= k < |buyers| && buyers[k] == b;
    assert buyers[1..][k - 1] == b;
    var s := Counterparty(t, buyers[0].req);
    u, j := t, i;
    if s.Some? {
      var d := Deal(buyers[0], RowOf(t, s.value), buyers[0].req.amount);
      assert Ahead(buyers[0], b);
      ApplyKeepsBuyers(t, buyers, d);
      TradeKeepsUnstuck(t, d);
      u, j := Apply(t, d), i - 1;
    }
  }

  lemma {:induction false} SurvivorsAreNotOvertaken(t: Table, buyers: seq<Row>, b: Row, i: nat)
    requires Overtaken(t, buyers, b, i)
    ensures Settle(t, buyers)[i].sell.user == b.req.user
    decreases |buyers|
  {
    if buyers[0] == b {
      BuyerDoesNotReturn(t, buyers);
      UnstuckSurvivorHasNoOffer(t, b.id);
      SurvivorHadNoOffer(t, buyers, b, i);
    } else {
      var u, j := OvertakenLater(t, buyers, b, i);
      SurvivorsAreNotOvertaken(u, buyers[1..], b, j);
    }
  }

  /** No priority inversion: if a buy request outlives a failure-free pass although a later
      one of the same pair traded, that trade's seller was the buyer himself. */
  lemma NoPriorityInversion(t: Table, b: nat, i: nat)
    requires Unstuck(t) && b in Buyers(t) && b in Replay(t, Ideal(t))
    requires i < |Ideal(t)| && Ideal(t)[i].buy.currency == t[b].currency
    requires BidsMore(RowOf(t, b), BuyRow(Ideal(t)[i]))
    ensures Ideal(t)[i].sell.user == t[b].user
  {
    BuyersAreBuyRows(t);
    var rows := Cursor(t, Buyers(t));
    CursorLists(t, Buyers(t));
    RowListed(t, Buyers(t), b);
    SettleOrigin(t, rows, i);
    AheadMeans(RowOf(t, b), BuyRow(Ideal(t)[i]));
    SurvivorsAreNotOvertaken(t, rows, RowOf(t, b), i);
  }
}
