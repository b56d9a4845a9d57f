/** Two documented trading rules that the matching pass keeps only under a condition: when the
    cheapest seller is chosen, and when a buy request gets all it asks for. */
module Rules {
  import opened Orders
  import opened Trades
  import opened Store
  import opened Matching
  import opened Replays
  import opened Settlement
  import opened FailureFree

  lemma FirstOfPart(t: Table, ids: set<nat>, part: set<nat>, best: nat)
    requires best in part && part <= ids <= t.Keys
    requires forall s :: s in ids && s != best ==> Ahead(RowOf(t, best), RowOf(t, s))
    ensures First(t, part) == best
  {
  }

  /** The best-priced, oldest seller is chosen exactly when he can fill the whole buy request,
      or nobody can and it is for something. */
  lemma CheapestIsChosenIff(t: Table, b: Request, best: nat)
    requires IsCheapest(t, b, best)
    ensures Counterparty(t, b) == Some(best) <==>
            t[best].amount >= b.amount || (Covering(t, b) == {} && b.amount > 0.0)
  {
    var offers := Covering(t, b) + Smaller(t, b);
    forall s | s in offers && s != best ensures Ahead(RowOf(t, best), RowOf(t, s)) {
      AheadMeans(RowOf(t, best), RowOf(t, s));
    }
    if t[best].amount >= b.amount {
      FirstOfPart(t, offers, Covering(t, b), best);
    } else {
      FirstOfPart(t, offers, Smaller(t, b), best);
    }
  }

  lemma SomebodyIsCheapest(t: Table, b: Request, s: nat) returns (best: nat)
    requires s in t && Eligible(t[s], b)
    ensures IsCheapest(t, b, best)
  {
    var offers := set s | s in t && Eligible(t[s], b);
    assert s in offers;
    best := First(t, offers);
    forall s | s in offers && s != best ensures AsksLess(RowOf(t, best), RowOf(t, s)) {
      AheadMeans(RowOf(t, best), RowOf(t, s));
    }
  }

  lemma BestIsCheapestIff(t: Table, d: Trade, best: nat)
    requires BestChoice(t, d) && IsCheapest(t, d.buy, best)
    ensures d.sellId == best <==> t[best].amount >= d.buy.amount || NobodyCovers(t, d.buy)
  {
    if best != d.sellId {
      assert AsksLess(RowOf(t, best), SellRow(d));
    }
  }

  /** Every offer is for less than the buy request wants. */
  ghost predicate NobodyCovers(t: Table, b: Request) {
    forall s :: s in t && Eligible(t[s], b) ==> t[s].amount < b.amount
  }

  /** Of the trades that a failure-free pass commits, those with the cheapest, oldest seller are
      exactly those where he could fill the whole buy request or nobody could. */
  lemma CommittedWithCheapestIff(d: Db, f: Oracle, i: nat) returns (best: nat)
    requires Reliable(f) && !ProcessRequests(d, f).1.Undefined? && i < |Committed(d, f)|
    ensures var ts := Committed(d, f);
            var t, b := Replay(d.requests, ts[..i]), ts[i].buy;
            && IsCheapest(t, b, best)
            && (ts[i].sellId == best <==> t[best].amount >= b.amount || NobodyCovers(t, b))
  {
    var x, t := Committed(d, f)[i], Replay(d.requests, Committed(d, f)[..i]);
    PassIsIdeal(d, f);
    PriceTimePriority(d.requests, i);
    best := SomebodyIsCheapest(t, x.buy, x.sellId);
    BestIsCheapestIff(t, x, best);
  }

  /** A dearer seller is preferred to a cheaper one too small for the whole buy request. */
  lemma DearerSellerChosen()
    ensures var t := map[1 := Request(1, "USD/RUB", 5.0, 60.0, Sell, 0),
                         2 := Request(2, "USD/RUB", 20.0, 61.0, Sell, 1)];
            Counterparty(t, Request(3, "USD/RUB", 10.0, 65.0, Buy, 2)) == Some(2)
  {
    var t := map[1 := Request(1, "USD/RUB", 5.0, 60.0, Sell, 0), 2 := Request(2, "USD/RUB", 20.0, 61.0, Sell, 1)];
    assert Covering(t, Request(3, "USD/RUB", 10.0, 65.0, Buy, 2)) == {2};
  }

  /** A buy request that trades is filled whole exactly when some seller covers it; otherwise
      the rest of it is dropped with its row. */
  lemma BuyIsFilledIff(t: Table, buyer: Row)
    requires buyer.id in t && t[buyer.id] == buyer.req && buyer.req.side.Buy?
    requires Counterparty(t, buyer.req).Some?
    ensures var d := Deal(buyer, RowOf(t, Counterparty(t, buyer.req).value), buyer.req.amount);
            && (d.amount == buyer.req.amount <==> Covering(t, buyer.req) != {})
            && buyer.id !in Apply(t, d)
  {
  }

  /** A buy request for 10 meets an offer of 4: it gets 4, and then both are gone. */
  lemma BuyRemainderIsDropped()
    ensures var t := map[1 := Request(1, "USD/RUB", 10.0, 60.0, Buy, 0),
                         2 := Request(2, "USD/RUB", 4.0, 60.0, Sell, 1)];
            Ideal(t) == [Trade(1, t[1], 2, t[2], 4.0)] && Replay(t, Ideal(t)) == map[]
  {
    var t := map[1 := Request(1, "USD/RUB", 10.0, 60.0, Buy, 0), 2 := Request(2, "USD/RUB", 4.0, 60.0, Sell, 1)];
    assert Buyers(t) == {1};
    assert Cursor(t, {1}) == [Row(1, t[1])] by {
      assert {1} - {First(t, {1})} == {};
    }
    assert Covering(t, t[1]) == {} && Smaller(t, t[1]) == {2};
    var d := Deal(Row(1, t[1]), RowOf(t, 2), 10.0);
    assert Settle(Apply(t, d), []) == [];
    assert [Row(1, t[1])][1..] == [];
    assert Ideal(t) == [d];
    ReplaySingle(t, d);
    assert Apply(t, d) == map[];
  }
}
