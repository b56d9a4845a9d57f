/** A pass in which a failure costs the buyer more than the failed trade. */
module ShortFills {
  import opened Orders
  import opened Pairs
  import opened Trades
  import opened Ledger
  import opened Store
  import opened Matching
  import opened Replays

  const BUYER := Row(3, Request(3, "USD/RUB", 10.0, 60.0, Buy, 2))
  const SELLERS := [Row(1, Request(1, "USD/RUB", 6.0, 60.0, Sell, 0)),
                    Row(2, Request(2, "USD/RUB", 5.0, 60.0, Sell, 1))]

  /** Three users with both wallets each, and their requests. */
  const BOOK := Db(
    map[1 := SELLERS[0].req, 2 := SELLERS[1].req, 3 := BUYER.req],
    [WalletRow(1, "USD"), WalletRow(1, "RUB"), WalletRow(2, "USD"), WalletRow(2, "RUB"),
     WalletRow(3, "USD"), WalletRow(3, "RUB")],
    [], [UserRow("ann", "v"), UserRow("bob", "v"), UserRow("cid", "v")],
    [SELLERS[0].req, SELLERS[1].req, BUYER.req], [], {}, 0)

  /** The book at any time. */
  ghost predicate IsBook(d: Db) {
    d == BOOK.(clock := d.clock)
  }

  /** The operation at `clock` fails and no other. */
  ghost predicate FailsOnce(f: Oracle, clock: nat) {
    forall n: nat :: f(n) <==> n == clock
  }

  lemma Wallets(user: nat)
    requires 1 <= user <= 3
    ensures FirstWallet(BOOK.wallets, user, "USD").Some? && FirstWallet(BOOK.wallets, user, "RUB").Some?
  {
    assert BOOK.wallets[2 * user - 2] == WalletRow(user, "USD") && BOOK.wallets[2 * user - 1] == WalletRow(user, "RUB");
  }

  lemma FirstPaymentFails(d: Db, f: Oracle, b: Party, s: Party, cost: real)
    requires d.wallets == BOOK.wallets && f(d.clock)
    requires b == Party(3, 3, 10.0, "USD") && s == Party(1, 1, 6.0, "RUB")
    ensures Pay(d, f, b, s, 6.0, cost) == Writing(d.Tick(1), Refused)
  {
    Wallets(3);
    assert FirstWallet(d.wallets, 3, "RUB").Some?;
    assert Post(Writing(d, Written), f, FirstWallet(d.wallets, 3, "RUB"), cost, Withdraw).so.Refused?;
  }

  lemma RefusedStep(d: Db, f: Oracle, buyer: Row, seller: Row, left: real, b: Party, s: Party, amount: real, cost: real)
    requires IsPair(buyer.req.currency) && !f(d.clock) && !f(d.clock + 1) && !f(d.clock + 2)
    requires b == BuyingParty(buyer, left) && s == SellingParty(buyer, seller)
    requires amount == Lesser(b.amount, s.amount) && cost == Cost(amount, buyer.req.price)
    requires Pay(d.Tick(3), f, b, s, amount, cost) == Writing(d.Tick(4), Refused)
    ensures Try(d, f, buyer, seller, left) == (d.Tick(4), Next)
  {
    assert d.Tick(1).Tick(2) == d.Tick(3);
  }

  /** The first insertion of the step with the first seller fails; the step is rolled back. */
  lemma FirstStepFails(d: Db, f: Oracle)
    requires IsBook(d) && FailsOnce(f, d.clock + 3)
    ensures Try(d, f, BUYER, SELLERS[0], 10.0) == (d.Tick(4), Next)
  {
    UsdRub();
    var b, s := Party(3, 3, 10.0, "USD"), Party(1, 1, 6.0, "RUB");
    FirstPaymentFails(d.Tick(3), f, b, s, Cost(6.0, 60.0));
    RefusedStep(d, f, BUYER, SELLERS[0], 10.0, b, s, 6.0, Cost(6.0, 60.0));
  }

  lemma SecondStepTrades(d: Db, f: Oracle)
    requires IsBook(d) && ReliableFrom(f, d.clock)
    ensures var (e, flow) := Try(d, f, BUYER, SELLERS[1], 4.0); flow.Next? && e.trades != []
  {
    UsdRub();
    Wallets(2);
    Wallets(3);
    StepCompletes(d, f, BUYER, SELLERS[1], 4.0);
    StepIsDefined(d, f, BUYER, SELLERS[1], 4.0);
  }

  lemma NobodyCovers()
    ensures Covering(BOOK.requests, BUYER.req) == {} && Smaller(BOOK.requests, BUYER.req) == {1, 2}
  {
  }

  lemma SellersListed()
    ensures Covering(BOOK.requests, BUYER.req) == {}
    ensures SELLERS == Cursor(BOOK.requests, Smaller(BOOK.requests, BUYER.req))
  {
    NobodyCovers();
    assert IsListing(BOOK.requests, {1, 2}, SELLERS) by {
      assert SELLERS[0].id == 1 && SELLERS[1].id == 2;
    }
    ListingIsCursor(BOOK.requests, {1, 2}, SELLERS);
  }

  lemma BuyersListed()
    ensures Cursor(BOOK.requests, Buyers(BOOK.requests)) == [BUYER]
  {
    var t := BOOK.requests;
    assert Buyers(t) == {3} && [BUYER][0].id == 3;
    assert IsListing(t, {3}, [BUYER]);
    ListingIsCursor(t, {3}, [BUYER]);
  }

  /** If the step with the first of two sellers changes nothing, the loop goes on to the second. */
  lemma SecondSellerTrades(
    d: Db, e: Db, f: Oracle, buyer: Row, sellers: seq<Row>, next: Row, left: real, rest: real)
    requires !f(d.clock) && left > 0.0 && |sellers| == 2 && sellers[1] == next && rest == Remaining(left, sellers[0])
    requires Try(d.Tick(1), f, buyer, sellers[0], left) == (e, Next) && e.trades == []
    requires buyer.req.side.Buy? && Fresh(e.requests, buyer) && Coherent(e.requests, [next])
    requires SellersFor(buyer, [next]) && !f(e.clock) && rest > 0.0
    requires var (g, flow) := Try(e.Tick(1), f, buyer, next, rest); flow.Next? && g.trades != []
    ensures Partial(d, f, buyer, sellers, left).0.trades == [Deal(buyer, next, rest)]
  {
    assert sellers[1..] == [next];
    PartialUnfolds(d, f, buyer, sellers, left, (e, Next));
    PartialAfterTrade(e, f, buyer, [next], rest);
  }

  lemma SecondSellerFits(d: Db)
    requires IsBook(d)
    ensures Fresh(d.requests, BUYER) && Coherent(d.requests, [SELLERS[1]]) && SellersFor(BUYER, [SELLERS[1]])
  {
  }

  lemma LoopFillsShort(d: Db, f: Oracle)
    requires IsBook(d) && FailsOnce(f, d.clock + 4)
    ensures Partial(d, f, BUYER, SELLERS, 10.0).0.trades == [Deal(BUYER, SELLERS[1], 4.0)]
  {
    var e := d.Tick(1).Tick(4);
    FirstStepFails(d.Tick(1), f);
    SecondStepTrades(e.Tick(1), f);
    SecondSellerFits(e);
    SecondSellerTrades(d, e, f, BUYER, SELLERS, SELLERS[1], 10.0, 4.0);
  }

  lemma PassOfOne(d: Db, f: Oracle, buyer: Row, sellers: seq<Row>)
    requires Cursor(d.requests, Buyers(d.requests)) == [buyer]
    requires Covering(d.requests, buyer.req) == {} && Cursor(d.requests, Smaller(d.requests, buyer.req)) == sellers
    requires !f(d.clock) && !f(d.clock + 1)
    ensures ProcessRequests(d, f).0.trades == Partial(d.Tick(2), f, buyer, sellers, buyer.req.amount).0.trades
  {
    var u := d.Tick(1);
    assert Visit(u, f, buyer) == Partial(d.Tick(2), f, buyer, sellers, buyer.req.amount);
    PassOfOneVisit(d, f, [buyer], Visit(u, f, buyer));
  }

  lemma PassOfOneVisit(d: Db, f: Oracle, buyers: seq<Row>, result: (Db, Flow))
    requires |buyers| == 1 && !f(d.clock) && result == Visit(d.Tick(1), f, buyers[0])
    ensures PassFrom(d, f, buyers).0.trades == result.0.trades
  {
    assert buyers[1..] == [];
    assert PassFrom(result.0, f, []).0.trades == result.0.trades;
  }

  lemma OneTradeCommitted(d: Db, f: Oracle, t: Trade)
    requires d.trades == [] && ProcessRequests(d, f).0.trades == [t]
    ensures ProcessRequests(d, f).0.requests == Apply(d.requests, t)
  {
    PassReplays(d, f);
    assert Committed(d, f) == [t];
    ReplaySingle(d.requests, t);
  }

  /** The buyer wants 10; the sellers offer 6 and 5.  The first insertion of the step with the
      first of them fails, and then the pass commits one trade, of only 4 of the second's 5; the
      buyer's request is gone. */
  lemma RolledBackSellerStillCounts(d: Db, f: Oracle)
    requires IsBook(d) && FailsOnce(f, d.clock + 6)
    ensures var e := ProcessRequests(d, f).0;
            && e.trades == [Trade(3, BUYER.req, 2, SELLERS[1].req, 4.0)]
            && e.requests == map[1 := SELLERS[0].req, 2 := SELLERS[1].req.(amount := 1.0)]
  {
    SellersListed();
    BuyersListed();
    LoopFillsShort(d.Tick(2), f);
    PassOfOne(d, f, BUYER, SELLERS);
    OneTradeCommitted(d, f, Deal(BUYER, SELLERS[1], 4.0));
    AfterTheTrade();
  }

  lemma AfterTheTrade()
    ensures var t := Deal(BUYER, SELLERS[1], 4.0);
            && t == Trade(3, BUYER.req, 2, SELLERS[1].req, 4.0)
            && Apply(BOOK.requests, t) == map[1 := SELLERS[0].req, 2 := SELLERS[1].req.(amount := 1.0)]
  {
  }
}
