/** Whatever fails, a matching pass leaves the replay of the trades it committed. */
module Replays {
  import opened Orders
  import opened Trades
  import opened Ledger
  import opened Store
  import opened Matching

  /** The trades `ts` lead from the requests of `d` to those of `e`, each of them legal when it
      was made, and they are what `e` logs beyond `d`. */
  ghost predicate Traded(d: Db, e: Db, ts: seq<Trade>) {
    && AllLegal(d.requests, ts)
    && e.requests == Replay(d.requests, ts)
    && e.trades == d.trades + ts
  }

  /** The transaction log of `e` is that of `d` and then the four rows of each of `ts`. */
  ghost predicate Booked(d: Db, e: Db, ts: seq<Trade>) {
    && AllPayable(d.wallets, ts)
    && e.transactions == d.transactions + Journal(d.wallets, ts)
  }

  /** `e` is `d` after the trades `ts`, and nothing else has changed. */
  ghost predicate ReplayBy(d: Db, e: Db, ts: seq<Trade>) {
    && Traded(d, e, ts)
    && Booked(d, e, ts)
    && d.clock <= e.clock
    && e == d.(requests := e.requests, transactions := e.transactions, trades := e.trades, clock := e.clock)
  }

  lemma ReplayNothing(d: Db, e: Db)
    requires d.Same(e)
    ensures ReplayBy(d, e, [])
  {
  }

  lemma NothingReplayed(d: Db, e: Db)
    requires ReplayBy(d, e, [])
    ensures d.Same(e)
  {
  }

  lemma ReplayOne(d: Db, e: Db, t: Trade)
    requires Legal(d.requests, t) && Payable(d.wallets, t) && Commit(d, t).Same(e)
    ensures ReplayBy(d, e, [t])
  {
  }

  lemma TradedThen(d: Db, e: Db, g: Db, a: seq<Trade>, b: seq<Trade>)
    requires Traded(d, e, a) && Traded(e, g, b)
    ensures Traded(d, g, a + b)
  {
    ReplayConcat(d.requests, a, b);
  }

  lemma BookedThen(d: Db, e: Db, g: Db, a: seq<Trade>, b: seq<Trade>)
    requires Booked(d, e, a) && Booked(e, g, b) && e.wallets == d.wallets
    ensures Booked(d, g, a + b)
  {
    JournalConcat(d.wallets, a, b);
    Associative(d.transactions, Journal(d.wallets, a), Journal(d.wallets, b));
  }

  lemma ReplayThen(d: Db, e: Db, g: Db, a: seq<Trade>, b: seq<Trade>)
    requires ReplayBy(d, e, a) && ReplayBy(e, g, b)
    ensures ReplayBy(d, g, a + b)
  {
    TradedThen(d, e, g, a, b);
    BookedThen(d, e, g, a, b);
  }

  lemma ReplayAfterNothing(d: Db, e: Db, g: Db, ts: seq<Trade>)
    requires d.Same(e) && ReplayBy(e, g, ts)
    ensures ReplayBy(d, g, ts)
  {
  }

  lemma ReplayBeforeNothing(d: Db, e: Db, g: Db, ts: seq<Trade>)
    requires ReplayBy(d, e, ts) && e.Same(g)
    ensures ReplayBy(d, g, ts)
  {
  }

  // ----- Cursors stay truthful -----

  /** Every row the cursor holds is in the table, exactly as the cursor read it. */
  ghost predicate Coherent(t: Table, rows: seq<Row>) {
    forall i :: 0 <= i < |rows| ==> rows[i].id in t && t[rows[i].id] == rows[i].req
  }

  ghost predicate Distinct(rows: seq<Row>) {
    forall i, j :: 0 <= i < j < |rows| ==> rows[i].id != rows[j].id
  }

  lemma CursorCoherent(t: Table, ids: set<nat>)
    requires ids <= t.Keys
    ensures Coherent(t, Cursor(t, ids)) && Distinct(Cursor(t, ids))
  {
    var rows := Cursor(t, ids);
    CursorLists(t, ids);
    forall i, j | 0 <= i < j < |rows| ensures rows[i].id != rows[j].id {
      assert Ahead(rows[i], rows[j]);
    }
  }

  /** The sellers the partial-fill loop runs over. */
  ghost predicate SellersFor(buyer: Row, sellers: seq<Row>) {
    && Distinct(sellers)
    && forall i :: 0 <= i < |sellers| ==>
         && sellers[i].id != buyer.id
         && Eligible(sellers[i].req, buyer.req)
         && sellers[i].req.amount < buyer.req.amount
  }

  /** Trying one seller leaves the others as they are. */
  lemma TryKeepsSellers(d: Db, f: Oracle, buyer: Row, sellers: seq<Row>, left: real)
    requires SellersFor(buyer, sellers) && sellers != []
    requires Fresh(d.requests, buyer) && Coherent(d.requests, sellers)
    ensures var e := Try(d, f, buyer, sellers[0], left).0;
            && SellersFor(buyer, sellers[1..]) && Fresh(e.requests, buyer) && Coherent(e.requests, sellers[1..])
            && e.wallets == d.wallets
            && (e.trades == d.trades ==> e.requests == d.requests)
            && (e.trades != d.trades ==>
                  buyer.id !in e.requests && e.trades == d.trades + [Deal(buyer, sellers[0], left)])
  {
    StepIsAtomic(d, f, buyer, sellers[0], left);
  }

  lemma TryReplays(d: Db, f: Oracle, buyer: Row, seller: Row, left: real) returns (ts: seq<Trade>)
    requires buyer.id != seller.id && buyer.req.side.Buy? && Eligible(seller.req, buyer.req)
    requires Fresh(d.requests, buyer) && Fresh(d.requests, seller)
    requires Lesser(left, seller.req.amount) <= buyer.req.amount
    requires buyer.req.amount > 0.0 ==> left > 0.0
    ensures ReplayBy(d, Try(d, f, buyer, seller, left).0, ts)
    ensures ts == [] || (ts == [Deal(buyer, seller, left)] && Try(d, f, buyer, seller, left).1.Next?)
  {
    StepIsAtomic(d, f, buyer, seller, left);
    var (e, flow) := Try(d, f, buyer, seller, left);
    if flow.Next? && e.trades != d.trades {
      ts := [Deal(buyer, seller, left)];
      ReplayOne(d, e, ts[0]);
    } else {
      ts := [];
      ReplayNothing(d, e);
    }
  }

  /** Once the buyer is gone, the rest of the partial-fill loop restores what it writes. */
  lemma {:induction false} PartialWithoutBuyer(d: Db, f: Oracle, buyer: Row, sellers: seq<Row>, left: real)
    requires buyer.id !in d.requests && SellersFor(buyer, sellers)
    requires forall i :: 0 <= i < |sellers| ==> Fresh(d.requests, sellers[i])
    ensures d.Same(Partial(d, f, buyer, sellers, left).0)
    ensures Reliable(f) ==> var flow := Partial(d, f, buyer, sellers, left).1; flow.Next? || flow.Undefined?
    decreases |sellers|
  {
    if f(d.clock) || sellers == [] || left <= 0.0 {
    } else {
      StepIsAtomic(d.Tick(1), f, buyer, sellers[0], left);
      if Reliable(f) {
        StepCompletes(d.Tick(1), f, buyer, sellers[0], left);
      }
      var (e, flow) := Try(d.Tick(1), f, buyer, sellers[0], left);
      if flow.Next? {
        PartialWithoutBuyer(e, f, buyer, sellers[1..], Remaining(left, sellers[0]));
      }
    }
  }

  /** Once the first seller has traded, the whole loop has done what that one step did. */
  lemma PartialAfterTrade(d: Db, f: Oracle, buyer: Row, sellers: seq<Row>, left: real)
    requires buyer.req.side.Buy? && Fresh(d.requests, buyer)
    requires Coherent(d.requests, sellers) && SellersFor(buyer, sellers)
    requires !f(d.clock) && sellers != [] && left > 0.0
    ensures var (e, flow) := Try(d.Tick(1), f, buyer, sellers[0], left);
            flow.Next? && e.trades != d.trades ==>
              ReplayBy(d, Partial(d, f, buyer, sellers, left).0, [Deal(buyer, sellers[0], left)])
  {
    var t := Deal(buyer, sellers[0], left);
    var (e, flow) := Try(d.Tick(1), f, buyer, sellers[0], left);
    if flow.Next? && e.trades != d.trades {
      StepIsAtomic(d.Tick(1), f, buyer, sellers[0], left);
      ReplayOne(d.Tick(1), e, t);
      ReplayAfterNothing(d, d.Tick(1), e, [t]);
      PartialWithoutBuyer(e, f, buyer, sellers[1..], Remaining(left, sellers[0]));
      ReplayBeforeNothing(d, e, Partial(e, f, buyer, sellers[1..], Remaining(left, sellers[0])).0, [t]);
    }
  }

  /** One iteration of the partial-fill loop ends it, trades, or goes on as if never made. */
  datatype Turn = LastTurn | TradingTurn | IdleTurn(later: Db)

  lemma PartialTurn(d: Db, f: Oracle, buyer: Row, sellers: seq<Row>, left: real)
    returns (turn: Turn)
    requires buyer.req.side.Buy? && Fresh(d.requests, buyer)
    requires Coherent(d.requests, sellers) && SellersFor(buyer, sellers)
    ensures var end := Partial(d, f, buyer, sellers, left).0;
            match turn
            case LastTurn => d.Same(end)
            case TradingTurn => sellers != [] && ReplayBy(d, end, [Deal(buyer, sellers[0], left)])
            case IdleTurn(e) =>
              && sellers != [] && d.Same(e) && SellersFor(buyer, sellers[1..])
              && end == Partial(e, f, buyer, sellers[1..], Remaining(left, sellers[0])).0
  {
    if f(d.clock) || sellers == [] || left <= 0.0 {
      turn := LastTurn;
    } else {
      StepIsAtomic(d.Tick(1), f, buyer, sellers[0], left);
      PartialAfterTrade(d, f, buyer, sellers, left);
      var (e, flow) := Try(d.Tick(1), f, buyer, sellers[0], left);
      turn := if !flow.Next? then LastTurn else if e.trades != d.trades then TradingTurn else IdleTurn(e);
    }
  }

  /** The trade, if any, is with the i-th seller, whom the buyer asks only for what the sellers
      before would have left. */
  ghost predicate LoopTrade(buyer: Row, sellers: seq<Row>, left: real, ts: seq<Trade>, i: nat) {
    ts == [] || (i < |sellers| && ts == [Deal(buyer, sellers[i], left - Amounts(sellers[..i]))])
  }

  lemma LoopTradeSkips(buyer: Row, sellers: seq<Row>, left: real, ts: seq<Trade>, i: nat)
    requires sellers != [] && LoopTrade(buyer, sellers[1..], Remaining(left, sellers[0]), ts, i)
    ensures LoopTrade(buyer, sellers, left, ts, i + 1)
  {
    if ts != [] {
      assert sellers[..i + 1][1..] == sellers[1..][..i];
    }
  }

  lemma IdleTurnReplays(
    d: Db, e: Db, end: Db, buyer: Row, sellers: seq<Row>, left: real, ts: seq<Trade>, i: nat)
    requires sellers != [] && d.Same(e) && ReplayBy(e, end, ts)
    requires LoopTrade(buyer, sellers[1..], Remaining(left, sellers[0]), ts, i)
    ensures ReplayBy(d, end, ts) && LoopTrade(buyer, sellers, left, ts, i + 1)
  {
    ReplayAfterNothing(d, e, end, ts);
    LoopTradeSkips(buyer, sellers, left, ts, i);
  }

  /** The partial-fill loop commits at most one trade, under any failures.  A seller whose step
      was rolled back still counts against what the buyer asks of the next. */
  lemma {:induction false} PartialReplays(d: Db, f: Oracle, buyer: Row, sellers: seq<Row>, left: real)
    returns (ts: seq<Trade>, i: nat)
    requires buyer.req.side.Buy? && Fresh(d.requests, buyer)
    requires Coherent(d.requests, sellers) && SellersFor(buyer, sellers)
    ensures ReplayBy(d, Partial(d, f, buyer, sellers, left).0, ts)
    ensures LoopTrade(buyer, sellers, left, ts, i)
    decreases |sellers|
  {
    ts, i := [], 0;
    var turn := PartialTurn(d, f, buyer, sellers, left);
    var end := Partial(d, f, buyer, sellers, left).0;
    match turn
    case LastTurn => ReplayNothing(d, end);
    case TradingTurn => ts := [Deal(buyer, sellers[0], left)];
    case IdleTurn(e) =>
      ts, i := PartialReplays(e, f, buyer, sellers[1..], Remaining(left, sellers[0]));
      IdleTurnReplays(d, e, end, buyer, sellers, left, ts, i);
      i := i + 1;
  }

  lemma SmallerSellers(t: Table, buyer: Row)
    requires buyer.id in t && t[buyer.id] == buyer.req && buyer.req.side.Buy?
    ensures var rows := Cursor(t, Smaller(t, buyer.req));
            SellersFor(buyer, rows) && Coherent(t, rows)
  {
    var rows := Cursor(t, Smaller(t, buyer.req));
    CursorCoherent(t, Smaller(t, buyer.req));
    CursorLists(t, Smaller(t, buyer.req));
    assert forall i :: 0 <= i < |rows| ==> rows[i].id in Smaller(t, buyer.req);
  }

  lemma CoveredVisitReplays(d: Db, f: Oracle, buyer: Row) returns (ts: seq<Trade>)
    requires buyer.req.side.Buy? && buyer.id in d.requests && d.requests[buyer.id] == buyer.req
    requires !f(d.clock) && Covering(d.requests, buyer.req) != {}
    ensures ReplayBy(d, Visit(d, f, buyer).0, ts)
    ensures |ts| <= 1 && (|ts| == 1 ==> ts[0].buyId == buyer.id)
  {
    var s := First(d.requests, Covering(d.requests, buyer.req));
    ts := TryReplays(d.Tick(1), f, buyer, RowOf(d.requests, s), buyer.req.amount);
    ReplayAfterNothing(d, d.Tick(1), Visit(d, f, buyer).0, ts);
  }

  lemma PartialVisitReplays(d: Db, f: Oracle, buyer: Row) returns (ts: seq<Trade>)
    requires buyer.req.side.Buy? && buyer.id in d.requests && d.requests[buyer.id] == buyer.req
    requires !f(d.clock) && Covering(d.requests, buyer.req) == {}
    ensures ReplayBy(d, Visit(d, f, buyer).0, ts)
    ensures |ts| <= 1 && (|ts| == 1 ==> ts[0].buyId == buyer.id)
  {
    SmallerSellers(d.requests, buyer);
    var i;
    ts, i := PartialReplays(
      d.Tick(1), f, buyer, Cursor(d.requests, Smaller(d.requests, buyer.req)), buyer.req.amount);
    ReplayAfterNothing(d, d.Tick(1), Visit(d, f, buyer).0, ts);
  }

  /** The body of the outer loop commits at most one trade, and it is this buyer's. */
  lemma VisitReplays(d: Db, f: Oracle, buyer: Row) returns (ts: seq<Trade>)
    requires buyer.req.side.Buy? && buyer.id in d.requests && d.requests[buyer.id] == buyer.req
    ensures ReplayBy(d, Visit(d, f, buyer).0, ts)
    ensures |ts| <= 1 && (|ts| == 1 ==> ts[0].buyId == buyer.id)
  {
    if f(d.clock) {
      ts := [];
      ReplayNothing(d, d.Tick(1));
    } else if Covering(d.requests, buyer.req) != {} {
      ts := CoveredVisitReplays(d, f, buyer);
    } else {
      ts := PartialVisitReplays(d, f, buyer);
    }
  }

  ghost predicate BuyRows(rows: seq<Row>) {
    Distinct(rows) && forall i :: 0 <= i < |rows| ==> rows[i].req.side.Buy?
  }

  lemma BuyersAreBuyRows(t: Table)
    ensures BuyRows(Cursor(t, Buyers(t))) && Coherent(t, Cursor(t, Buyers(t)))
  {
    CursorCoherent(t, Buyers(t));
    CursorLists(t, Buyers(t));
  }

  /** A trade touches its own buyer and a seller, so no buyer still to be visited. */
  lemma VisitKeepsCursor(d: Db, e: Db, buyers: seq<Row>, ts: seq<Trade>)
    requires buyers != [] && BuyRows(buyers) && Coherent(d.requests, buyers)
    requires ReplayBy(d, e, ts) && |ts| <= 1 && (|ts| == 1 ==> ts[0].buyId == buyers[0].id)
    ensures Coherent(e.requests, buyers[1..])
  {
    if |ts| == 1 {
      assert e.requests == Apply(d.requests, ts[0]) by { ReplaySingle(d.requests, ts[0]); assert ts == [ts[0]]; }
      forall i | 1 <= i < |buyers| ensures buyers[i].id in e.requests && e.requests[buyers[i].id] == buyers[i].req {
        assert buyers[i].req.side.Buy? && ts[0].sell.side.Sell?;
      }
    }
  }

  /** What one visit leaves for the next, without its ledger. */
  lemma VisitLeaves(d: Db, f: Oracle, buyers: seq<Row>) returns (ts: seq<Trade>)
    requires buyers != [] && BuyRows(buyers) && Coherent(d.requests, buyers)
    ensures var e := Visit(d.Tick(1), f, buyers[0]).0;
            && BuyRows(buyers[1..]) && Coherent(e.requests, buyers[1..])
            && e.wallets == d.wallets && e.trades == d.trades + ts
            && (ts == [] || (ts == [ts[0]] && Legal(d.requests, ts[0])))
            && e.requests == if ts == [] then d.requests else Apply(d.requests, ts[0])
  {
    ts := VisitReplays(d.Tick(1), f, buyers[0]);
    VisitKeepsCursor(d.Tick(1), Visit(d.Tick(1), f, buyers[0]).0, buyers, ts);
    if |ts| == 1 {
      assert ts == [ts[0]];
      ReplaySingle(d.requests, ts[0]);
    }
  }

  lemma {:induction false} PassFromReplays(d: Db, f: Oracle, buyers: seq<Row>) returns (ts: seq<Trade>)
    requires BuyRows(buyers) && Coherent(d.requests, buyers)
    ensures ReplayBy(d, PassFrom(d, f, buyers).0, ts)
    decreases |buyers|
  {
    var u := d.Tick(1);
    ReplayNothing(d, u);
    ts := [];
    if f(d.clock) || buyers == [] {
    } else {
      var (e, flow) := Visit(u, f, buyers[0]);
      ts := VisitReplays(u, f, buyers[0]);
      VisitKeepsCursor(u, e, buyers, ts);
      ReplayAfterNothing(d, u, e, ts);
      if flow.Next? {
        var more := PassFromReplays(e, f, buyers[1..]);
        ReplayThen(d, e, PassFrom(e, f, buyers[1..]).0, ts, more);
        ts := ts + more;
      }
    }
  }

  /** The trades a pass commits, as it logs them. */
  ghost function Committed(d: Db, f: Oracle): (ts: seq<Trade>)
    ensures ReplayBy(d, ProcessRequests(d, f).0, ts)
  {
    assert exists ts :: ReplayBy(d, ProcessRequests(d, f).0, ts) by {
      BuyersAreBuyRows(d.requests);
      var ts := PassFromReplays(d, f, Cursor(d.requests, Buyers(d.requests)));
      assert ReplayBy(d, ProcessRequests(d, f).0, ts);
    }
    var ts :| ReplayBy(d, ProcessRequests(d, f).0, ts);
    ts
  }

  /** Whatever fails during a pass, the requests it leaves are the replay of its trades, all
      legal; the log grows by the four rows of each trade and nothing else; and every trade
      uses up exactly one buy request, which bounds their number. */
  lemma PassReplays(d: Db, f: Oracle)
    ensures var e := ProcessRequests(d, f).0;
            var ts := Committed(d, f);
            && e.trades == d.trades + ts
            && AllLegal(d.requests, ts) && AllPayable(d.wallets, ts)
            && e.requests == Replay(d.requests, ts)
            && e.transactions == d.transactions + Journal(d.wallets, ts)
            && |e.transactions| == |d.transactions| + 4 * |ts|
            && |Buyers(d.requests)| == |Buyers(e.requests)| + |ts|
            && e.wallets == d.wallets && e.users == d.users && e.placed == d.placed && e.removed == d.removed
  {
    OneBuyPerTrade(d.requests, Committed(d, f));
  }

  // ----- Values read from the cursors are never stale -----

  /** The database when the pass asks its cursor for the k-th buyer, if it gets that far. */
  ghost function Reached(d: Db, f: Oracle, buyers: seq<Row>, k: nat): Option<Db>
    requires k <= |buyers|
    decreases |buyers|
  {
    if k == 0 then Some(d)
    else if f(d.clock) then None
    else
      var (e, flow) := Visit(d.Tick(1), f, buyers[0]);
      if !flow.Next? then None else Reached(e, f, buyers[1..], k - 1)
  }

  /** From there the pass is the pass over the remaining buyers. */
  lemma {:induction false} ReachedGoesOn(d: Db, f: Oracle, buyers: seq<Row>, k: nat)
    requires k <= |buyers|
    ensures var at := Reached(d, f, buyers, k);
            at.Some? ==> PassFrom(d, f, buyers) == PassFrom(at.value, f, buyers[k..])
    decreases |buyers|
  {
    if k == 0 {
      assert buyers[0..] == buyers;
    } else {
      ReachedGoesOn(Visit(d.Tick(1), f, buyers[0]).0, f, buyers[1..], k - 1);
      assert buyers[1..][k - 1..] == buyers[k..];
    }
  }

  lemma {:induction false} ReachedCoherent(d: Db, f: Oracle, buyers: seq<Row>, k: nat)
    requires k <= |buyers| && BuyRows(buyers) && Coherent(d.requests, buyers)
    ensures var at := Reached(d, f, buyers, k);
            at.Some? ==> Coherent(at.value.requests, buyers[k..])
    decreases |buyers|
  {
    if k == 0 || f(d.clock) {
    } else {
      var ts := VisitLeaves(d, f, buyers);
      ReachedCoherent(Visit(d.Tick(1), f, buyers[0]).0, f, buyers[1..], k - 1);
      assert buyers[1..][k - 1..] == buyers[k..];
    }
  }

  /** Whenever a pass comes to a buyer, under any failures, it and every buyer after it are in
      the table exactly as the cursor read them when the pass began, and the rest of the pass is
      the pass over them. */
  lemma BuyersCursorIsNeverStale(d: Db, f: Oracle, k: nat)
    requires k <= |Cursor(d.requests, Buyers(d.requests))|
    ensures var rows := Cursor(d.requests, Buyers(d.requests));
            var at := Reached(d, f, rows, k);
            at.Some? ==>
              && Coherent(at.value.requests, rows[k..])
              && ProcessRequests(d, f) == PassFrom(at.value, f, rows[k..])
  {
    var rows := Cursor(d.requests, Buyers(d.requests));
    BuyersAreBuyRows(d.requests);
    ReachedCoherent(d, f, rows, k);
    ReachedGoesOn(d, f, rows, k);
  }

  /** The database when the partial-fill loop asks its cursor for the k-th seller. */
  ghost function ReachedSeller(d: Db, f: Oracle, buyer: Row, sellers: seq<Row>, left: real, k: nat): Option<Db>
    requires k <= |sellers|
    decreases |sellers|
  {
    if k == 0 then Some(d)
    else if f(d.clock) || left <= 0.0 then None
    else
      var (e, flow) := Try(d.Tick(1), f, buyer, sellers[0], left);
      if !flow.Next? then None
      else ReachedSeller(e, f, buyer, sellers[1..], Remaining(left, sellers[0]), k - 1)
  }

  lemma ReachedSellerUnfolds(
    d: Db, f: Oracle, buyer: Row, sellers: seq<Row>, left: real, k: nat, result: (Db, Flow))
    requires 0 < k <= |sellers|
    requires result == Try(d.Tick(1), f, buyer, sellers[0], left)
    ensures ReachedSeller(d, f, buyer, sellers, left, k) ==
            if f(d.clock) || left <= 0.0 || !result.1.Next? then None
            else ReachedSeller(result.0, f, buyer, sellers[1..], Remaining(left, sellers[0]), k - 1)
  {
  }

  lemma PartialUnfolds(
    d: Db, f: Oracle, buyer: Row, sellers: seq<Row>, left: real, result: (Db, Flow))
    requires !f(d.clock) && left > 0.0 && sellers != []
    requires result == Try(d.Tick(1), f, buyer, sellers[0], left) && result.1.Next?
    ensures Partial(d, f, buyer, sellers, left) ==
            Partial(result.0, f, buyer, sellers[1..], Remaining(left, sellers[0]))
  {
  }

  /** From the k-th seller on, the loop over `sellers` for `left` is the loop for `rest`. */
  ghost predicate GoesOn(d: Db, f: Oracle, buyer: Row, sellers: seq<Row>, left: real, k: nat, rest: real)
    requires k <= |sellers|
  {
    var at := ReachedSeller(d, f, buyer, sellers, left, k);
    at.Some? ==> Partial(d, f, buyer, sellers, left) == Partial(at.value, f, buyer, sellers[k..], rest)
  }

  lemma GoesOnAtOnce(d: Db, f: Oracle, buyer: Row, sellers: seq<Row>, left: real, k: nat, rest: real)
    requires k == 0 && rest == left - Amounts(sellers[..k])
    ensures GoesOn(d, f, buyer, sellers, left, k, rest)
  {
    assert rest == left;
    assert sellers[0..] == sellers;
  }

  lemma GoesOnLater(d: Db, f: Oracle, buyer: Row, sellers: seq<Row>, left: real, k: nat, rest: real)
    requires 0 < k <= |sellers|
    requires var e, less := Try(d.Tick(1), f, buyer, sellers[0], left).0, Remaining(left, sellers[0]);
             GoesOn(e, f, buyer, sellers[1..], less, k - 1, rest)
    ensures GoesOn(d, f, buyer, sellers, left, k, rest)
  {
    if ReachedSeller(d, f, buyer, sellers, left, k).Some? {
      var result := Try(d.Tick(1), f, buyer, sellers[0], left);
      ReachedSellerUnfolds(d, f, buyer, sellers, left, k, result);
      PartialUnfolds(d, f, buyer, sellers, left, result);
      assert sellers[1..][k - 1..] == sellers[k..];
    }
  }

  lemma AmountsSkip(rows: seq<Row>, k: nat, left: real, rest: real)
    requires 0 < k <= |rows| && rest == left - Amounts(rows[..k])
    ensures rest == Remaining(left, rows[0]) - Amounts(rows[1..][..k - 1])
  {
    assert rows[..k][1..] == rows[1..][..k - 1];
  }

  /** From there the loop is the loop over the remaining sellers, for what the sellers before
      would have left. */
  lemma {:induction false} ReachedSellerGoesOn(
    d: Db, f: Oracle, buyer: Row, sellers: seq<Row>, left: real, k: nat, rest: real)
    requires k <= |sellers| && rest == left - Amounts(sellers[..k])
    ensures GoesOn(d, f, buyer, sellers, left, k, rest)
    decreases k
  {
    if k == 0 {
      GoesOnAtOnce(d, f, buyer, sellers, left, k, rest);
    } else {
      AmountsSkip(sellers, k, left, rest);
      var e, less := Try(d.Tick(1), f, buyer, sellers[0], left).0, Remaining(left, sellers[0]);
      ReachedSellerGoesOn(e, f, buyer, sellers[1..], less, k - 1, rest);
      GoesOnLater(d, f, buyer, sellers, left, k, rest);
    }
  }

  /** Whenever the partial-fill loop comes to a seller, under any failures, he and every seller
      after him are in the table exactly as their cursor read them, whether or not the buyer has
      already traded. */
  lemma {:induction false} SellersCursorIsNeverStale(
    d: Db, f: Oracle, buyer: Row, sellers: seq<Row>, left: real, k: nat)
    requires k <= |sellers| && SellersFor(buyer, sellers)
    requires Fresh(d.requests, buyer) && Coherent(d.requests, sellers)
    ensures var at := ReachedSeller(d, f, buyer, sellers, left, k);
            at.Some? ==> Coherent(at.value.requests, sellers[k..])
    decreases |sellers|
  {
    if k == 0 {
    } else {
      var result := Try(d.Tick(1), f, buyer, sellers[0], left);
      ReachedSellerUnfolds(d, f, buyer, sellers, left, k, result);
      TryKeepsSellers(d.Tick(1), f, buyer, sellers, left);
      SellersCursorIsNeverStale(result.0, f, buyer, sellers[1..], Remaining(left, sellers[0]), k - 1);
      assert sellers[1..][k - 1..] == sellers[k..];
    }
  }

  /** If no seller covers the buyer, its visit from `u` is the loop over the cursor of its smaller
      sellers, and whenever that loop comes to the j-th of them, he and all after him are in the
      table exactly as that cursor read them. */
  ghost predicate VisitsTruthfully(u: Db, f: Oracle, buyer: Row, j: nat) {
    var b := buyer.req;
    var sellers := Cursor(u.requests, Smaller(u.requests, b));
    !f(u.clock) && Covering(u.requests, b) == {} ==>
      && Visit(u, f, buyer) == Partial(u.Tick(1), f, buyer, sellers, b.amount)
      && (j <= |sellers| ==>
            var at := ReachedSeller(u.Tick(1), f, buyer, sellers, b.amount, j);
            at.Some? ==> Coherent(at.value.requests, sellers[j..]))
  }

  lemma VisitIsTruthful(u: Db, f: Oracle, buyer: Row, j: nat)
    requires buyer.id in u.requests && u.requests[buyer.id] == buyer.req && buyer.req.side.Buy?
    ensures VisitsTruthfully(u, f, buyer, j)
  {
    SmallerSellers(u.requests, buyer);
    var sellers := Cursor(u.requests, Smaller(u.requests, buyer.req));
    if j <= |sellers| {
      SellersCursorIsNeverStale(u.Tick(1), f, buyer, sellers, buyer.req.amount, j);
    }
  }

  /** In every visit of a pass, under any failures, no value read from the sellers' cursor is stale. */
  lemma SellersOfAPassAreNeverStale(d: Db, f: Oracle, k: nat, j: nat)
    requires k < |Cursor(d.requests, Buyers(d.requests))|
    ensures var rows := Cursor(d.requests, Buyers(d.requests));
            var at := Reached(d, f, rows, k);
            at.Some? ==> VisitsTruthfully(at.value.Tick(1), f, rows[k], j)
  {
    var rows := Cursor(d.requests, Buyers(d.requests));
    BuyersAreBuyRows(d.requests);
    BuyersCursorIsNeverStale(d, f, k);
    var at := Reached(d, f, rows, k);
    if at.Some? {
      assert rows[k..][0] == rows[k];
      VisitIsTruthful(at.value.Tick(1), f, rows[k], j);
    }
  }
}
