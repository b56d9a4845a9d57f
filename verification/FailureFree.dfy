/** When no operation fails, the pass that `process_requests` runs on the database is the
    ideal one; and when every owner has his wallets, it never reads one that is missing. */
module FailureFree {
  import opened Orders
  import opened Pairs
  import opened Trades
  import opened Ledger
  import opened Store
  import opened Matching
  import opened Replays
  import opened Settlement

  // ----- Defined behaviour -----

  /** The request is for a pair and its owner has a wallet in both currencies. */
  predicate Backed(w: seq<WalletRow>, r: Request) {
    && IsPair(r.currency)
    && FirstWallet(w, r.user, Base(r.currency)).Some?
    && FirstWallet(w, r.user, Quote(r.currency)).Some?
  }

  ghost predicate Provisioned(w: seq<WalletRow>, t: Table) {
    forall id :: id in t ==> Backed(w, t[id])
  }

  lemma TryIsDefined(d: Db, f: Oracle, buyer: Row, seller: Row, left: real)
    requires buyer.id != seller.id && Fresh(d.requests, buyer) && Fresh(d.requests, seller)
    requires Backed(d.wallets, buyer.req) && Backed(d.wallets, seller.req)
    requires seller.req.currency == buyer.req.currency
    ensures !Try(d, f, buyer, seller, left).1.Undefined?
  {
    StepIsDefined(d, f, buyer, seller, left);
  }

  lemma {:induction false} PartialIsDefined(d: Db, f: Oracle, buyer: Row, sellers: seq<Row>, left: real)
    requires SellersFor(buyer, sellers) && Fresh(d.requests, buyer) && Coherent(d.requests, sellers)
    requires Backed(d.wallets, buyer.req)
    requires forall i :: 0 <= i < |sellers| ==> Backed(d.wallets, sellers[i].req)
    ensures !Partial(d, f, buyer, sellers, left).1.Undefined?
    decreases |sellers|
  {
    if f(d.clock) || sellers == [] || left <= 0.0 {
    } else {
      TryIsDefined(d.Tick(1), f, buyer, sellers[0], left);
      TryKeepsSellers(d.Tick(1), f, buyer, sellers, left);
      var (e, flow) := Try(d.Tick(1), f, buyer, sellers[0], left);
      if flow.Next? {
        PartialIsDefined(e, f, buyer, sellers[1..], Remaining(left, sellers[0]));
      }
    }
  }

  lemma VisitIsDefined(d: Db, f: Oracle, buyer: Row)
    requires buyer.req.side.Buy? && buyer.id in d.requests && d.requests[buyer.id] == buyer.req
    requires Provisioned(d.wallets, d.requests)
    ensures !Visit(d, f, buyer).1.Undefined?
  {
    if Covering(d.requests, buyer.req) != {} {
      var s := First(d.requests, Covering(d.requests, buyer.req));
      TryIsDefined(d.Tick(1), f, buyer, RowOf(d.requests, s), buyer.req.amount);
    } else {
      SmallerSellers(d.requests, buyer);
      PartialIsDefined(d.Tick(1), f, buyer, Cursor(d.requests, Smaller(d.requests, buyer.req)), buyer.req.amount);
    }
  }

  lemma TradeKeepsProvisioned(w: seq<WalletRow>, t: Table, d: Trade)
    requires Provisioned(w, t) && Legal(t, d)
    ensures Provisioned(w, Apply(t, d))
  {
  }

  lemma {:induction false} PassFromIsDefined(d: Db, f: Oracle, buyers: seq<Row>)
    requires BuyRows(buyers) && Coherent(d.requests, buyers) && Provisioned(d.wallets, d.requests)
    ensures !PassFrom(d, f, buyers).1.Undefined?
    decreases |buyers|
  {
    if f(d.clock) || buyers == [] {
    } else {
      VisitIsDefined(d.Tick(1), f, buyers[0]);
      var ts := VisitLeaves(d, f, buyers);
      if ts != [] {
        TradeKeepsProvisioned(d.wallets, d.requests, ts[0]);
      }
      PassFromIsDefined(Visit(d.Tick(1), f, buyers[0]).0, f, buyers[1..]);
    }
  }

  /** If every live request is for a pair and its owner has both wallets, a pass finds every
      wallet it looks for, under any failures. */
  lemma PassIsDefined(d: Db, f: Oracle)
    requires Provisioned(d.wallets, d.requests)
    ensures !ProcessRequests(d, f).1.Undefined?
  {
    BuyersAreBuyRows(d.requests);
    PassFromIsDefined(d, f, Cursor(d.requests, Buyers(d.requests)));
  }

  // ----- The partial-fill loop is one step -----

  /** When nothing fails, running the partial-fill loop over all its sellers has exactly the
      effect of one `request_step` with the first of them: every later iteration finds the
      buyer gone and restores what it wrote. */
  lemma PartialLoopIsOneStep(d: Db, f: Oracle, buyer: Row, sellers: seq<Row>, left: real)
    requires Reliable(f) && buyer.req.side.Buy? && buyer.id in d.requests && d.requests[buyer.id] == buyer.req
    requires SellersFor(buyer, sellers) && Coherent(d.requests, sellers)
    requires sellers != [] && left > 0.0
    ensures var (e, flow) := Partial(d, f, buyer, sellers, left);
            || flow.Undefined?
            || (flow.Next?
                && Try(d.Tick(1), f, buyer, sellers[0], left).0.Same(e)
                && e.trades == d.trades + [Deal(buyer, sellers[0], left)])
  {
    TryKeepsSellers(d.Tick(1), f, buyer, sellers, left);
    StepCompletes(d.Tick(1), f, buyer, sellers[0], left);
    var (e, flow) := Try(d.Tick(1), f, buyer, sellers[0], left);
    if flow.Next? {
      PartialWithoutBuyer(e, f, buyer, sellers[1..], Remaining(left, sellers[0]));
    }
  }

  // ----- The pass is the ideal one -----

  /** What the ideal pass does for one buyer. */
  ghost function TradeOf(t: Table, buyer: Row): seq<Trade> {
    var c := Counterparty(t, buyer.req);
    if c.None? then [] else [Deal(buyer, RowOf(t, c.value), buyer.req.amount)]
  }

  lemma VisitIsIdeal(d: Db, f: Oracle, buyer: Row)
    requires Reliable(f) && buyer.req.side.Buy? && buyer.id in d.requests && d.requests[buyer.id] == buyer.req
    ensures var (e, flow) := Visit(d, f, buyer);
            flow.Undefined? || (flow.Next? && e.trades == d.trades + TradeOf(d.requests, buyer))
  {
    var b, u := buyer.req, d.Tick(1);
    if Covering(d.requests, b) != {} {
      var seller := RowOf(d.requests, First(d.requests, Covering(d.requests, b)));
      StepIsAtomic(u, f, buyer, seller, b.amount);
      StepCompletes(u, f, buyer, seller, b.amount);
    } else {
      SmallerSellers(d.requests, buyer);
      var rows := Cursor(d.requests, Smaller(d.requests, b));
      if rows != [] && b.amount > 0.0 {
        PartialLoopIsOneStep(u, f, buyer, rows, b.amount);
      }
    }
  }

  /** One iteration of the pass and one of the ideal pass keep step. */
  lemma PassFromGoesOn(d: Db, f: Oracle, buyers: seq<Row>) returns (e: Db, ts: seq<Trade>)
    requires Reliable(f) && BuyRows(buyers) && Coherent(d.requests, buyers) && buyers != []
    requires !PassFrom(d, f, buyers).1.Undefined?
    ensures PassFrom(d, f, buyers) == PassFrom(e, f, buyers[1..])
    ensures BuyRows(buyers[1..]) && Coherent(e.requests, buyers[1..])
    ensures e.trades == d.trades + ts
    ensures Settle(d.requests, buyers) == ts + Settle(e.requests, buyers[1..])
  {
    e := Visit(d.Tick(1), f, buyers[0]).0;
    VisitIsIdeal(d.Tick(1), f, buyers[0]);
    ts := VisitLeaves(d, f, buyers);
    assert ts == e.trades[|d.trades|..] == TradeOf(d.requests, buyers[0]);
  }

  lemma {:induction false} PassFromIsIdeal(d: Db, f: Oracle, buyers: seq<Row>)
    requires Reliable(f) && BuyRows(buyers) && Coherent(d.requests, buyers)
    requires !PassFrom(d, f, buyers).1.Undefined?
    ensures PassFrom(d, f, buyers).1.Next?
    ensures PassFrom(d, f, buyers).0.trades == d.trades + Settle(d.requests, buyers)
    decreases |buyers|
  {
    if buyers == [] {
    } else {
      var e, ts := PassFromGoesOn(d, f, buyers);
      PassFromIsIdeal(e, f, buyers[1..]);
      Associative(d.trades, ts, Settle(e.requests, buyers[1..]));
    }
  }

  /** A failure-free pass runs to its end and commits exactly the ideal trades. */
  lemma PassIsIdeal(d: Db, f: Oracle)
    requires Reliable(f) && !ProcessRequests(d, f).1.Undefined?
    ensures ProcessRequests(d, f).1.Next?
    ensures Committed(d, f) == Ideal(d.requests)
    ensures ProcessRequests(d, f).0.requests == Replay(d.requests, Ideal(d.requests))
  {
    var e := ProcessRequests(d, f).0;
    BuyersAreBuyRows(d.requests);
    PassFromIsIdeal(d, f, Cursor(d.requests, Buyers(d.requests)));
    assert e.trades == d.trades + Committed(d, f) && e.trades == d.trades + Ideal(d.requests);
    assert Committed(d, f) == e.trades[|d.trades|..] && Ideal(d.requests) == e.trades[|d.trades|..];
  }
}
