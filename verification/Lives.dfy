/** Making and removing requests, and what stays true of every request from the moment it is
    made, whatever fails: the invariants of the whole database. */
module Lives {
  import opened Orders
  import opened Trades
  import opened Ledger
  import opened Store
  import opened Matching
  import opened Replays

  /** The id SQLite gives a new row of an INTEGER PRIMARY KEY table without AUTOINCREMENT:
      one more than the largest id in the table, and 1 when it is empty. */
  ghost function NextId(ids: set<nat>): (next: nat)
    ensures forall id :: id in ids ==> id < next
    ensures if ids == {} then next == 1 else next - 1 in ids
  {
    if ids == {} then 1
    else
      var id :| id in ids;
      assert ids == {id} + (ids - {id});
      var next := NextId(ids - {id});
      if id < next then next else id + 1
  }

  ghost function MakeRequest(
    d: Db, f: Oracle, user: nat, currency: string, amount: real, price: real, side: Side): (Db, bool)
  {
    if f(d.clock) then (d.Tick(1), false)
    else
      var r := Request(user, currency, amount, price, side, |d.placed|);
      (d.Tick(1).(requests := d.requests[NextId(d.requests.Keys) := r], placed := d.placed + [r]), true)
  }

  ghost function RemoveRequest(d: Db, f: Oracle, id: nat): (Db, bool) {
    if f(d.clock) || id !in d.requests then (d.Tick(1), false)
    else (d.Tick(1).(requests := d.requests - {id}, removed := d.removed + {d.requests[id].arrival}), true)
  }

  // ----- Invariants of the requests and the trade log -----

  /** The requests that are live, those ever made, the trades, and the arrivals removed. */
  datatype Book = Book(requests: Table, placed: seq<Request>, trades: seq<Trade>, removed: set<nat>)

  function BookOf(d: Db): Book {
    Book(d.requests, d.placed, d.trades, d.removed)
  }

  /** A live request is the one that was made, apart from what has been sold of it. */
  ghost predicate Faithful(b: Book) {
    && (forall k :: 0 <= k < |b.placed| ==> b.placed[k].arrival == k)
    && forall id :: id in b.requests ==>
         var r := b.requests[id];
         && r.arrival < |b.placed|
         && r == b.placed[r.arrival].(amount := r.amount)
         && (r.side.Buy? ==> r == b.placed[r.arrival])
  }

  /** Among live requests the smaller id came first, although ids are given out again. */
  ghost predicate IdsFollowArrival(t: Table) {
    forall i, j :: i in t && j in t && i < j ==> t[i].arrival < t[j].arrival
  }

  ghost predicate Live(t: Table, k: nat) {
    exists id :: id in t && t[id].arrival == k
  }

  /** The amount the k-th request has sold. */
  ghost function Sold(ds: seq<Trade>, k: nat): real {
    if ds == [] then 0.0
    else Sold(ds[..|ds| - 1], k) + (if ds[|ds| - 1].sell.arrival == k then ds[|ds| - 1].amount else 0.0)
  }

  /** A sell request's original amount is what it still offers and what it has sold; once it
      is gone without having been removed, it has sold all of it. */
  ghost predicate SellsConserved(b: Book)
    requires Faithful(b)
  {
    && (forall id :: id in b.requests && b.requests[id].side.Sell? ==>
          var r := b.requests[id];
          b.placed[r.arrival].amount == r.amount + Sold(b.trades, r.arrival))
    && (forall k :: 0 <= k < |b.placed| && b.placed[k].side.Sell? && k !in b.removed ==>
          Live(b.requests, k) || b.placed[k].amount == Sold(b.trades, k))
  }

  /** The k-th request bought in one of the trades. */
  ghost predicate Bought(ds: seq<Trade>, k: nat) {
    exists i :: 0 <= i < |ds| && ds[i].buy.arrival == k
  }

  /** A buy request trades at most once, and is gone when it has; one that is gone without
      having been removed has traded. */
  ghost predicate BuysTradeOnce(b: Book) {
    && (forall i, j :: 0 <= i < j < |b.trades| ==> b.trades[i].buy.arrival != b.trades[j].buy.arrival)
    && (forall k :: 0 <= k < |b.placed| && b.placed[k].side.Buy? && k !in b.removed ==>
          (Live(b.requests, k) <==> !Bought(b.trades, k)))
    && (forall k: nat :: Bought(b.trades, k) ==> !Live(b.requests, k))
  }

  /** Every trade is between a buy and a sell request that were made, as they were made. */
  ghost predicate TradesFaithful(b: Book) {
    forall i :: 0 <= i < |b.trades| ==>
      var buy, sell := b.trades[i].buy, b.trades[i].sell;
      && buy.arrival < |b.placed| && buy == b.placed[buy.arrival] && buy.side.Buy?
      && sell.arrival < |b.placed| && sell == b.placed[sell.arrival].(amount := sell.amount) && sell.side.Sell?
  }

  ghost predicate BookSound(b: Book) {
    Faithful(b) && IdsFollowArrival(b.requests) && SellsConserved(b) && BuysTradeOnce(b) && TradesFaithful(b)
  }

  lemma {:induction false} NothingSold(ds: seq<Trade>, k: nat)
    requires forall i :: 0 <= i < |ds| ==> ds[i].sell.arrival != k
    ensures Sold(ds, k) == 0.0
    decreases |ds|
  {
    if ds == [] {
    } else {
      NothingSold(ds[..|ds| - 1], k);
    }
  }

  lemma SoldAppend(ds: seq<Trade>, d: Trade, k: nat)
    ensures Sold(ds + [d], k) == Sold(ds, k) + if d.sell.arrival == k then d.amount else 0.0
  {
  }

  lemma BoughtAppend(ds: seq<Trade>, d: Trade, k: nat)
    ensures Bought(ds + [d], k) <==> Bought(ds, k) || d.buy.arrival == k
  {
    if Bought(ds, k) {
      var i :| 0 <= i < |ds| && ds[i].buy.arrival == k;
      assert (ds + [d])[i].buy.arrival == k;
    }
    assert (ds + [d])[|ds|] == d;
  }

  /** Two live requests with the same arrival are the same row. */
  lemma ArrivalIsUnique(t: Table, i: nat, j: nat)
    requires IdsFollowArrival(t) && i in t && j in t && t[i].arrival == t[j].arrival
    ensures i == j
  {
  }

  /** Taking a row out of the table ends the life of exactly its request. */
  lemma LiveWithout(t: Table, id: nat, k: nat)
    requires IdsFollowArrival(t) && id in t
    ensures Live(t - {id}, k) <==> Live(t, k) && t[id].arrival != k
  {
    if Live(t, k) {
      var i :| i in t && t[i].arrival == k;
      assert i != id ==> i in t - {id} && (t - {id})[i].arrival == k;
    }
    if Live(t - {id}, k) {
      var i :| i in t - {id} && (t - {id})[i].arrival == k;
      assert i in t && t[i].arrival == k && i != id;
      assert t[id].arrival == k ==> !(i < id) && !(id < i);
    }
  }

  /** Changing an amount ends no life. */
  lemma LiveWithAmount(t: Table, id: nat, amount: real, k: nat)
    requires id in t
    ensures Live(t[id := t[id].(amount := amount)], k) <==> Live(t, k)
  {
    var u := t[id := t[id].(amount := amount)];
    if Live(t, k) {
      var i :| i in t && t[i].arrival == k;
      assert i in u && u[i].arrival == k;
    }
    if Live(u, k) {
      var i :| i in u && u[i].arrival == k;
      assert i in t && t[i].arrival == k;
    }
  }

  lemma LiveAfterTrade(t: Table, d: Trade, k: nat)
    requires IdsFollowArrival(t) && Legal(t, d)
    ensures Live(Apply(t, d), k) <==>
            Live(t, k) && d.buy.arrival != k && (d.amount == d.sell.amount ==> d.sell.arrival != k)
  {
    var u := t - {d.buyId};
    LiveWithout(t, d.buyId, k);
    if d.amount == d.sell.amount {
      LiveWithout(u, d.sellId, k);
      assert u - {d.sellId} == Apply(t, d);
    } else {
      LiveWithAmount(u, d.sellId, d.sell.amount - d.amount, k);
    }
  }

  // ----- Making and removing a request -----

  lemma LiveWithNew(t: Table, id: nat, r: Request, k: nat)
    requires id !in t
    ensures Live(t[id := r], k) <==> Live(t, k) || r.arrival == k
  {
    if Live(t, k) {
      var i :| i in t && t[i].arrival == k;
      assert t[id := r][i].arrival == k;
    }
    assert t[id := r][id] == r;
  }

  /** The book after a new request `r` under the id `id`. */
  function WithRequest(b: Book, id: nat, r: Request): Book {
    b.(requests := b.requests[id := r], placed := b.placed + [r])
  }

  /** The id is larger than all live ones and the arrival is the next. */
  ghost predicate IsNext(b: Book, id: nat, r: Request) {
    r.arrival == |b.placed| && forall i :: i in b.requests ==> i < id
  }

  lemma NewRequestKeepsFaithful(b: Book, id: nat, r: Request)
    requires BookSound(b) && IsNext(b, id, r)
    ensures Faithful(WithRequest(b, id, r)) && IdsFollowArrival(WithRequest(b, id, r).requests)
  {
  }

  lemma NewRequestKeepsTrades(b: Book, id: nat, r: Request)
    requires BookSound(b) && IsNext(b, id, r)
    ensures TradesFaithful(WithRequest(b, id, r))
  {
  }

  lemma NewRequestKeepsSells(b: Book, id: nat, r: Request)
    requires BookSound(b) && IsNext(b, id, r) && Faithful(WithRequest(b, id, r))
    ensures SellsConserved(WithRequest(b, id, r))
  {
    var c := WithRequest(b, id, r);
    NothingSold(b.trades, r.arrival);
    forall k | 0 <= k < |c.placed| && c.placed[k].side.Sell? && k !in c.removed
      ensures Live(c.requests, k) || c.placed[k].amount == Sold(c.trades, k)
    {
      LiveWithNew(b.requests, id, r, k);
      assert k < |b.placed| ==> c.placed[k] == b.placed[k];
    }
  }

  lemma NewRequestKeepsBuys(b: Book, id: nat, r: Request)
    requires BookSound(b) && IsNext(b, id, r)
    ensures BuysTradeOnce(WithRequest(b, id, r))
  {
    var c := WithRequest(b, id, r);
    assert !Bought(b.trades, r.arrival);
    forall k: nat
      ensures Bought(c.trades, k) ==> !Live(c.requests, k)
      ensures k < |c.placed| && c.placed[k].side.Buy? && k !in c.removed ==>
              (Live(c.requests, k) <==> !Bought(c.trades, k))
    {
      LiveWithNew(b.requests, id, r, k);
      assert k < |b.placed| ==> c.placed[k] == b.placed[k];
    }
  }

  lemma NewRequestKeepsBook(b: Book, id: nat, r: Request)
    requires BookSound(b) && IsNext(b, id, r)
    ensures BookSound(WithRequest(b, id, r))
  {
    NewRequestKeepsFaithful(b, id, r);
    NewRequestKeepsTrades(b, id, r);
    NewRequestKeepsSells(b, id, r);
    NewRequestKeepsBuys(b, id, r);
  }

  lemma MakeRequestKeepsBook(
    d: Db, f: Oracle, user: nat, currency: string, amount: real, price: real, side: Side)
    requires BookSound(BookOf(d))
    ensures BookSound(BookOf(MakeRequest(d, f, user, currency, amount, price, side).0))
  {
    NewRequestKeepsBook(BookOf(d), NextId(d.requests.Keys),
                        Request(user, currency, amount, price, side, |d.placed|));
  }

  lemma LostRequestKeepsBook(b: Book, id: nat)
    requires BookSound(b) && id in b.requests
    ensures BookSound(b.(requests := b.requests - {id}, removed := b.removed + {b.requests[id].arrival}))
  {
    var c := b.(requests := b.requests - {id}, removed := b.removed + {b.requests[id].arrival});
    forall k ensures Live(c.requests, k) <==> Live(b.requests, k) && k != b.requests[id].arrival {
      LiveWithout(b.requests, id, k);
    }
    assert SellsConserved(c);
    assert BuysTradeOnce(c);
  }

  lemma RemoveRequestKeepsBook(d: Db, f: Oracle, id: nat)
    requires BookSound(BookOf(d))
    ensures BookSound(BookOf(RemoveRequest(d, f, id).0))
  {
    if id in d.requests {
      LostRequestKeepsBook(BookOf(d), id);
    }
  }

  // ----- Trading -----

  /** The book after one trade. */
  function AfterTrade(b: Book, t: Trade): Book {
    b.(requests := Apply(b.requests, t), trades := b.trades + [t])
  }

  lemma TradeKeepsFaithful(b: Book, t: Trade)
    requires BookSound(b) && Legal(b.requests, t)
    ensures Faithful(AfterTrade(b, t)) && IdsFollowArrival(AfterTrade(b, t).requests)
  {
  }

  lemma TradeIsFaithful(b: Book, t: Trade)
    requires BookSound(b) && Legal(b.requests, t)
    ensures TradesFaithful(AfterTrade(b, t))
  {
  }

  lemma TradeKeepsLiveSell(b: Book, t: Trade, id: nat)
    requires BookSound(b) && Legal(b.requests, t)
    requires var u := Apply(b.requests, t); id in u && u[id].side.Sell?
    ensures var r := Apply(b.requests, t)[id];
            r.arrival < |b.placed| && b.placed[r.arrival].amount == r.amount + Sold(b.trades + [t], r.arrival)
  {
    var r := b.requests[id];
    SoldAppend(b.trades, t, r.arrival);
    if r.arrival == t.sell.arrival {
      ArrivalIsUnique(b.requests, id, t.sellId);
    }
  }

  lemma TradeKeepsGoneSell(b: Book, t: Trade, k: nat)
    requires BookSound(b) && Legal(b.requests, t)
    requires k < |b.placed| && b.placed[k].side.Sell? && k !in b.removed
    ensures Live(Apply(b.requests, t), k) || b.placed[k].amount == Sold(b.trades + [t], k)
  {
    SoldAppend(b.trades, t, k);
    LiveAfterTrade(b.requests, t, k);
    assert k == t.sell.arrival ==> Live(b.requests, k);
  }

  lemma TradeKeepsSells(b: Book, t: Trade)
    requires BookSound(b) && Legal(b.requests, t)
    ensures Faithful(AfterTrade(b, t)) && SellsConserved(AfterTrade(b, t))
  {
    var c := AfterTrade(b, t);
    TradeKeepsFaithful(b, t);
    forall id | id in c.requests && c.requests[id].side.Sell?
      ensures c.placed[c.requests[id].arrival].amount
              == c.requests[id].amount + Sold(c.trades, c.requests[id].arrival)
    {
      TradeKeepsLiveSell(b, t, id);
    }
    forall k | 0 <= k < |b.placed| && b.placed[k].side.Sell? && k !in b.removed
      ensures Live(c.requests, k) || b.placed[k].amount == Sold(c.trades, k)
    {
      TradeKeepsGoneSell(b, t, k);
    }
  }

  lemma TradeKeepsBuys(b: Book, t: Trade)
    requires BookSound(b) && Legal(b.requests, t)
    ensures BuysTradeOnce(AfterTrade(b, t))
  {
    var c := AfterTrade(b, t);
    assert Live(b.requests, t.buy.arrival);
    assert !Bought(b.trades, t.buy.arrival);
    forall i, j | 0 <= i < j < |c.trades| ensures c.trades[i].buy.arrival != c.trades[j].buy.arrival {
      assert b.trades[i].buy.arrival == t.buy.arrival ==> Bought(b.trades, t.buy.arrival);
    }
    forall k: nat
      ensures Bought(c.trades, k) ==> !Live(c.requests, k)
      ensures 0 <= k < |b.placed| && b.placed[k].side.Buy? && k !in b.removed ==>
              (Live(c.requests, k) <==> !Bought(c.trades, k))
    {
      BoughtAppend(b.trades, t, k);
      LiveAfterTrade(b.requests, t, k);
      assert b.placed[t.sell.arrival].side.Sell?;
    }
  }

  lemma TradeKeepsBook(b: Book, t: Trade)
    requires BookSound(b) && Legal(b.requests, t)
    ensures BookSound(AfterTrade(b, t))
  {
    TradeKeepsFaithful(b, t);
    TradeIsFaithful(b, t);
    TradeKeepsSells(b, t);
    TradeKeepsBuys(b, t);
  }

  function AfterTrades(b: Book, ts: seq<Trade>): Book {
    b.(requests := Replay(b.requests, ts), trades := b.trades + ts)
  }

  lemma AfterTradesUnfolds(b: Book, ts: seq<Trade>)
    ensures AfterTrades(b, ts) == if ts == [] then b else AfterTrades(AfterTrade(b, ts[0]), ts[1..])
  {
  }

  lemma {:induction false} TradesKeepBook(b: Book, ts: seq<Trade>)
    requires BookSound(b) && AllLegal(b.requests, ts)
    ensures BookSound(AfterTrades(b, ts))
    decreases |ts|
  {
    AfterTradesUnfolds(b, ts);
    if ts == [] {
    } else {
      TradeKeepsBook(b, ts[0]);
      TradesKeepBook(AfterTrade(b, ts[0]), ts[1..]);
    }
  }

  /** A pass, with whatever failures, keeps every request's book-keeping sound. */
  lemma PassKeepsBook(d: Db, f: Oracle)
    requires BookSound(BookOf(d))
    ensures BookSound(BookOf(ProcessRequests(d, f).0))
  {
    var e, ts := ProcessRequests(d, f).0, Committed(d, f);
    TradesKeepBook(BookOf(d), ts);
    assert BookOf(e) == AfterTrades(BookOf(d), ts);
  }

  // ----- The invariant of the ledger -----

  /** The transaction log is the journal of the trades, from the first one on. */
  ghost predicate LedgerSound(d: Db) {
    AllPayable(d.wallets, d.trades) && d.transactions == Journal(d.wallets, d.trades)
  }

  lemma PassKeepsLedger(d: Db, f: Oracle)
    requires LedgerSound(d)
    ensures LedgerSound(ProcessRequests(d, f).0)
  {
    JournalConcat(d.wallets, d.trades, Committed(d, f));
  }
}
