/** Committed trades, and the table that replaying a list of them leaves. */
module Trades {
  import opened Orders

  /** One committed `request_step`: both rows as they stood, and the amount exchanged.
      The price is the buy request's price. */
  datatype Trade = Trade(buyId: nat, buy: Request, sellId: nat, sell: Request, amount: real)

  /** What is left of a request of which `amount` has been sold. */
  function Reduced(r: Request, amount: real): Request {
    r.(amount := r.amount - amount)
  }

  /** The buy row goes; the sell row goes when it is used up and shrinks otherwise. */
  function Apply(t: Table, d: Trade): Table {
    if d.amount == d.sell.amount then t - {d.buyId, d.sellId}
    else (t - {d.buyId})[d.sellId := Reduced(d.sell, d.amount)]
  }

  function Replay(t: Table, ds: seq<Trade>): Table
    decreases |ds|
  {
    if ds == [] then t else Replay(Apply(t, ds[0]), ds[1..])
  }

  /** A trade between two live, crossing requests of different users, for no more than either holds. */
  ghost predicate Legal(t: Table, d: Trade) {
    && d.buyId in t && t[d.buyId] == d.buy && d.buy.side.Buy?
    && d.sellId in t && t[d.sellId] == d.sell && Eligible(d.sell, d.buy)
    && d.amount <= d.sell.amount && d.amount <= d.buy.amount
    && (d.buy.amount > 0.0 && d.sell.amount > 0.0 ==> d.amount > 0.0)
  }

  ghost predicate AllLegal(t: Table, ds: seq<Trade>)
    decreases |ds|
  {
    ds == [] || (Legal(t, ds[0]) && AllLegal(Apply(t, ds[0]), ds[1..]))
  }

  lemma {:induction false} ReplayConcat(t: Table, a: seq<Trade>, b: seq<Trade>)
    ensures Replay(t, a + b) == Replay(Replay(t, a), b)
    ensures AllLegal(t, a + b) <==> AllLegal(t, a) && AllLegal(Replay(t, a), b)
    decreases |a|
  {
    if a == [] {
      assert a + b == b;
    } else {
      assert (a + b)[1..] == a[1..] + b;
      ReplayConcat(Apply(t, a[0]), a[1..], b);
    }
  }

  lemma ReplaySingle(t: Table, d: Trade)
    ensures Replay(t, [d]) == Apply(t, d) && (AllLegal(t, [d]) <==> Legal(t, d))
  {
  }

  ghost predicate Positive(t: Table) {
    forall id :: id in t ==> t[id].amount > 0.0
  }

  /** `u` is `t` after some trades: rows only disappear, buy rows never change, sell rows
      change in nothing but their amount. */
  ghost predicate Shrunk(t: Table, u: Table) {
    forall id :: id in u ==>
      && id in t
      && u[id] == t[id].(amount := u[id].amount)
      && (u[id].side.Buy? ==> u[id] == t[id])
  }

  lemma {:induction false} ReplayShrinks(t: Table, ds: seq<Trade>)
    requires AllLegal(t, ds)
    ensures Shrunk(t, Replay(t, ds))
    decreases |ds|
  {
    if ds == [] {
    } else {
      ReplayShrinks(Apply(t, ds[0]), ds[1..]);
    }
  }

  /** Live amounts stay strictly positive and never grow. */
  lemma {:induction false} ReplayStaysPositive(t: Table, ds: seq<Trade>)
    requires AllLegal(t, ds) && Positive(t)
    ensures var u := Replay(t, ds);
            Positive(u) && forall id :: id in u ==> id in t && u[id].amount <= t[id].amount
    ensures forall i :: 0 <= i < |ds| ==> ds[i].amount > 0.0
    decreases |ds|
  {
    if ds == [] {
    } else {
      ReplayStaysPositive(Apply(t, ds[0]), ds[1..]);
      assert forall i :: 1 <= i < |ds| ==> ds[i] == ds[1..][i - 1];
    }
  }

  /** A buy request outlives exactly the trades that are not its own. */
  lemma {:induction false} BuyOutlives(t: Table, ds: seq<Trade>, id: nat)
    requires AllLegal(t, ds) && id in t && t[id].side.Buy?
    ensures id in Replay(t, ds) <==> forall k :: 0 <= k < |ds| ==> ds[k].buyId != id
    decreases |ds|
  {
    if ds == [] {
    } else {
      var rest := ds[1..];
      assert forall k :: 1 <= k < |ds| ==> ds[k] == rest[k - 1];
      if ds[0].buyId == id {
        GoneForGood(Apply(t, ds[0]), rest, id);
      } else {
        BuyOutlives(Apply(t, ds[0]), rest, id);
        assert forall k :: 0 <= k < |rest| ==> rest[k] == ds[k + 1];
      }
    }
  }

  lemma GoneForGood(t: Table, ds: seq<Trade>, id: nat)
    requires AllLegal(t, ds) && id !in t
    ensures id !in Replay(t, ds)
  {
    ReplayShrinks(t, ds);
  }

  /** Every trade uses up one buy request, and so there are no more trades than buy requests. */
  lemma {:induction false} OneBuyPerTrade(t: Table, ds: seq<Trade>)
    requires AllLegal(t, ds)
    ensures |Buyers(Replay(t, ds))| + |ds| == |Buyers(t)|
    decreases |ds|
  {
    if ds == [] {
    } else {
      var u := Apply(t, ds[0]);
      assert Buyers(u) == Buyers(t) - {ds[0].buyId};
      OneBuyPerTrade(u, ds[1..]);
    }
  }
}
