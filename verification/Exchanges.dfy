/** `modules::Exchange`: the request table and the matching engine, as they run. */
module Exchanges {
  import opened Orders
  import opened Pairs
  import opened Trades
  import opened Ledger
  import opened Store
  import opened Wallets
  import Matching
  import Lives

  type Flow = Matching.Flow
  type Party = Matching.Party

  class Exchange {
    const db: Database

    constructor (db: Database)
      ensures this.db == db
    {
      this.db := db;
    }

    /** The id of the next row of `requests`. */
    method NextId() returns (next: nat)
      ensures next == Lives.NextId(db.requests.Keys)
    {
      next := 1;
      var todo := db.requests.Keys;
      while todo != {}
        invariant todo <= db.requests.Keys
        invariant forall id :: id in db.requests && id !in todo ==> id < next
        invariant next == 1 || next - 1 in db.requests
        invariant todo == db.requests.Keys || next - 1 in db.requests
        decreases todo
      {
        var id :| id in todo;
        if next <= id {
          next := id + 1;
        }
        todo := todo - {id};
      }
      assert db.requests.Keys != {} ==> next - 1 in db.requests.Keys;
    }

    method MakeRequest(user: nat, currency: string, amount: real, price: real, side: Side) returns (ok: bool)
      modifies db
      ensures (db.View(), ok) == Lives.MakeRequest(old(db.View()), db.fails, user, currency, amount, price, side)
    {
      ok := db.Attempt();
      if ok {
        var id := NextId();
        var r := Request(user, currency, amount, price, side, |db.placed|);
        db.requests := db.requests[id := r];
        db.placed := db.placed + [r];
      }
    }

    method RemoveRequest(id: nat) returns (ok: bool)
      modifies db
      ensures (db.View(), ok) == Lives.RemoveRequest(old(db.View()), db.fails, id)
      ensures ok <==> id in old(db.requests) && !db.fails(old(db.clock))
      ensures db.requests == if ok then old(db.requests) - {id} else old(db.requests)
    {
      ok := db.Attempt();
      if ok {
        ok := id in db.requests;
        if ok {
          db.removed := db.removed + {db.requests[id].arrival};
          db.requests := db.requests - {id};
        }
      }
    }

    /** One trade, all or nothing.  The caller ends the transaction's scope. */
    method RequestStep(wallet: Wallet, transaction: Transaction, b: Party, s: Party, price: real)
      returns (flow: Flow)
      requires wallet.db == db && transaction.db == db && transaction.open && transaction.saved == db.View()
      modifies db, transaction`open
      ensures (transaction.Settled(), flow) == Matching.RequestStep(old(db.View()), db.fails, b, s, price)
    {
      ghost var d, f := db.View(), db.fails;
      var buyerWallets := wallet.Wallets(b.user);
      if buyerWallets.None? {
        return Matching.Escaped;
      }
      var buyerFrom := FindIf(buyerWallets.value, s.currency);
      var buyerTo := FindIf(buyerWallets.value, b.currency);
      var sellerWallets := wallet.Wallets(s.user);
      if sellerWallets.None? {
        return Matching.Escaped;
      }
      var sellerFrom := FindIf(sellerWallets.value, b.currency);
      var sellerTo := FindIf(sellerWallets.value, s.currency);
      FindInInfos(d.wallets, d.transactions, b.user, s.currency);
      FindInInfos(d.wallets, d.transactions, b.user, b.currency);
      FindInInfos(d.wallets, d.transactions, s.user, b.currency);
      FindInInfos(d.wallets, d.transactions, s.user, s.currency);

      var amount := Matching.Lesser(b.amount, s.amount);
      var cost := Cost(amount, price);
      ghost var at0 := Matching.Writing(db.View(), Matching.Written);
      ghost var at1 := Matching.Post(at0, f, buyerFrom, cost, Withdraw);
      ghost var at2 := Matching.Post(at1, f, buyerTo, amount, Deposit);
      ghost var at3 := Matching.Post(at2, f, sellerFrom, amount, Withdraw);
      ghost var at4 := Matching.Post(at3, f, sellerTo, cost, Deposit);
      assert at4 == Matching.Pay(d.Tick(2), f, b, s, amount, cost);

      if buyerFrom.None? {
        return Matching.Undefined;
      }
      var ok := wallet.MakeTransaction(buyerFrom.value, cost, Withdraw, EXCHANGE_ACTIONS);
      if !ok {
        transaction.Rollback();
        return Matching.Next;
      }
      assert db.View() == at1.db && at1.so.Written?;
      if buyerTo.None? {
        return Matching.Undefined;
      }
      ok := wallet.MakeTransaction(buyerTo.value, amount, Deposit, EXCHANGE_ACTIONS);
      if !ok {
        transaction.Rollback();
        return Matching.Next;
      }
      assert db.View() == at2.db && at2.so.Written?;
      if sellerFrom.None? {
        return Matching.Undefined;
      }
      ok := wallet.MakeTransaction(sellerFrom.value, amount, Withdraw, EXCHANGE_ACTIONS);
      if !ok {
        transaction.Rollback();
        return Matching.Next;
      }
      assert db.View() == at3.db && at3.so.Written?;
      if sellerTo.None? {
        return Matching.Undefined;
      }
      ok := wallet.MakeTransaction(sellerTo.value, cost, Deposit, EXCHANGE_ACTIONS);
      if !ok {
        transaction.Rollback();
        return Matching.Next;
      }
      assert db.View() == at4.db && at4.so.Written?;
      flow := Conclude(transaction, b, s, amount);
    }

    /** The second half of `request_step`: the two requests and the commit. */
    method Conclude(transaction: Transaction, b: Party, s: Party, amount: real) returns (flow: Flow)
      requires transaction.db == db && transaction.open
      modifies db, transaction`open
      ensures (transaction.Settled(), flow) ==
              Matching.Conclude(old(db.View()), transaction.saved, db.fails, b, s, amount)
    {
      var ok := db.Attempt();
      if !ok {
        return Matching.Caught;
      }
      if b.request !in db.requests {
        transaction.Rollback();
        return Matching.Next;
      }
      var buy := db.requests[b.request];
      db.requests := db.requests - {b.request};
      flow := TakeFromSeller(transaction, b, buy, s, amount);
    }

    /** The sell row and the commit. */
    method TakeFromSeller(transaction: Transaction, b: Party, buy: Request, s: Party, amount: real)
      returns (flow: Flow)
      requires transaction.db == db && transaction.open
      modifies db, transaction`open
      ensures (transaction.Settled(), flow) ==
              Matching.TakeFromSeller(old(db.View()), transaction.saved, db.fails, b, buy, s, amount)
    {
      var ok := db.Attempt();
      if !ok {
        return Matching.Caught;
      }
      if s.request !in db.requests {
        transaction.Rollback();
        return Matching.Next;
      }
      var sell := db.requests[s.request];
      if b.amount >= s.amount {
        db.requests := db.requests - {s.request};
      } else {
        db.requests := db.requests[s.request := sell.(amount := s.amount - amount)];
      }

      ok := transaction.Commit();
      if !ok {
        return Matching.Caught;
      }
      db.trades := db.trades + [Trade(b.request, buy, s.request, sell, amount)];
      flow := Matching.Next;
    }

    /** BEGIN, `request_step` and the end of the transaction's scope, for one pair of cursor rows. */
    method Try(wallet: Wallet, buyer: Row, seller: Row, left: real) returns (flow: Flow)
      requires wallet.db == db
      modifies db
      ensures db.View() == Matching.Try(old(db.View()), db.fails, buyer, seller, left).0
      ensures flow == Matching.Try(old(db.View()), db.fails, buyer, seller, left).1
    {
      var currencies := Split(buyer.req.currency);
      if |currencies| < 2 {
        return Matching.Undefined;
      }
      var b := Matching.Party(buyer.id, buyer.req.user, left, currencies[0]);
      var s := Matching.Party(seller.id, seller.req.user, seller.req.amount, currencies[1]);
      var ok := db.Attempt();
      if !ok {
        return Matching.Caught;
      }
      var transaction := new Transaction(db);
      flow := RequestStep(wallet, transaction, b, s, buyer.req.price);
      transaction.Leave();
    }

    /** The loop over the sellers too small to fill the buyer. */
    method Partial(wallet: Wallet, buyer: Row) returns (flow: Flow)
      requires wallet.db == db
      modifies db
      ensures var rows := Cursor(old(db.requests), Smaller(old(db.requests), buyer.req));
              var result := Matching.Partial(old(db.View()), db.fails, buyer, rows, buyer.req.amount);
              db.View() == result.0 && flow == result.1
    {
      var sellers := OrderBy(db.requests, Smaller(db.requests, buyer.req));
      ghost var result := Matching.Partial(db.View(), db.fails, buyer, sellers, buyer.req.amount);
      var left := buyer.req.amount;
      var i := 0;
      while true
        invariant 0 <= i <= |sellers|
        invariant Matching.Partial(db.View(), db.fails, buyer, sellers[i..], left) == result
        decreases |sellers| - i
      {
        PartialUnfolds(db.View(), db.fails, buyer, sellers, left, i);
        var ok := db.Attempt();
        if !ok {
          return Matching.Caught;
        }
        if i == |sellers| || left <= 0.0 {
          return Matching.Next;
        }
        flow := Try(wallet, buyer, sellers[i], left);
        if flow != Matching.Next {
          return;
        }
        left := Matching.Remaining(left, sellers[i]);
        i := i + 1;
      }
    }

    /** The body of the loop over the buyers. */
    method Visit(wallet: Wallet, buyer: Row) returns (flow: Flow)
      requires wallet.db == db
      modifies db
      ensures db.View() == Matching.Visit(old(db.View()), db.fails, buyer).0
      ensures flow == Matching.Visit(old(db.View()), db.fails, buyer).1
    {
      var ok := db.Attempt();
      if !ok {
        return Matching.Caught;
      }
      ghost var covering := Covering(db.requests, buyer.req);
      var sellers := OrderBy(db.requests, Covering(db.requests, buyer.req));
      if sellers != [] {
        assert sellers[0] == RowOf(db.requests, First(db.requests, covering));
        flow := Try(wallet, buyer, sellers[0], buyer.req.amount);
      } else {
        flow := Partial(wallet, buyer);
      }
    }

    /** One matching pass over every buy request that is live when it starts. */
    method ProcessRequests(wallet: Wallet) returns (flow: Flow)
      requires wallet.db == db
      modifies db
      ensures db.View() == Matching.ProcessRequests(old(db.View()), db.fails).0
      ensures flow == Matching.ProcessRequests(old(db.View()), db.fails).1
    {
      var buyers := OrderBy(db.requests, Buyers(db.requests));
      ghost var result := Matching.PassFrom(db.View(), db.fails, buyers);
      var i := 0;
      while true
        invariant 0 <= i <= |buyers|
        invariant Matching.PassFrom(db.View(), db.fails, buyers[i..]) == result
        decreases |buyers| - i
      {
        ghost var d := db.View();
        PassFromUnfolds(d, db.fails, buyers, i);
        var ok := db.Attempt();
        if !ok {
          return Matching.Caught;
        }
        if i == |buyers| {
          return Matching.Next;
        }
        flow := Visit(wallet, buyers[i]);
        if flow != Matching.Next {
          return;
        }
        i := i + 1;
      }
    }
  }

  lemma PartialUnfolds(d: Db, f: Oracle, buyer: Row, sellers: seq<Row>, left: real, i: nat)
    requires i <= |sellers|
    ensures Matching.Partial(d, f, buyer, sellers[i..], left) ==
            if f(d.clock) then (d.Tick(1), Matching.Caught)
            else if i == |sellers| || left <= 0.0 then (d.Tick(1), Matching.Next)
            else
              var result := Matching.Try(d.Tick(1), f, buyer, sellers[i], left);
              if !result.1.Next? then result
              else Matching.Partial(result.0, f, buyer, sellers[i + 1..], Matching.Remaining(left, sellers[i]))
  {
  }

  lemma PassFromUnfolds(d: Db, f: Oracle, buyers: seq<Row>, i: nat)
    requires i <= |buyers|
    ensures Matching.PassFrom(d, f, buyers[i..]) ==
            if f(d.clock) then (d.Tick(1), Matching.Caught)
            else if i == |buyers| then (d.Tick(1), Matching.Next)
            else
              var result := Matching.Visit(d.Tick(1), f, buyers[i]);
              if !result.1.Next? then result else Matching.PassFrom(result.0, f, buyers[i + 1..])
  {
  }
}
