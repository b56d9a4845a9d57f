/** `modules::Wallet`: wallets and transactions are only ever appended; balances are summed
    from the transactions every time they are asked for. */
module Wallets {
  import opened Orders
  import opened Ledger
  import opened Store

  ghost function InsertWallet(d: Db, f: Oracle, user: nat, currency: string): (Db, Option<nat>) {
    if f(d.clock) then (d.Tick(1), None)
    else (d.Tick(1).(wallets := d.wallets + [WalletRow(user, currency)]), Some(|d.wallets| + 1))
  }

  /** Filling in the balances changes nothing else of the list. */
  lemma {:induction false} InfosAmounts(w: seq<WalletRow>, l: seq<Entry>, user: nat)
    ensures |Infos(w, l, user)| == |Infos(w, [], user)|
    ensures forall k :: 0 <= k < |Infos(w, l, user)| ==>
              var blank := Infos(w, [], user)[k];
              Infos(w, l, user)[k] == blank.(amount := Balance(l, blank.id))
  {
    if w == [] {
    } else {
      InfosAmounts(w[..|w| - 1], l, user);
    }
  }

  class Wallet {
    const db: Database

    constructor (db: Database)
      ensures this.db == db
    {
      this.db := db;
    }

    /** The new id, or none when the insertion fails. */
    method CreateWallet(user: nat, currency: string) returns (id: Option<nat>)
      modifies db
      ensures (db.View(), id) == InsertWallet(old(db.View()), db.fails, user, currency)
      ensures id.None? <==> db.fails(old(db.clock))
      ensures id.Some? ==> db.wallets == old(db.wallets) + [WalletRow(user, currency)] && id.value == |db.wallets|
    {
      var ok := db.Attempt();
      if !ok {
        return None;
      }
      db.wallets := db.wallets + [WalletRow(user, currency)];
      id := Some(|db.wallets|);
    }

    method MakeTransaction(wallet: nat, amount: real, kind: Kind, description: string) returns (ok: bool)
      modifies db
      ensures ok == !db.fails(old(db.clock))
      ensures var d := old(db.View()).Tick(1);
              db.View() == if ok then d.(transactions := d.transactions + [Entry(wallet, amount, kind, description)])
                           else d
    {
      ok := db.Attempt();
      if ok {
        db.transactions := db.transactions + [Entry(wallet, amount, kind, description)];
      }
    }

    /** SELECT SUM(amount) FROM transactions WHERE wallet_id = ? and transaction_type = ?. */
    method SumAmounts(wallet: nat, kind: Kind) returns (total: real)
      ensures total == Sum(db.transactions, wallet, kind)
    {
      total := 0.0;
      for i := 0 to |db.transactions|
        invariant total == Sum(db.transactions[..i], wallet, kind)
      {
        assert db.transactions[..i + 1][..i] == db.transactions[..i];
        if db.transactions[i].wallet == wallet && db.transactions[i].kind == kind {
          total := total + db.transactions[i].amount;
        }
      }
      assert db.transactions[..|db.transactions|] == db.transactions;
    }

    /** SELECT id, currency FROM wallets WHERE user_id = ?. */
    method WalletsOf(user: nat) returns (infos: seq<WalletInfo>)
      ensures infos == Infos(db.wallets, [], user)
    {
      infos := [];
      for i := 0 to |db.wallets|
        invariant infos == Infos(db.wallets[..i], [], user)
      {
        assert db.wallets[..i + 1][..i] == db.wallets[..i];
        if db.wallets[i].user == user {
          infos := infos + [WalletInfo(i + 1, db.wallets[i].currency, 0.0)];
        }
      }
      assert db.wallets[..|db.wallets|] == db.wallets;
    }

    /** The user's wallets with their balances: deposits less withdrawals. */
    method Wallets(user: nat) returns (r: Option<seq<WalletInfo>>)
      modifies db
      ensures db.View() == old(db.View()).Tick(1)
      ensures r == if db.fails(old(db.clock)) then None else Some(Infos(db.wallets, db.transactions, user))
    {
      var ok := db.Attempt();
      if !ok {
        return None;
      }
      var infos := WalletsOf(user);
      ghost var now := db.View();
      ghost var blank, full := infos, Infos(now.wallets, now.transactions, user);
      InfosAmounts(now.wallets, now.transactions, user);
      for i := 0 to |infos|
        invariant db.View() == now
        invariant |infos| == |full|
        invariant forall k :: 0 <= k < i ==> infos[k] == full[k]
        invariant forall k :: i <= k < |infos| ==> infos[k] == blank[k]
      {
        var amount := SumAmounts(infos[i].id, Deposit);
        var withdrawn := SumAmounts(infos[i].id, Withdraw);
        amount := amount - withdrawn;
        infos := infos[i := infos[i].(amount := amount)];
      }
      assert infos == full;
      r := Some(infos);
    }
  }

  /** std::find_if over the returned vector. */
  method FindIf(infos: seq<WalletInfo>, currency: string) returns (id: Option<nat>)
    ensures id == FindIn(infos, currency)
  {
    var i := 0;
    while i < |infos|
      invariant 0 <= i <= |infos|
      invariant FindIn(infos, currency) == FindIn(infos[i..], currency)
    {
      if infos[i].currency == currency {
        return Some(infos[i].id);
      }
      i := i + 1;
    }
    id := None;
  }
}
