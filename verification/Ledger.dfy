/** Wallets, the append-only transaction log and the balances derived from it. */
module Ledger {
  import opened Orders
  import opened Pairs
  import opened Trades

  /** Row i of the sequence is the wallet with id i + 1: rows are never deleted. */
  datatype WalletRow = WalletRow(user: nat, currency: string)

  datatype Kind = Withdraw | Deposit

  datatype Entry = Entry(wallet: nat, amount: real, kind: Kind, description: string)

  datatype WalletInfo = WalletInfo(id: nat, currency: string, amount: real)

  const EXCHANGE_ACTIONS := "Exchange actions"

  /** SELECT SUM(amount) ... WHERE wallet_id = ? and transaction_type = ?; no rows sum to 0. */
  function Sum(l: seq<Entry>, wallet: nat, kind: Kind): real {
    if l == [] then 0.0
    else
      var e := l[|l| - 1];
      Sum(l[..|l| - 1], wallet, kind) + (if e.wallet == wallet && e.kind == kind then e.amount else 0.0)
  }

  function Balance(l: seq<Entry>, wallet: nat): real {
    Sum(l, wallet, Deposit) - Sum(l, wallet, Withdraw)
  }

  /** What one entry does to the balance of `wallet`. */
  function Signed(e: Entry, wallet: nat): real {
    if e.wallet != wallet then 0.0 else if e.kind.Deposit? then e.amount else -e.amount
  }

  lemma BalanceAppend(l: seq<Entry>, e: Entry, wallet: nat)
    ensures Balance(l + [e], wallet) == Balance(l, wallet) + Signed(e, wallet)
  {
  }

  lemma OneByOne<T>(l: seq<T>, a: T, b: T, c: T, d: T)
    ensures l + [a] + [b] + [c] + [d] == l + [a, b, c, d]
  {
  }

  lemma BalanceOfFour(l: seq<Entry>, a: Entry, b: Entry, c: Entry, d: Entry, wallet: nat)
    ensures Balance(l + [a, b, c, d], wallet) ==
            Balance(l, wallet) + Signed(a, wallet) + Signed(b, wallet) + Signed(c, wallet) + Signed(d, wallet)
  {
    OneByOne(l, a, b, c, d);
    BalanceAppend(l, a, wallet);
    BalanceAppend(l + [a], b, wallet);
    BalanceAppend(l + [a] + [b], c, wallet);
    BalanceAppend(l + [a] + [b] + [c], d, wallet);
  }

  /** The wallet `find_if` stops at: the user's first wallet in that currency. */
  function FirstWallet(w: seq<WalletRow>, user: nat, currency: string): (r: Option<nat>)
    ensures r.Some? ==> 1 <= r.value <= |w| && w[r.value - 1] == WalletRow(user, currency)
                        && WalletRow(user, currency) !in w[..r.value - 1]
    ensures r.None? ==> WalletRow(user, currency) !in w
  {
    if w == [] then None
    else
      var n := |w| - 1;
      var r := FirstWallet(w[..n], user, currency);
      assert w == w[..n] + [w[n]];
      if r.Some? then (assert w[..n][..r.value - 1] == w[..r.value - 1]; r)
      else if w[n] == WalletRow(user, currency) then Some(n + 1)
      else None
  }

  /** Creating wallets never changes which wallet is found. */
  lemma {:induction false} FirstWalletStable(w: seq<WalletRow>, v: seq<WalletRow>, user: nat, currency: string)
    requires w <= v && FirstWallet(w, user, currency).Some?
    ensures FirstWallet(v, user, currency) == FirstWallet(w, user, currency)
    decreases |v|
  {
    if |v| == |w| {
      assert v == w;
    } else {
      FirstWalletStable(w, v[..|v| - 1], user, currency);
    }
  }

  /** Both parties own a wallet in both currencies of the pair. */
  predicate Payable(w: seq<WalletRow>, d: Trade) {
    && IsPair(d.buy.currency)
    && FirstWallet(w, d.buy.user, Quote(d.buy.currency)).Some?
    && FirstWallet(w, d.buy.user, Base(d.buy.currency)).Some?
    && FirstWallet(w, d.sell.user, Base(d.buy.currency)).Some?
    && FirstWallet(w, d.sell.user, Quote(d.buy.currency)).Some?
  }

  function Cost(amount: real, price: real): real {
    amount * price
  }

  /** 0 is no wallet's id. */
  function WalletId(w: seq<WalletRow>, user: nat, currency: string): nat {
    FirstWallet(w, user, currency).GetOr(0)
  }

  /** The four rows one trade appends. */
  function Entries(w: seq<WalletRow>, d: Trade): seq<Entry>
  {
    var base, quote := Base(d.buy.currency), Quote(d.buy.currency);
    [Entry(WalletId(w, d.buy.user, quote), Cost(d.amount, d.buy.price), Withdraw, EXCHANGE_ACTIONS),
     Entry(WalletId(w, d.buy.user, base), d.amount, Deposit, EXCHANGE_ACTIONS),
     Entry(WalletId(w, d.sell.user, base), d.amount, Withdraw, EXCHANGE_ACTIONS),
     Entry(WalletId(w, d.sell.user, quote), Cost(d.amount, d.buy.price), Deposit, EXCHANGE_ACTIONS)]
  }

  ghost predicate AllPairs(ds: seq<Trade>) {
    forall d :: d in ds ==> IsPair(d.buy.currency)
  }

  ghost predicate AllPayable(w: seq<WalletRow>, ds: seq<Trade>) {
    forall d :: d in ds ==> Payable(w, d)
  }

  /** All the rows a list of trades appends. */
  ghost function Journal(w: seq<WalletRow>, ds: seq<Trade>): (l: seq<Entry>)
    ensures |l| == 4 * |ds|
  {
    if ds == [] then [] else Journal(w, ds[..|ds| - 1]) + Entries(w, ds[|ds| - 1])
  }

  lemma JournalAppend(w: seq<WalletRow>, ds: seq<Trade>, d: Trade)
    ensures Journal(w, ds + [d]) == Journal(w, ds) + Entries(w, d)
  {
  }

  lemma Associative<T>(a: seq<T>, b: seq<T>, c: seq<T>)
    ensures a + (b + c) == a + b + c
  {
  }

  lemma LastApart<T>(a: seq<T>)
    requires a != []
    ensures a == a[..|a| - 1] + [a[|a| - 1]]
  {
  }

  lemma JournalConcatOne(w: seq<WalletRow>, a: seq<Trade>, ds: seq<Trade>, d: Trade)
    requires Journal(w, a + ds) == Journal(w, a) + Journal(w, ds)
    ensures Journal(w, a + (ds + [d])) == Journal(w, a) + Journal(w, ds + [d])
  {
    JournalAppend(w, a + ds, d);
    JournalAppend(w, ds, d);
    Associative(a, ds, [d]);
    Associative(Journal(w, a), Journal(w, ds), Entries(w, d));
  }

  lemma {:induction false} JournalConcat(w: seq<WalletRow>, a: seq<Trade>, b: seq<Trade>)
    ensures Journal(w, a + b) == Journal(w, a) + Journal(w, b)
    decreases |b|
  {
    if b == [] {
      assert a + b == a;
    } else {
      var ds, d := b[..|b| - 1], b[|b| - 1];
      JournalConcat(w, a, ds);
      JournalConcatOne(w, a, ds, d);
      LastApart(b);
    }
  }

  lemma {:induction false} JournalStable(w: seq<WalletRow>, v: seq<WalletRow>, ds: seq<Trade>)
    requires w <= v && AllPayable(w, ds)
    ensures AllPayable(v, ds) && Journal(v, ds) == Journal(w, ds)
    decreases |ds|
  {
    forall d | d in ds ensures Payable(v, d) && Entries(v, d) == Entries(w, d) {
      FirstWalletStable(w, v, d.buy.user, Quote(d.buy.currency));
      FirstWalletStable(w, v, d.buy.user, Base(d.buy.currency));
      FirstWalletStable(w, v, d.sell.user, Base(d.buy.currency));
      FirstWalletStable(w, v, d.sell.user, Quote(d.buy.currency));
    }
    if ds == [] {
    } else {
      JournalStable(w, v, ds[..|ds| - 1]);
    }
  }

  // ----- The zero-sum law -----

  /** All balances of one currency added up. */
  function Total(w: seq<WalletRow>, l: seq<Entry>, currency: string): real {
    if w == [] then 0.0
    else
      var n := |w| - 1;
      Total(w[..n], l, currency) + (if w[n].currency == currency then Balance(l, n + 1) else 0.0)
  }

  /** What one entry does to that sum. */
  function Share(w: seq<WalletRow>, e: Entry, currency: string): real {
    if 1 <= e.wallet <= |w| && w[e.wallet - 1].currency == currency then Signed(e, e.wallet) else 0.0
  }

  lemma {:induction false} TotalAppend(w: seq<WalletRow>, l: seq<Entry>, e: Entry, currency: string)
    ensures Total(w, l + [e], currency) == Total(w, l, currency) + Share(w, e, currency)
  {
    if w == [] {
    } else {
      var n := |w| - 1;
      TotalAppend(w[..n], l, e, currency);
      BalanceAppend(l, e, n + 1);
      ShareOfLast(w, e, currency);
    }
  }

  lemma ShareOfLast(w: seq<WalletRow>, e: Entry, currency: string)
    requires w != []
    ensures Share(w, e, currency) == Share(w[..|w| - 1], e, currency)
              + if w[|w| - 1].currency == currency then Signed(e, |w|) else 0.0
  {
  }

  lemma {:induction false} TotalOfNothing(w: seq<WalletRow>, currency: string)
    ensures Total(w, [], currency) == 0.0
  {
    if w == [] {
    } else {
      TotalOfNothing(w[..|w| - 1], currency);
    }
  }

  lemma LegTotal(w: seq<WalletRow>, user: nat, owned: string, amount: real, kind: Kind, currency: string)
    requires FirstWallet(w, user, owned).Some?
    ensures Share(w, Entry(WalletId(w, user, owned), amount, kind, EXCHANGE_ACTIONS), currency) ==
            if owned != currency then 0.0 else if kind.Deposit? then amount else -amount
  {
  }

  lemma {:induction false} TradeIsZeroSum(w: seq<WalletRow>, l: seq<Entry>, d: Trade, currency: string)
    requires Payable(w, d)
    ensures Total(w, l + Entries(w, d), currency) == Total(w, l, currency)
  {
    var es, base, quote := Entries(w, d), Base(d.buy.currency), Quote(d.buy.currency);
    LegTotal(w, d.buy.user, quote, es[0].amount, Withdraw, currency);
    LegTotal(w, d.buy.user, base, d.amount, Deposit, currency);
    LegTotal(w, d.sell.user, base, d.amount, Withdraw, currency);
    LegTotal(w, d.sell.user, quote, es[3].amount, Deposit, currency);
    OneByOne(l, es[0], es[1], es[2], es[3]);
    TotalAppend(w, l, es[0], currency);
    TotalAppend(w, l + [es[0]], es[1], currency);
    TotalAppend(w, l + [es[0]] + [es[1]], es[2], currency);
    TotalAppend(w, l + [es[0]] + [es[1]] + [es[2]], es[3], currency);
  }

  /** Whatever was traded, every currency's balances cancel out. */
  lemma {:induction false} JournalIsZeroSum(w: seq<WalletRow>, ds: seq<Trade>, currency: string)
    requires AllPayable(w, ds)
    ensures Total(w, Journal(w, ds), currency) == 0.0
    decreases |ds|
  {
    if ds == [] {
      TotalOfNothing(w, currency);
    } else {
      var n := |ds| - 1;
      JournalIsZeroSum(w, ds[..n], currency);
      TradeIsZeroSum(w, Journal(w, ds[..n]), ds[n], currency);
    }
  }

  // ----- Balances are a fold over the trades -----

  /** What one trade does to `user`'s holding of `currency`: bought minus sold in the base
      currency, received minus paid in the quote currency. */
  function Effect(d: Trade, user: nat, currency: string): real {
    EffectFor(d, d.amount * d.buy.price, user, currency)
  }

  /** The same for a trade at `cost` in all. */
  function EffectFor(d: Trade, cost: real, user: nat, currency: string): real {
    var holding := WalletRow(user, currency);
    var base, quote := Base(d.buy.currency), Quote(d.buy.currency);
    - When(WalletRow(d.buy.user, quote) == holding, cost)
    + When(WalletRow(d.buy.user, base) == holding, d.amount)
    - When(WalletRow(d.sell.user, base) == holding, d.amount)
    + When(WalletRow(d.sell.user, quote) == holding, cost)
  }

  function When(condition: bool, amount: real): real {
    if condition then amount else 0.0
  }

  ghost function Position(ds: seq<Trade>, user: nat, currency: string): real
  {
    if ds == [] then 0.0
    else Position(ds[..|ds| - 1], user, currency) + Effect(ds[|ds| - 1], user, currency)
  }

  /** What a trade means: the buyer has that much more of the base currency and has paid amount
      times price of the quote currency for it, the seller the reverse, and nobody else anything. */
  lemma TradeMovesMoney(ds: seq<Trade>, d: Trade, user: nat, currency: string)
    requires Base(d.buy.currency) != Quote(d.buy.currency) && d.buy.user != d.sell.user
    ensures var base, quote := Base(d.buy.currency), Quote(d.buy.currency);
            Position(ds + [d], user, currency) - Position(ds, user, currency) ==
            if user == d.buy.user && currency == base then d.amount
            else if user == d.buy.user && currency == quote then -(d.amount * d.buy.price)
            else if user == d.sell.user && currency == base then -d.amount
            else if user == d.sell.user && currency == quote then d.amount * d.buy.price
            else 0.0
  {
    PositionAppend(ds, d, user, currency);
    EffectByParty(d, d.amount * d.buy.price, user, currency);
  }

  lemma PositionAppend(ds: seq<Trade>, d: Trade, user: nat, currency: string)
    ensures Position(ds + [d], user, currency) == Position(ds, user, currency) + Effect(d, user, currency)
  {
    assert (ds + [d])[..|ds|] == ds;
  }

  lemma EffectByParty(d: Trade, cost: real, user: nat, currency: string)
    requires Base(d.buy.currency) != Quote(d.buy.currency) && d.buy.user != d.sell.user
    ensures var base, quote := Base(d.buy.currency), Quote(d.buy.currency);
            EffectFor(d, cost, user, currency) ==
            if user == d.buy.user && currency == base then d.amount
            else if user == d.buy.user && currency == quote then -cost
            else if user == d.sell.user && currency == base then -d.amount
            else if user == d.sell.user && currency == quote then cost
            else 0.0
  {
  }

  lemma LegShare(w: seq<WalletRow>, user: nat, currency: string, amount: real, kind: Kind, wallet: nat)
    requires FirstWallet(w, user, currency).Some? && 1 <= wallet <= |w|
    ensures Signed(Entry(WalletId(w, user, currency), amount, kind, EXCHANGE_ACTIONS), wallet) ==
            if FirstWallet(w, w[wallet - 1].user, w[wallet - 1].currency) != Some(wallet) then 0.0
            else if kind.Deposit? then When(WalletRow(user, currency) == w[wallet - 1], amount)
            else -When(WalletRow(user, currency) == w[wallet - 1], amount)
  {
  }

  lemma BalanceOfLegs(w: seq<WalletRow>, l: seq<Entry>, d: Trade, cost: real, es: seq<Entry>, wallet: nat)
    requires Payable(w, d) && 1 <= wallet <= |w| && es == Entries(w, d) && cost == es[0].amount == es[3].amount
    ensures var row := w[wallet - 1];
            Balance(l + es, wallet) == Balance(l, wallet) +
            if FirstWallet(w, row.user, row.currency) == Some(wallet)
            then EffectFor(d, cost, row.user, row.currency) else 0.0
  {
    var base, quote := Base(d.buy.currency), Quote(d.buy.currency);
    BalanceOfFour(l, es[0], es[1], es[2], es[3], wallet);
    assert es == [es[0], es[1], es[2], es[3]];
    LegShare(w, d.buy.user, quote, cost, Withdraw, wallet);
    LegShare(w, d.buy.user, base, d.amount, Deposit, wallet);
    LegShare(w, d.sell.user, base, d.amount, Withdraw, wallet);
    LegShare(w, d.sell.user, quote, cost, Deposit, wallet);
  }

  /** The quote rows are for the amount times the buyer's price. */
  lemma CostIsProduct(d: Trade, cost: real, user: nat, currency: string)
    requires cost == Cost(d.amount, d.buy.price)
    ensures EffectFor(d, cost, user, currency) == Effect(d, user, currency)
  {
    assert cost == d.amount * d.buy.price;
  }

  lemma BalanceOfEntries(w: seq<WalletRow>, l: seq<Entry>, d: Trade, wallet: nat)
    requires Payable(w, d) && 1 <= wallet <= |w|
    ensures var row := w[wallet - 1];
            Balance(l + Entries(w, d), wallet) == Balance(l, wallet) +
            if FirstWallet(w, row.user, row.currency) == Some(wallet)
            then Effect(d, row.user, row.currency) else 0.0
  {
    var es, row := Entries(w, d), w[wallet - 1];
    BalanceOfLegs(w, l, d, es[0].amount, es, wallet);
    CostIsProduct(d, es[0].amount, row.user, row.currency);
  }

  /** The balance computed for a wallet from its two sums is its owner's position in its
      currency; a second wallet of the same owner and currency stays at zero. */
  lemma {:induction false} BalanceIsPosition(w: seq<WalletRow>, ds: seq<Trade>, wallet: nat)
    requires AllPayable(w, ds) && 1 <= wallet <= |w|
    ensures var row := w[wallet - 1];
            Balance(Journal(w, ds), wallet) ==
            if FirstWallet(w, row.user, row.currency) == Some(wallet)
            then Position(ds, row.user, row.currency) else 0.0
    decreases |ds|
  {
    if ds == [] {
    } else {
      var n := |ds| - 1;
      BalanceIsPosition(w, ds[..n], wallet);
      BalanceOfEntries(w, Journal(w, ds[..n]), ds[n], wallet);
    }
  }

  /** The vector `Wallet::wallets` returns: the user's wallets in id order with their balances. */
  function Infos(w: seq<WalletRow>, l: seq<Entry>, user: nat): seq<WalletInfo> {
    if w == [] then []
    else
      var n := |w| - 1;
      Infos(w[..n], l, user)
      + (if w[n].user == user then [WalletInfo(n + 1, w[n].currency, Balance(l, n + 1))] else [])
  }

  /** A wallet of the user with its balance. */
  predicate IsInfo(info: WalletInfo, w: seq<WalletRow>, l: seq<Entry>, user: nat) {
    && 1 <= info.id <= |w| && w[info.id - 1] == WalletRow(user, info.currency)
    && info.amount == Balance(l, info.id)
  }

  predicate Names(infos: seq<WalletInfo>, id: nat) {
    exists k :: 0 <= k < |infos| && infos[k].id == id
  }

  /** `infos` has all the user's wallets and nothing else, in id order, with their balances. */
  ghost predicate ListsWallets(infos: seq<WalletInfo>, w: seq<WalletRow>, l: seq<Entry>, user: nat) {
    && (forall k :: 0 <= k < |infos| ==> IsInfo(infos[k], w, l, user))
    && (forall i :: 0 <= i < |w| && w[i].user == user ==> Names(infos, i + 1))
    && (forall i, j :: 0 <= i < j < |infos| ==> infos[i].id < infos[j].id)
  }

  lemma ListsOthers(infos: seq<WalletInfo>, v: seq<WalletRow>, row: WalletRow, l: seq<Entry>, user: nat)
    requires ListsWallets(infos, v, l, user) && row.user != user
    ensures ListsWallets(infos, v + [row], l, user)
  {
    var w := v + [row];
    assert forall i :: 0 <= i < |v| ==> w[i] == v[i];
    forall k | 0 <= k < |infos| ensures IsInfo(infos[k], w, l, user) {
      assert IsInfo(infos[k], v, l, user);
    }
  }

  lemma NamesAppend(few: seq<WalletInfo>, info: WalletInfo, id: nat)
    requires Names(few, id) || info.id == id
    ensures Names(few + [info], id)
  {
    if Names(few, id) {
      var k :| 0 <= k < |few| && few[k].id == id;
      assert (few + [info])[k].id == id;
    } else {
      assert (few + [info])[|few|].id == id;
    }
  }

  lemma ListsOneMore(few: seq<WalletInfo>, w: seq<WalletRow>, l: seq<Entry>, info: WalletInfo, user: nat)
    requires w != [] && ListsWallets(few, w[..|w| - 1], l, user)
    requires info.id == |w| && IsInfo(info, w, l, user)
    ensures ListsWallets(few + [info], w, l, user)
  {
    var v, infos := w[..|w| - 1], few + [info];
    forall i | 0 <= i < |w| && w[i].user == user ensures Names(infos, i + 1) {
      assert i < |v| ==> v[i] == w[i];
      NamesAppend(few, info, i + 1);
    }
    forall k | 0 <= k < |infos| ensures IsInfo(infos[k], w, l, user) {
      if k < |few| {
        assert IsInfo(few[k], v, l, user);
      }
    }
    assert forall k :: 0 <= k < |few| ==> IsInfo(few[k], v, l, user);
  }

  lemma {:induction false} InfosListWallets(w: seq<WalletRow>, l: seq<Entry>, user: nat)
    ensures ListsWallets(Infos(w, l, user), w, l, user)
  {
    if w == [] {
    } else {
      var n := |w| - 1;
      InfosListWallets(w[..n], l, user);
      LastApart(w);
      if w[n].user == user {
        ListsOneMore(Infos(w[..n], l, user), w, l, WalletInfo(n + 1, w[n].currency, Balance(l, n + 1)), user);
      } else {
        assert Infos(w[..n], l, user) + [] == Infos(w[..n], l, user);
        ListsOthers(Infos(w[..n], l, user), w[..n], w[n], l, user);
      }
    }
  }

  /** find_if by currency. */
  function FindIn(infos: seq<WalletInfo>, currency: string): Option<nat> {
    if infos == [] then None
    else if infos[0].currency == currency then Some(infos[0].id)
    else FindIn(infos[1..], currency)
  }

  lemma {:induction false} FindInAppend(a: seq<WalletInfo>, b: seq<WalletInfo>, currency: string)
    ensures FindIn(a + b, currency) == if FindIn(a, currency).Some? then FindIn(a, currency) else FindIn(b, currency)
  {
    if a == [] {
      assert a + b == b;
    } else {
      assert (a + b)[1..] == a[1..] + b;
      FindInAppend(a[1..], b, currency);
    }
  }

  /** Searching the returned vector finds the first wallet of the table. */
  lemma {:induction false} FindInInfos(w: seq<WalletRow>, l: seq<Entry>, user: nat, currency: string)
    ensures FindIn(Infos(w, l, user), currency) == FirstWallet(w, user, currency)
  {
    if w == [] {
    } else {
      var n := |w| - 1;
      FindInInfos(w[..n], l, user, currency);
      if w[n].user == user {
        FindInAppend(Infos(w[..n], l, user), [WalletInfo(n + 1, w[n].currency, Balance(l, n + 1))], currency);
      } else {
        assert Infos(w, l, user) == Infos(w[..n], l, user);
      }
    }
  }
}
