/** What `Exchange::request_step` and `Exchange::process_requests` do to the value of the
    database under an arbitrary pattern of failures, and the theorem that a step is all or
    nothing. */
module Matching {
  import opened Orders
  import opened Pairs
  import opened Trades
  import opened Ledger
  import opened Store

  /** How a call ends: it returns; it throws an SQLite::Exception, which `process_requests`
      catches; it throws something nothing catches, which ends the process; or it has
      dereferenced what is not there (a missing wallet, or `currencies[1]` of a currency
      without a separator), and C++ says nothing about what follows. */
  datatype Flow = Next | Caught | Escaped | Undefined

  /** RequestSideInfo. */
  datatype Party = Party(request: nat, user: nat, amount: real, currency: string)

  /** What a step exchanges. */
  function Lesser(buyer: real, seller: real): (amount: real)
    ensures amount <= buyer && amount <= seller && (amount == buyer || amount == seller)
  {
    if buyer >= seller then seller else buyer
  }

  datatype Progress = Written | Refused | Missing

  /** The database part of the way through the insertions of `request_step`. */
  datatype Writing = Writing(db: Db, so: Progress)

  /** `make_transaction(wallet->id, ...)` inside `request_step`. */
  ghost function Post(at: Writing, f: Oracle, wallet: Option<nat>, amount: real, kind: Kind): Writing {
    if !at.so.Written? then at
    else if wallet.None? then Writing(at.db, Missing)
    else if f(at.db.clock) then Writing(at.db.Tick(1), Refused)
    else Writing(at.db.Tick(1).(transactions :=
      at.db.transactions + [Entry(wallet.value, amount, kind, EXCHANGE_ACTIONS)]), Written)
  }

  /** The four insertions of `request_step`. */
  ghost function Pay(d: Db, f: Oracle, b: Party, s: Party, amount: real, cost: real): Writing {
    var at1 := Post(Writing(d, Written), f, FirstWallet(d.wallets, b.user, s.currency), cost, Withdraw);
    var at2 := Post(at1, f, FirstWallet(d.wallets, b.user, b.currency), amount, Deposit);
    var at3 := Post(at2, f, FirstWallet(d.wallets, s.user, b.currency), amount, Withdraw);
    Post(at3, f, FirstWallet(d.wallets, s.user, s.currency), cost, Deposit)
  }

  /** The deletion of the buy row and what follows it.  The tables of `saved` come back unless all
      of it succeeds. */
  ghost function Conclude(d: Db, saved: Db, f: Oracle, b: Party, s: Party, amount: real): (Db, Flow) {
    if f(d.clock) then (d.Tick(1).Rewind(saved), Caught)
    else if b.request !in d.requests then (d.Tick(1).Rewind(saved), Next)
    else
      TakeFromSeller(d.Tick(1).(requests := d.requests - {b.request}), saved, f, b, d.requests[b.request], s, amount)
  }

  /** The deletion or update of the sell row, and the commit. */
  ghost function TakeFromSeller(
    d: Db, saved: Db, f: Oracle, b: Party, buy: Request, s: Party, amount: real): (Db, Flow)
  {
    if f(d.clock) then (d.Tick(1).Rewind(saved), Caught)
    else if s.request !in d.requests then (d.Tick(1).Rewind(saved), Next)
    else if f(d.clock + 1) then (d.Tick(2).Rewind(saved), Caught)
    else
      var sell := d.requests[s.request];
      var requests := if b.amount >= s.amount then d.requests - {s.request}
                      else d.requests[s.request := sell.(amount := s.amount - amount)];
      (d.Tick(2).(requests := requests,
                  trades := d.trades + [Trade(b.request, buy, s.request, sell, amount)]), Next)
  }

  /** `request_step`, from just after BEGIN to the end of the transaction's scope. */
  ghost function RequestStep(db: Db, f: Oracle, b: Party, s: Party, price: real): (Db, Flow) {
    if f(db.clock) then (db.Tick(1), Escaped)
    else if f(db.clock + 1) then (db.Tick(2), Escaped)
    else
      var amount := Lesser(b.amount, s.amount);
      var at := Pay(db.Tick(2), f, b, s, amount, Cost(amount, price));
      match at.so
      case Refused => (at.db.Rewind(db), Next)
      case Missing => (at.db.Rewind(db), Undefined)
      case Written => Conclude(at.db, db, f, b, s, amount)
  }

  /** The parties as `process_requests` fills them in from its cursors' rows. */
  function BuyingParty(buyer: Row, left: real): Party {
    Party(buyer.id, buyer.req.user, left, Base(buyer.req.currency))
  }

  function SellingParty(buyer: Row, seller: Row): Party {
    Party(seller.id, seller.req.user, seller.req.amount, Quote(buyer.req.currency))
  }

  /** One seller row found for the buyer row: BEGIN and `request_step`. */
  ghost function Try(d: Db, f: Oracle, buyer: Row, seller: Row, left: real): (Db, Flow) {
    if !IsPair(buyer.req.currency) then (d, Undefined)
    else if f(d.clock) then (d.Tick(1), Caught)
    else RequestStep(d.Tick(1), f, BuyingParty(buyer, left), SellingParty(buyer, seller), buyer.req.price)
  }

  /** `difference`: what the buyer asks of the seller after this one. */
  function Remaining(left: real, seller: Row): real {
    left - seller.req.amount
  }

  /** The partial-fill loop. */
  ghost function Partial(d: Db, f: Oracle, buyer: Row, sellers: seq<Row>, left: real): (Db, Flow)
    decreases |sellers|
  {
    if f(d.clock) then (d.Tick(1), Caught)
    else if sellers == [] || left <= 0.0 then (d.Tick(1), Next)
    else
      var (e, flow) := Try(d.Tick(1), f, buyer, sellers[0], left);
      if !flow.Next? then (e, flow)
      else Partial(e, f, buyer, sellers[1..], Remaining(left, sellers[0]))
  }

  /** The body of the outer loop for one buyer row. */
  ghost function Visit(d: Db, f: Oracle, buyer: Row): (Db, Flow) {
    var b := buyer.req;
    if f(d.clock) then (d.Tick(1), Caught)
    else if Covering(d.requests, b) != {} then
      Try(d.Tick(1), f, buyer, RowOf(d.requests, First(d.requests, Covering(d.requests, b))), b.amount)
    else
      Partial(d.Tick(1), f, buyer, Cursor(d.requests, Smaller(d.requests, b)), b.amount)
  }

  /** The outer loop over the rows the buyers' cursor still holds. */
  ghost function PassFrom(d: Db, f: Oracle, buyers: seq<Row>): (Db, Flow)
    decreases |buyers|
  {
    if f(d.clock) then (d.Tick(1), Caught)
    else if buyers == [] then (d.Tick(1), Next)
    else
      var (e, flow) := Visit(d.Tick(1), f, buyers[0]);
      if !flow.Next? then (e, flow) else PassFrom(e, f, buyers[1..])
  }

  ghost function ProcessRequests(d: Db, f: Oracle): (Db, Flow) {
    PassFrom(d, f, Cursor(d.requests, Buyers(d.requests)))
  }

  // ----- One step is all or nothing -----

  /** The trade a successful step on these cursor rows commits. */
  function Deal(buyer: Row, seller: Row, left: real): Trade {
    Trade(buyer.id, buyer.req, seller.id, seller.req,
          Lesser(left, seller.req.amount))
  }

  /** The database after the whole of a trade. */
  ghost function Commit(d: Db, t: Trade): Db {
    d.(requests := Apply(d.requests, t),
       transactions := d.transactions + Entries(d.wallets, t),
       trades := d.trades + [t])
  }

  /** The row read from a cursor is, if still there, as it was read. */
  predicate Fresh(t: Table, row: Row) {
    row.id in t ==> t[row.id] == row.req
  }

  /** The rows a step inserts, in order. */
  ghost function Legs(w: seq<WalletRow>, b: Party, s: Party, amount: real, cost: real): seq<Entry> {
    [Entry(WalletId(w, b.user, s.currency), cost, Withdraw, EXCHANGE_ACTIONS),
     Entry(WalletId(w, b.user, b.currency), amount, Deposit, EXCHANGE_ACTIONS),
     Entry(WalletId(w, s.user, b.currency), amount, Withdraw, EXCHANGE_ACTIONS),
     Entry(WalletId(w, s.user, s.currency), cost, Deposit, EXCHANGE_ACTIONS)]
  }

  ghost predicate Equipped(w: seq<WalletRow>, b: Party, s: Party) {
    && FirstWallet(w, b.user, s.currency).Some? && FirstWallet(w, b.user, b.currency).Some?
    && FirstWallet(w, s.user, b.currency).Some? && FirstWallet(w, s.user, s.currency).Some?
  }

  /** The four insertions are either all made or leave something to roll back. */
  lemma PayOutcome(d: Db, f: Oracle, b: Party, s: Party, amount: real, cost: real)
    ensures var at := Pay(d, f, b, s, amount, cost);
            && d.clock <= at.db.clock
            && at.db == d.(transactions := at.db.transactions, clock := at.db.clock)
            && (at.so.Written? ==>
                  && Equipped(d.wallets, b, s)
                  && at.db.transactions == d.transactions + Legs(d.wallets, b, s, amount, cost))
            && (ReliableFrom(f, d.clock) ==> !at.so.Refused?)
            && (at.so.Missing? ==> !Equipped(d.wallets, b, s))
  {
    var legs := Legs(d.wallets, b, s, amount, cost);
    OneByOne(d.transactions, legs[0], legs[1], legs[2], legs[3]);
  }

  lemma ConcludeOutcome(d: Db, saved: Db, f: Oracle, b: Party, s: Party, amount: real)
    requires saved.clock <= d.clock && d == saved.(transactions := d.transactions, clock := d.clock)
    requires b.request != s.request
    ensures var (e, flow) := Conclude(d, saved, f, b, s, amount);
            if flow.Next? && e.trades != saved.trades
            then && b.request in d.requests && s.request in d.requests && d.clock <= e.clock
                 && e == d.(requests := Filled(d.requests, b, s, amount), clock := e.clock, trades := d.trades
                     + [Trade(b.request, d.requests[b.request], s.request, d.requests[s.request], amount)])
            else saved.Same(e)
    ensures !Conclude(d, saved, f, b, s, amount).1.Undefined?
    ensures ReliableFrom(f, d.clock) ==>
            var (e, flow) := Conclude(d, saved, f, b, s, amount);
            flow.Next? && (e.trades != saved.trades <==> b.request in d.requests && s.request in d.requests)
  {
  }

  /** The table after the buy row is deleted and the sell row deleted or updated. */
  ghost function Filled(t: Table, b: Party, s: Party, amount: real): Table
    requires s.request in t
  {
    if b.amount >= s.amount then t - {b.request, s.request}
    else (t - {b.request})[s.request := t[s.request].(amount := s.amount - amount)]
  }

  /** A step in terms of what it is made of. */
  lemma RequestStepEnds(db: Db, f: Oracle, b: Party, s: Party, price: real)
    requires b.request != s.request
    ensures var (e, flow) := RequestStep(db, f, b, s, price);
            var amount := Lesser(b.amount, s.amount);
            if flow.Next? && e.trades != db.trades
            then && b.request in db.requests && s.request in db.requests && db.clock <= e.clock
                 && Equipped(db.wallets, b, s)
                 && e == db.(
                   requests := Filled(db.requests, b, s, amount),
                   transactions := db.transactions + Legs(db.wallets, b, s, amount, Cost(amount, price)),
                   trades := db.trades
                     + [Trade(b.request, db.requests[b.request], s.request, db.requests[s.request], amount)],
                   clock := e.clock)
            else db.Same(e)
    ensures ReliableFrom(f, db.clock) ==>
            var (e, flow) := RequestStep(db, f, b, s, price);
            || flow.Undefined?
            || (flow.Next? && (e.trades != db.trades <==> b.request in db.requests && s.request in db.requests))
    ensures RequestStep(db, f, b, s, price).1.Undefined? ==> !Equipped(db.wallets, b, s)
  {
    var amount := Lesser(b.amount, s.amount);
    PayOutcome(db.Tick(2), f, b, s, amount, Cost(amount, price));
    var at := Pay(db.Tick(2), f, b, s, amount, Cost(amount, price));
    if at.so.Written? {
      ConcludeOutcome(at.db, db, f, b, s, amount);
    }
  }

  /** A row of the log: so much into or out of the first wallet that the user has in the currency. */
  ghost predicate Posted(w: seq<WalletRow>, e: Entry, user: nat, currency: string, kind: Kind, amount: real) {
    && 1 <= e.wallet <= |w| && w[e.wallet - 1] == WalletRow(user, currency)
    && WalletRow(user, currency) !in w[..e.wallet - 1]
    && e.kind == kind && e.amount == amount && e.description == "Exchange actions"
  }

  /** The buyer pays amount times price and gets the amount, and the seller gives and gets the same. */
  ghost predicate Exchanged(w: seq<WalletRow>, es: seq<Entry>, b: Party, s: Party, amount: real, price: real) {
    && |es| == 4
    && Posted(w, es[0], b.user, s.currency, Withdraw, amount * price)
    && Posted(w, es[1], b.user, b.currency, Deposit, amount)
    && Posted(w, es[2], s.user, b.currency, Withdraw, amount)
    && Posted(w, es[3], s.user, s.currency, Deposit, amount * price)
  }

  lemma LegsExchange(w: seq<WalletRow>, b: Party, s: Party, amount: real, price: real)
    requires Equipped(w, b, s)
    ensures Exchanged(w, Legs(w, b, s, amount, Cost(amount, price)), b, s, amount, price)
  {
  }

  /** The step has been made: the lesser of the two amounts is exchanged, the buy request is gone,
      and the sell request is gone or keeps the rest. */
  ghost predicate StepDone(d: Db, e: Db, b: Party, s: Party, price: real) {
    var t := d.requests - {b.request};
    && b.request in d.requests && s.request in d.requests && d.clock <= e.clock
    && d.transactions <= e.transactions
    && Exchanged(d.wallets, e.transactions[|d.transactions|..], b, s,
                 if b.amount >= s.amount then s.amount else b.amount, price)
    && e.requests == (if b.amount >= s.amount then t - {s.request}
                      else t[s.request := d.requests[s.request].(amount := s.amount - b.amount)])
    && e == d.(requests := e.requests, transactions := e.transactions, trades := e.trades, clock := e.clock)
  }

  lemma LegsAreDone(d: Db, e: Db, b: Party, s: Party, price: real, legs: seq<Entry>)
    requires b.request in d.requests && s.request in d.requests && b.request != s.request && d.clock <= e.clock
    requires e.requests == Filled(d.requests, b, s, Lesser(b.amount, s.amount))
    requires Exchanged(d.wallets, legs, b, s, Lesser(b.amount, s.amount), price)
    requires e == d.(requests := e.requests, transactions := d.transactions + legs,
                     trades := e.trades, clock := e.clock)
    ensures StepDone(d, e, b, s, price)
  {
    assert e.transactions[|d.transactions|..] == legs;
  }

  /** `request_step` on its own terms: all four rows are written and both requests changed, or
      nothing is; and once nothing fails, it is done exactly when both requests are there. */
  lemma RequestStepOutcome(db: Db, f: Oracle, b: Party, s: Party, price: real)
    requires b.request != s.request
    ensures var (e, flow) := RequestStep(db, f, b, s, price);
            if flow.Next? && e.trades != db.trades then StepDone(db, e, b, s, price) else db.Same(e)
    ensures ReliableFrom(f, db.clock) ==>
            var (e, flow) := RequestStep(db, f, b, s, price);
            || flow.Undefined?
            || (flow.Next? && (e.trades != db.trades <==> b.request in db.requests && s.request in db.requests))
  {
    RequestStepEnds(db, f, b, s, price);
    var (e, flow) := RequestStep(db, f, b, s, price);
    var amount := Lesser(b.amount, s.amount);
    if flow.Next? && e.trades != db.trades {
      LegsExchange(db.wallets, b, s, amount, price);
      LegsAreDone(db, e, b, s, price, Legs(db.wallets, b, s, amount, Cost(amount, price)));
    }
  }

  /** On fresh rows, what a step writes is the whole of their trade. */
  lemma StepWritesTrade(d: Db, buyer: Row, seller: Row, left: real)
    requires IsPair(buyer.req.currency) && buyer.id != seller.id
    requires seller.id in d.requests && d.requests[seller.id] == seller.req
    ensures var b, s, t := BuyingParty(buyer, left), SellingParty(buyer, seller), Deal(buyer, seller, left);
            && Filled(d.requests, b, s, t.amount) == Apply(d.requests, t)
            && Legs(d.wallets, b, s, t.amount, Cost(t.amount, buyer.req.price)) == Entries(d.wallets, t)
            && (Equipped(d.wallets, b, s) <==> Payable(d.wallets, t))
  {
  }

  /** Under any failures a step leaves exactly the state it found or the complete trade. */
  lemma StepIsAtomic(d: Db, f: Oracle, buyer: Row, seller: Row, left: real)
    requires buyer.id != seller.id && Fresh(d.requests, buyer) && Fresh(d.requests, seller)
    ensures var (e, flow) := Try(d, f, buyer, seller, left);
            var t := Deal(buyer, seller, left);
            if flow.Next? && e.trades != d.trades
            then && buyer.id in d.requests && seller.id in d.requests
                 && Payable(d.wallets, t) && Commit(d, t).Same(e)
            else d.Same(e)
  {
    if IsPair(buyer.req.currency) && !f(d.clock) {
      RequestStepEnds(d.Tick(1), f, BuyingParty(buyer, left), SellingParty(buyer, seller), buyer.req.price);
      if seller.id in d.requests {
        StepWritesTrade(d, buyer, seller, left);
      }
    }
  }

  /** When nothing fails and no wallet is missing, the trade is made exactly when both rows are
      still there. */
  lemma StepCompletes(d: Db, f: Oracle, buyer: Row, seller: Row, left: real)
    requires ReliableFrom(f, d.clock) && buyer.id != seller.id
    ensures var (e, flow) := Try(d, f, buyer, seller, left);
            || flow.Undefined?
            || (flow.Next? && (e.trades != d.trades <==> buyer.id in d.requests && seller.id in d.requests))
  {
    if IsPair(buyer.req.currency) {
      RequestStepEnds(d.Tick(1), f, BuyingParty(buyer, left), SellingParty(buyer, seller), buyer.req.price);
    }
  }

  /** A missing wallet is the only way to undefined behaviour. */
  lemma StepIsDefined(d: Db, f: Oracle, buyer: Row, seller: Row, left: real)
    requires buyer.id != seller.id && Payable(d.wallets, Deal(buyer, seller, left))
    ensures !Try(d, f, buyer, seller, left).1.Undefined?
  {
    if !f(d.clock) {
      RequestStepEnds(d.Tick(1), f, BuyingParty(buyer, left), SellingParty(buyer, seller), buyer.req.price);
    }
  }
}
