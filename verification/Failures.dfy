/** How a failing operation ends a step, and a pass. */
module Failures {
  import opened Orders
  import opened Pairs
  import opened Ledger
  import opened Store
  import opened Matching

  /** Of the operations from `clock` on, the one at `at` is the first to fail. */
  ghost predicate FailsFirst(f: Oracle, clock: nat, at: nat) {
    clock <= at && f(at) && forall n: nat :: clock <= n < at ==> !f(n)
  }

  lemma PayEnds(d: Db, f: Oracle, b: Party, s: Party, amount: real, cost: real, at: nat)
    requires Equipped(d.wallets, b, s) && FailsFirst(f, d.clock, at)
    ensures var end := Pay(d, f, b, s, amount, cost);
            && end.db == d.(transactions := end.db.transactions, clock := end.db.clock)
            && end.so == (if at < d.clock + 4 then Refused else Written)
            && end.db.clock == if at < d.clock + 4 then at + 1 else d.clock + 4
  {
    var at0 := Writing(d, Written);
    var at1 := Post(at0, f, FirstWallet(d.wallets, b.user, s.currency), cost, Withdraw);
    var at2 := Post(at1, f, FirstWallet(d.wallets, b.user, b.currency), amount, Deposit);
    var at3 := Post(at2, f, FirstWallet(d.wallets, s.user, b.currency), amount, Withdraw);
    OnePost(d, at0, f, FirstWallet(d.wallets, b.user, s.currency), cost, Withdraw, at, 0);
    OnePost(d, at1, f, FirstWallet(d.wallets, b.user, b.currency), amount, Deposit, at, 1);
    OnePost(d, at2, f, FirstWallet(d.wallets, s.user, b.currency), amount, Withdraw, at, 2);
    OnePost(d, at3, f, FirstWallet(d.wallets, s.user, s.currency), cost, Deposit, at, 3);
  }

  /** The insertions after `n` of them, when the operation at `at` is the first to fail. */
  ghost predicate After(d: Db, so: Writing, at: nat, n: nat) {
    && so.db == d.(transactions := so.db.transactions, clock := so.db.clock)
    && so.so == (if at < d.clock + n then Refused else Written)
    && so.db.clock == if at < d.clock + n then at + 1 else d.clock + n
  }

  lemma OnePost(
    d: Db, so: Writing, f: Oracle, wallet: Option<nat>, amount: real, kind: Kind, at: nat, n: nat)
    requires FailsFirst(f, d.clock, at) && wallet.Some? && After(d, so, at, n)
    ensures After(d, Post(so, f, wallet, amount, kind), at, n + 1)
  {
  }

  lemma ConcludeFails(d: Db, saved: Db, f: Oracle, b: Party, s: Party, amount: real, at: nat)
    requires b.request in d.requests && s.request in d.requests && b.request != s.request
    requires FailsFirst(f, d.clock, at) && at < d.clock + 3
    ensures var (e, flow) := Conclude(d, saved, f, b, s, amount); flow.Caught? && e.clock == at + 1
  {
  }

  /** What the n-th operation of a step, counted from 0, does when it fails: the BEGIN, one of the
      deletions, the update and the commit end the pass but not the process; the two reads of
      the wallets end the process; and after the four insertions the pass goes on. */
  function EndedBy(n: nat): Flow {
    if n == 0 || n >= 7 then Caught else if n <= 2 then Escaped else Next
  }

  lemma StepAfterPay(db: Db, f: Oracle, b: Party, s: Party, price: real, amount: real, cost: real, at: Writing)
    requires !f(db.clock) && !f(db.clock + 1) && amount == Lesser(b.amount, s.amount) && cost == Cost(amount, price)
    requires at == Pay(db.Tick(2), f, b, s, amount, cost)
    ensures RequestStep(db, f, b, s, price) ==
            match at.so
            case Refused => (at.db.Rewind(db), Next)
            case Missing => (at.db.Rewind(db), Undefined)
            case Written => Conclude(at.db, db, f, b, s, amount)
  {
  }

  lemma WalletsReadFails(db: Db, f: Oracle, b: Party, s: Party, price: real, at: nat)
    requires FailsFirst(f, db.clock, at) && at < db.clock + 2
    ensures RequestStep(db, f, b, s, price) == (db.Tick(at - db.clock + 1), Escaped)
  {
  }

  lemma WritingFails(db: Db, f: Oracle, b: Party, s: Party, price: real, at: nat)
    requires b.request in db.requests && s.request in db.requests && b.request != s.request
    requires Equipped(db.wallets, b, s) && FailsFirst(f, db.clock, at) && db.clock + 2 <= at < db.clock + 9
    ensures var (e, flow) := RequestStep(db, f, b, s, price);
            && flow == (if at < db.clock + 6 then Next else Caught)
            && e.clock == at + 1 && (flow.Next? ==> e.trades == db.trades)
  {
    var amount := Lesser(b.amount, s.amount);
    var d, cost := db.Tick(2), Cost(amount, price);
    var end := Pay(d, f, b, s, amount, cost);
    PayEnds(d, f, b, s, amount, cost, at);
    StepAfterPay(db, f, b, s, price, amount, cost, end);
    if end.so.Written? {
      ConcludeFails(end.db, db, f, b, s, amount, at);
    }
  }

  lemma TryIsStep(d: Db, f: Oracle, buyer: Row, seller: Row, left: real)
    requires IsPair(buyer.req.currency) && !f(d.clock)
    ensures Try(d, f, buyer, seller, left) ==
            RequestStep(d.Tick(1), f, BuyingParty(buyer, left), SellingParty(buyer, seller), buyer.req.price)
  {
  }

  /** A step whose operation at `at` is the first to fail ends there as that operation decides, and
      leaves every table as it was. */
  lemma FirstFailureDecides(d: Db, f: Oracle, buyer: Row, seller: Row, left: real, at: nat)
    requires buyer.id != seller.id && buyer.id in d.requests && seller.id in d.requests
    requires Fresh(d.requests, buyer) && Fresh(d.requests, seller)
    requires Payable(d.wallets, Deal(buyer, seller, left)) && FailsFirst(f, d.clock, at) && at < d.clock + 10
    ensures var (e, flow) := Try(d, f, buyer, seller, left);
            flow == EndedBy(at - d.clock) && d.Same(e) && e.clock == at + 1
  {
    StepIsAtomic(d, f, buyer, seller, left);
    if d.clock < at {
      StepFails(d, f, buyer, seller, left, at);
    }
  }

  lemma StepFails(d: Db, f: Oracle, buyer: Row, seller: Row, left: real, at: nat)
    requires buyer.id != seller.id && buyer.id in d.requests && seller.id in d.requests
    requires Fresh(d.requests, seller) && Payable(d.wallets, Deal(buyer, seller, left))
    requires FailsFirst(f, d.clock, at) && d.clock < at < d.clock + 10
    ensures var (e, flow) := Try(d, f, buyer, seller, left);
            && flow == EndedBy(at - d.clock) && e.clock == at + 1 && (flow.Next? ==> e.trades == d.trades)
  {
    var u, b, s := d.Tick(1), BuyingParty(buyer, left), SellingParty(buyer, seller);
    TryIsStep(d, f, buyer, seller, left);
    if at <= d.clock + 2 {
      WalletsReadFails(u, f, b, s, buyer.req.price, at);
    } else {
      StepWritesTrade(d, buyer, seller, left);
      WritingFails(u, f, b, s, buyer.req.price, at);
    }
  }

  // ----- A pass ends with the operation that fails -----

  predicate Thrown(flow: Flow) {
    flow.Caught? || flow.Escaped?
  }

  /** If it ends in an exception, that is of the operation at `at`, and nothing is done after it. */
  ghost predicate EndsAt(e: Db, flow: Flow, f: Oracle, clock: nat, at: nat) {
    clock <= e.clock && (Thrown(flow) ==> clock <= at && f(at) && e.clock == at + 1)
  }

  lemma ConcludeEndsAt(d: Db, saved: Db, f: Oracle, b: Party, s: Party, amount: real) returns (at: nat)
    ensures var (e, flow) := Conclude(d, saved, f, b, s, amount); EndsAt(e, flow, f, d.clock, at)
  {
    at := if f(d.clock) then d.clock else if f(d.clock + 1) then d.clock + 1 else d.clock + 2;
  }

  lemma WritingEndsAt(db: Db, f: Oracle, b: Party, s: Party, price: real) returns (at: nat)
    requires !f(db.clock) && !f(db.clock + 1)
    ensures var (e, flow) := RequestStep(db, f, b, s, price); EndsAt(e, flow, f, db.clock, at)
  {
    var amount := Lesser(b.amount, s.amount);
    var end := Pay(db.Tick(2), f, b, s, amount, Cost(amount, price));
    PayOutcome(db.Tick(2), f, b, s, amount, Cost(amount, price));
    StepAfterPay(db, f, b, s, price, amount, Cost(amount, price), end);
    at := ConcludeEndsAt(end.db, db, f, b, s, amount);
  }

  lemma ReadingEndsAt(db: Db, f: Oracle, b: Party, s: Party, price: real) returns (at: nat)
    requires f(db.clock) || f(db.clock + 1)
    ensures var (e, flow) := RequestStep(db, f, b, s, price); EndsAt(e, flow, f, db.clock, at)
  {
    at := if f(db.clock) then db.clock else db.clock + 1;
    assert RequestStep(db, f, b, s, price) == (db.Tick(at - db.clock + 1), Escaped);
  }

  lemma RequestStepEndsAt(db: Db, f: Oracle, b: Party, s: Party, price: real) returns (at: nat)
    ensures var (e, flow) := RequestStep(db, f, b, s, price); EndsAt(e, flow, f, db.clock, at)
  {
    if f(db.clock) || f(db.clock + 1) {
      at := ReadingEndsAt(db, f, b, s, price);
    } else {
      at := WritingEndsAt(db, f, b, s, price);
    }
  }

  lemma TryEndsAt(d: Db, f: Oracle, buyer: Row, seller: Row, left: real) returns (at: nat)
    ensures var (e, flow) := Try(d, f, buyer, seller, left); EndsAt(e, flow, f, d.clock, at)
  {
    at := d.clock;
    if IsPair(buyer.req.currency) && !f(d.clock) {
      TryIsStep(d, f, buyer, seller, left);
      at := RequestStepEndsAt(
        d.Tick(1), f, BuyingParty(buyer, left), SellingParty(buyer, seller), buyer.req.price);
    }
  }

  lemma {:induction false} PartialEndsAt(d: Db, f: Oracle, buyer: Row, sellers: seq<Row>, left: real)
    returns (at: nat)
    ensures var (e, flow) := Partial(d, f, buyer, sellers, left); EndsAt(e, flow, f, d.clock, at)
    decreases |sellers|
  {
    at := d.clock;
    if f(d.clock) || sellers == [] || left <= 0.0 {
    } else {
      at := TryEndsAt(d.Tick(1), f, buyer, sellers[0], left);
      var result := Try(d.Tick(1), f, buyer, sellers[0], left);
      if result.1.Next? {
        at := PartialEndsAt(result.0, f, buyer, sellers[1..], Remaining(left, sellers[0]));
      }
    }
  }

  lemma VisitEndsAt(d: Db, f: Oracle, buyer: Row) returns (at: nat)
    ensures var (e, flow) := Visit(d, f, buyer); EndsAt(e, flow, f, d.clock, at)
  {
    var b := buyer.req;
    if f(d.clock) {
      at := d.clock;
    } else if Covering(d.requests, b) != {} {
      at := TryEndsAt(
        d.Tick(1), f, buyer, RowOf(d.requests, First(d.requests, Covering(d.requests, b))), b.amount);
    } else {
      at := PartialEndsAt(d.Tick(1), f, buyer, Cursor(d.requests, Smaller(d.requests, b)), b.amount);
    }
  }

  lemma {:induction false} PassFromEndsAt(d: Db, f: Oracle, buyers: seq<Row>) returns (at: nat)
    ensures var (e, flow) := PassFrom(d, f, buyers); EndsAt(e, flow, f, d.clock, at)
    decreases |buyers|
  {
    at := d.clock;
    if f(d.clock) || buyers == [] {
    } else {
      at := VisitEndsAt(d.Tick(1), f, buyers[0]);
      var result := Visit(d.Tick(1), f, buyers[0]);
      if result.1.Next? {
        at := PassFromEndsAt(result.0, f, buyers[1..]);
      }
    }
  }

  /** A pass that an exception ends, caught or not, ends with the very operation that failed. */
  lemma PassEndsWithFailure(d: Db, f: Oracle)
    ensures var (e, flow) := ProcessRequests(d, f);
            Thrown(flow) ==> exists at: nat :: d.clock <= at && f(at) && e.clock == at + 1
  {
    var at := PassFromEndsAt(d, f, Cursor(d.requests, Buyers(d.requests)));
  }
}
