/** The SQLite database: four tables, transactions, and failures.

    A database is a mutable object; `Db` is its value.  Every operation on it (a query
    step, BEGIN, an INSERT, DELETE or UPDATE, COMMIT, and one whole `Wallet::wallets`
    read) advances `clock` by one, and the oracle says of each tick whether the operation
    that takes it fails.  Quantifying over the oracle is quantifying over every pattern
    of failures. */
module Store {
  import opened Orders
  import opened Trades
  import opened Ledger

  type Oracle = nat -> bool

  ghost predicate Reliable(f: Oracle) {
    forall n: nat :: !f(n)
  }

  /** Nothing fails any more. */
  ghost predicate ReliableFrom(f: Oracle, clock: nat) {
    forall n: nat :: clock <= n ==> !f(n)
  }

  /** Row i is the user with id i + 1: rows are never deleted. */
  datatype UserRow = UserRow(name: string, verifier: string)

  /** `placed`, `trades` and `removed` are history, read by no branch: the requests ever made
      (a request's `arrival` is its index), the committed trades, and the arrivals of the
      requests that `remove_request` deleted. */
  datatype Db = Db(
    requests: Table, wallets: seq<WalletRow>, transactions: seq<Entry>, users: seq<UserRow>,
    placed: seq<Request>, trades: seq<Trade>, removed: set<nat>, clock: nat)
  {
    function Tick(n: nat): Db {
      this.(clock := clock + n)
    }

    /** ROLLBACK: the tables of `saved`, with time and history as they are now. */
    function Rewind(saved: Db): Db {
      this.(requests := saved.requests, wallets := saved.wallets,
            transactions := saved.transactions, users := saved.users)
    }

    ghost predicate Same(later: Db) {
      clock <= later.clock && later == this.(clock := later.clock)
    }
  }

  const EMPTY := Db(map[], [], [], [], [], [], {}, 0)

  class Database {
    const fails: Oracle
    var requests: Table
    var wallets: seq<WalletRow>
    var transactions: seq<Entry>
    var users: seq<UserRow>
    var placed: seq<Request>
    var trades: seq<Trade>
    var removed: set<nat>
    var clock: nat

    constructor (fails: Oracle)
      ensures this.fails == fails && View() == EMPTY
    {
      this.fails := fails;
      requests, wallets, transactions, users := map[], [], [], [];
      placed, trades, removed, clock := [], [], {}, 0;
    }

    function View(): Db
      reads this
    {
      Db(requests, wallets, transactions, users, placed, trades, removed, clock)
    }

    /** Every operation starts here. */
    method Attempt() returns (ok: bool)
      modifies this`clock
      ensures ok == !fails(old(clock))
      ensures View() == old(View()).Tick(1)
    {
      ok := !fails(clock);
      clock := clock + 1;
    }
  }

  /** SQLite::Transaction after its BEGIN: leaving the scope without a commit rolls back. */
  class Transaction {
    const db: Database
    const saved: Db
    var open: bool

    constructor (db: Database)
      ensures this.db == db && open && saved == db.View()
    {
      this.db, saved, open := db, db.View(), true;
    }

    /** The database as it will be once the scope is left. */
    function Settled(): Db
      reads this, db
    {
      if open then db.View().Rewind(saved) else db.View()
    }

    method Rollback()
      requires open
      modifies this`open, db
      ensures !open && db.View() == old(Settled())
    {
      db.requests, db.wallets, db.transactions, db.users :=
        saved.requests, saved.wallets, saved.transactions, saved.users;
      open := false;
    }

    method Commit() returns (ok: bool)
      requires open
      modifies this`open, db`clock
      ensures ok == !db.fails(old(db.clock)) && open == !ok
      ensures db.View() == old(db.View()).Tick(1)
    {
      ok := db.Attempt();
      open := !ok;
    }

    /** The destructor. */
    method Leave()
      modifies this`open, db
      ensures !open && db.View() == old(Settled())
    {
      if open {
        Rollback();
      }
    }
  }
}
