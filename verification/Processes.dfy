/** The classes at work over a whole run: from an empty database, through starts, connections,
    messages and removals. */
module Processes {
  import opened Store
  import opened Servers
  import opened Runs

  /** What remains of the process after the events `es`: its last `Core`, on the same database, and
      whether it is still running. */
  method Serve(db: Database, es: seq<Event>) returns (core: Core, status: Status)
    requires db.View() == EMPTY
    modifies db
    ensures core.Valid() && core.db == db
    ensures World(core.Value(), status) == Run(db.fails, es)
  {
    core := new Core(db);
    status := Stopped;
    for i := 0 to |es|
      invariant core.Valid() && core.db == db && fresh(core) && fresh(core.login)
      invariant World(core.Value(), status) == Run(db.fails, es[..i])
    {
      assert es[..i + 1][..i] == es[..i];
      core, status := Take(core, status, es[i]);
    }
    assert es[..|es|] == es;
  }

  /** One event: a start makes a new `Core`, and any other event needs a running process. */
  method Take(core: Core, status: Status, e: Event) returns (next: Core, after: Status)
    requires core.Valid()
    modifies core.db, core, core.login
    ensures next.Valid() && next.db == core.db
    ensures next == core || fresh(next)
    ensures next.login == core.login || fresh(next.login)
    ensures World(next.Value(), after) == Handle(World(old(core.Value()), status), core.db.fails, e)
  {
    next, after := core, status;
    if status.Lost? || (status.Stopped? && !e.Boot?) {
      return;
    }
    match e
    case Boot =>
      next := new Core(core.db);
      var flow := next.Start();
      after := StatusAfter(flow);
    case Connect(session) =>
      core.OnSessionConnected(session);
    case Close(session) =>
      core.OnSessionClosed(session);
    case Receive(session, message) =>
      var outcome := core.OnMessage(session, message);
      after := if outcome.Gone? then StatusAfter(outcome.flow) else Running;
    case Remove(id) =>
      var ok := core.exchange.RemoveRequest(id);
  }
}
