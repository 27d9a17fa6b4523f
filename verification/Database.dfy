/** The model of database/sql and of the database behind it: a committed store, one workspace per
    transaction, and a history of everything that happened. */
module Database {
  import opened Text
  import opened Errors
  import opened SqlFilter
  import opened Rows
  import opened FileTree
  import opened ParameterValidator

  // ----- The environment -----

  /** What the driver answers to one request. */
  datatype Reply = Done(cursor: Cursor) | Failed(message: string)

  datatype MetadataQuery = AllScripts | AllVirtualSchemas | ScriptByName

  datatype Config = Config(bucketFsBasePath: string, extensionSchema: string)

  /** Everything the program does not decide. The replies are numbered in the order of the
      requests, so an arbitrary `replies` is an arbitrary pattern of failures and answers. */
  datatype Environment = Environment(
    config: Config,
    replies: nat -> Reply,
    unixTime: nat -> string,
    udfSource: string,
    metadataQuery: MetadataQuery -> string,
    regex: RegexEngine,
    rows: seq<BfsFile>)

  // ----- The state -----

  /** What a transaction was begun for. */
  datatype Kind = Main | BucketFs

  /** `open` is the done flag of the transaction object, negated. `intact` turns false when a
      statement ended the transaction in the database behind the object's back. */
  datatype Session = Session(kind: Kind, open: bool, intact: bool, writes: seq<string>)

  datatype Write = Write(tx: nat, statement: string)

  datatype Event =
    | Begun(tx: nat, kind: Kind)
    | Executed(tx: nat, statement: string)
    | Committed(tx: nat)
    | CommitFailed(tx: nat)
    | RolledBack(tx: nat)
    | RollbackFailed(tx: nat)
    | Invoked(callback: Function)

  /** `clock` counts the requests to the driver. */
  datatype World = World(committed: seq<Write>, sessions: seq<Session>, trace: seq<Event>, clock: nat)

  function Tagged(tx: nat, statements: seq<string>): (writes: seq<Write>)
    ensures |writes| == |statements| && forall i | 0 <= i < |writes| :: writes[i] == Write(tx, statements[i])
  {
    seq(|statements|, i requires 0 <= i < |statements| => Write(tx, statements[i]))
  }

  /** The statements a history reports for one transaction. */
  function StatementsOf(trace: seq<Event>, tx: nat): seq<string> {
    if trace == [] then []
    else
      var last := trace[|trace| - 1];
      StatementsOf(trace[..|trace| - 1], tx) + if last.Executed? && last.tx == tx then [last.statement] else []
  }

  predicate IsOpen(w: World, tx: nat) {
    tx < |w.sessions| && w.sessions[tx].open
  }

  const TX_DONE := Plain(TransactionDone)

  function Ticked(w: World): World {
    w.(clock := w.clock + 1)
  }

  function Logged(w: World, event: Event): World {
    w.(trace := w.trace + [event])
  }

  // ----- The operations -----

  function Begin(env: Environment, w: World, kind: Kind): (World, Result<nat>) {
    match env.replies(w.clock)
    case Failed(message) => (Ticked(w), Err(Plain(Other(message))))
    case Done(_) =>
      var tx := |w.sessions|;
      (Logged(Ticked(w).(sessions := w.sessions + [Session(kind, true, true, [])]), Begun(tx, kind)), Ok(tx))
  }

  /** The effect of a statement the database has executed. */
  function Effect(w: World, tx: nat, statement: string): World
    requires tx < |w.sessions|
  {
    var session := w.sessions[tx];
    if EndsTransaction(statement, "commit") then
      w.(committed := w.committed + Tagged(tx, session.writes),
         sessions := w.sessions[tx := session.(intact := false, writes := [])])
    else if EndsTransaction(statement, "rollback") then
      w.(sessions := w.sessions[tx := session.(intact := false, writes := [])])
    else
      w.(sessions := w.sessions[tx := session.(writes := session.writes + [statement])])
  }

  /** Runs a statement or a query; a query may write as well. */
  function Exec(env: Environment, w: World, tx: nat, statement: string): (World, Result<Cursor>) {
    if !IsOpen(w, tx) then (w, Err(TX_DONE))
    else
      match env.replies(w.clock)
      case Failed(message) => (Ticked(w), Err(Plain(Other(message))))
      case Done(cursor) => (Logged(Effect(Ticked(w), tx, statement), Executed(tx, statement)), Ok(cursor))
  }

  /** A request that has no effect on the store, such as preparing a statement or reading a row. */
  function Ask(env: Environment, w: World, tx: nat): (World, Result<()>) {
    if !IsOpen(w, tx) then (w, Err(TX_DONE))
    else
      match env.replies(w.clock)
      case Failed(message) => (Ticked(w), Err(Plain(Other(message))))
      case Done(_) => (Ticked(w), Ok(()))
  }

  function Closed(w: World, tx: nat): World
    requires tx < |w.sessions|
  {
    w.(sessions := w.sessions[tx := w.sessions[tx].(open := false)])
  }

  /** A commit that fails leaves the store alone; either way the transaction is done. */
  function CommitTx(env: Environment, w: World, tx: nat): (World, Result<()>) {
    if !IsOpen(w, tx) then (w, Err(TX_DONE))
    else
      match env.replies(w.clock)
      case Failed(message) => (Logged(Closed(Ticked(w), tx), CommitFailed(tx)), Err(Plain(Other(message))))
      case Done(_) =>
        var w' := Closed(Ticked(w), tx);
        (Logged(w'.(committed := w.committed + Tagged(tx, w.sessions[tx].writes)), Committed(tx)), Ok(()))
  }

  /** A transaction is done after a rollback even if the rollback reports an error. */
  function RollbackTx(env: Environment, w: World, tx: nat): (World, Result<()>) {
    if !IsOpen(w, tx) then (w, Err(TX_DONE))
    else
      match env.replies(w.clock)
      case Failed(message) => (Logged(Closed(Ticked(w), tx), RollbackFailed(tx)), Err(Plain(Other(message))))
      case Done(_) => (Logged(Closed(Ticked(w), tx), RolledBack(tx)), Ok(()))
  }

  // ----- The database object -----

  class Db {
    const env: Environment
    var committed: seq<Write>
    var sessions: seq<Session>
    var trace: seq<Event>
    var clock: nat

    function State(): World
      reads this
    {
      World(committed, sessions, trace, clock)
    }

    constructor (env: Environment)
      ensures this.env == env && State() == World([], [], [], 0)
    {
      this.env := env;
      committed, sessions, trace, clock := [], [], [], 0;
    }

    method Request() returns (reply: Reply)
      modifies this
      ensures reply == env.replies(old(clock)) && State() == Ticked(old(State()))
    {
      reply := env.replies(clock);
      clock := clock + 1;
    }

    method Log(event: Event)
      modifies this
      ensures State() == Logged(old(State()), event)
    {
      trace := trace + [event];
    }

    method BeginTx(kind: Kind) returns (r: Result<nat>)
      modifies this
      ensures (State(), r) == Begin(env, old(State()), kind)
    {
      var reply := Request();
      if reply.Failed? {
        return Err(Plain(Other(reply.message)));
      }
      var tx := |sessions|;
      sessions := sessions + [Session(kind, true, true, [])];
      Log(Begun(tx, kind));
      return Ok(tx);
    }

    method ExecTx(tx: nat, statement: string) returns (r: Result<Cursor>)
      modifies this
      ensures (State(), r) == Exec(env, old(State()), tx, statement)
    {
      if tx >= |sessions| || !sessions[tx].open {
        return Err(TX_DONE);
      }
      var reply := Request();
      if reply.Failed? {
        return Err(Plain(Other(reply.message)));
      }
      if EndsTransaction(statement, "commit") {
        committed := committed + Tagged(tx, sessions[tx].writes);
        sessions := sessions[tx := sessions[tx].(intact := false, writes := [])];
      } else if EndsTransaction(statement, "rollback") {
        sessions := sessions[tx := sessions[tx].(intact := false, writes := [])];
      } else {
        sessions := sessions[tx := sessions[tx].(writes := sessions[tx].writes + [statement])];
      }
      Log(Executed(tx, statement));
      return Ok(reply.cursor);
    }

    method AskTx(tx: nat) returns (r: Result<()>)
      modifies this
      ensures (State(), r) == Ask(env, old(State()), tx)
    {
      if tx >= |sessions| || !sessions[tx].open {
        return Err(TX_DONE);
      }
      var reply := Request();
      r := if reply.Failed? then Err(Plain(Other(reply.message))) else Ok(());
    }

    method Commit(tx: nat) returns (r: Result<()>)
      modifies this
      ensures (State(), r) == CommitTx(env, old(State()), tx)
    {
      if tx >= |sessions| || !sessions[tx].open {
        return Err(TX_DONE);
      }
      var reply := Request();
      sessions := sessions[tx := sessions[tx].(open := false)];
      if reply.Failed? {
        Log(CommitFailed(tx));
        return Err(Plain(Other(reply.message)));
      }
      committed := committed + Tagged(tx, sessions[tx].writes);
      Log(Committed(tx));
      return Ok(());
    }

    method Rollback(tx: nat) returns (r: Result<()>)
      modifies this
      ensures (State(), r) == RollbackTx(env, old(State()), tx)
    {
      if tx >= |sessions| || !sessions[tx].open {
        return Err(TX_DONE);
      }
      var reply := Request();
      sessions := sessions[tx := sessions[tx].(open := false)];
      if reply.Failed? {
        Log(RollbackFailed(tx));
        return Err(Plain(Other(reply.message)));
      }
      Log(RolledBack(tx));
      return Ok(());
    }
  }
}
