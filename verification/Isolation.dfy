/** What holds inside an operation at every moment, whatever the extension does. */
module Isolation {
  import opened Text
  import opened Errors
  import opened SqlFilter
  import opened Rows
  import opened Availability
  import opened Database
  import opened Transaction
  import opened Extensions
  import opened Controller

  /** What happened after the state w0. */
  function Since(w0: World, w: World): seq<Event> {
    if |w0.trace| <= |w.trace| then w.trace[|w0.trace|..] else []
  }

  predicate Finished(events: seq<Event>, tx: nat) {
    RolledBack(tx) in events || RollbackFailed(tx) in events
  }

  /** The operation that began in w0 works in its own transaction n: that transaction is open and was
      never ended behind the program's back, its workspace holds exactly the statements executed in
      it, nothing was committed, and of the other transactions begun since, all for BucketFS, only
      `live` is open. */
  predicate Working(w0: World, w: World, live: Option<nat>) {
    var n := |w0.sessions|;
    && Kept(w0, w)
    && w.sessions[n] == Session(Main, true, true, StatementsOf(Since(w0, w), n))
    && (live.Some? ==> n < live.value < |w.sessions| && w.sessions[live.value].open)
    && Others(w.sessions, n, live, Since(w0, w))
    && Quiet(Since(w0, w), n)
  }

  /** Everything that was there before the operation still is. */
  predicate Kept(w0: World, w: World) {
    && |w0.sessions| < |w.sessions| && w.sessions[..|w0.sessions|] == w0.sessions
    && w.committed == w0.committed
    && |w0.trace| <= |w.trace| && w.trace[..|w0.trace|] == w0.trace
  }

  predicate Others(sessions: seq<Session>, n: nat, live: Option<nat>, events: seq<Event>) {
    forall i | n < i < |sessions| ::
      && sessions[i].kind == BucketFs
      && (if sessions[i].open then live == Some(i) else Finished(events, i))
  }

  predicate Quiet(events: seq<Event>, n: nat) {
    forall k | 0 <= k < |events| :: !Ends(events[k], n)
  }

  /** The event is a commit, or the end of the given transaction. */
  predicate Ends(event: Event, tx: nat) {
    event.Committed? || event.CommitFailed? || event == RolledBack(tx) || event == RollbackFailed(tx)
  }

  function LiveOf(c: Context): Option<nat> {
    if c.client.Some? then Some(c.client.value.transaction) else None
  }

  predicate Inside(w0: World, c: Context) {
    c.main == |w0.sessions| && Working(w0, c.world, LiveOf(c))
  }

  predicate Harmless(statement: string) {
    !EndsTransaction(statement, "commit") && !EndsTransaction(statement, "rollback")
  }

  lemma StatementsOfAppend(events: seq<Event>, event: Event, tx: nat)
    ensures StatementsOf(events + [event], tx)
         == StatementsOf(events, tx) + if event.Executed? && event.tx == tx then [event.statement] else []
  {
    assert (events + [event])[..|events|] == events;
  }

  // ----- One request to the database -----

  lemma TickedWorking(w0: World, w: World, live: Option<nat>)
    requires Working(w0, w, live)
    ensures Working(w0, Ticked(w), live)
  {
    assert Since(w0, Ticked(w)) == Since(w0, w);
  }

  lemma LoggedKept(w0: World, w: World, w': World, event: Event)
    requires Kept(w0, w) && w'.trace == w.trace + [event] && w'.committed == w.committed
    requires |w0.sessions| < |w'.sessions| && w'.sessions[..|w0.sessions|] == w.sessions[..|w0.sessions|]
    ensures Kept(w0, w') && Since(w0, w') == Since(w0, w) + [event]
  {
  }

  lemma FinishedAppend(events: seq<Event>, event: Event, tx: nat)
    ensures Finished(events + [event], tx) <==> Finished(events, tx) || event == RolledBack(tx) || event == RollbackFailed(tx)
  {
  }

  /** One more event, with a session that is new, closed or extended, keeps the invariant. */
  lemma StepWorking(w0: World, w: World, live: Option<nat>, event: Event, w': World, live': Option<nat>)
    requires Working(w0, w, live)
    requires var n := |w0.sessions|;
             && w'.trace == w.trace + [event] && w'.committed == w.committed && !Ends(event, n)
             && |w.sessions| <= |w'.sessions| && w'.sessions[..n] == w.sessions[..n]
             && w'.sessions[n] == w.sessions[n].(writes := w.sessions[n].writes
                                                   + if event.Executed? && event.tx == n then [event.statement] else [])
             && (live'.Some? ==> n < live'.value < |w'.sessions| && w'.sessions[live'.value].open)
             && forall i | n < i < |w'.sessions| ::
                  && w'.sessions[i].kind == BucketFs
                  && (if w'.sessions[i].open then live' == Some(i)
                      else (i < |w.sessions| && !w.sessions[i].open) || event == RolledBack(i) || event == RollbackFailed(i))
    ensures Working(w0, w', live') && Since(w0, w') == Since(w0, w) + [event]
  {
    var n, before, after := |w0.sessions|, Since(w0, w), Since(w0, w');
    LoggedKept(w0, w, w', event);
    StatementsOfAppend(before, event, n);
    forall i | n < i < |w'.sessions| && !w'.sessions[i].open ensures Finished(after, i) {
      FinishedAppend(before, event, i);
    }
  }

  /** The state after a statement that is no transaction statement. */
  function Extended(w: World, tx: nat, statement: string): World
    requires tx < |w.sessions|
  {
    Logged(w.(sessions := w.sessions[tx := w.sessions[tx].(writes := w.sessions[tx].writes + [statement])]),
           Executed(tx, statement))
  }

  lemma ExecWorking(env: Environment, w0: World, w: World, live: Option<nat>, tx: nat, statement: string)
    requires Working(w0, w, live) && Harmless(statement)
    requires tx == |w0.sessions| || live == Some(tx)
    ensures Working(w0, Exec(env, w, tx, statement).0, live)
  {
    hide EndsTransaction, StatementsOf, Finished;
    TickedWorking(w0, w, live);
    StepWorking(w0, Ticked(w), live, Executed(tx, statement), Extended(Ticked(w), tx, statement), live);
  }

  lemma AskWorking(env: Environment, w0: World, w: World, live: Option<nat>, tx: nat)
    requires Working(w0, w, live)
    ensures Working(w0, Ask(env, w, tx).0, live)
  {
    TickedWorking(w0, w, live);
  }

  lemma BeginWorking(env: Environment, w0: World, w: World)
    requires Working(w0, w, None)
    ensures var (w', r) := Begin(env, w, BucketFs);
            Working(w0, w', if r.Ok? then Some(r.value) else None)
  {
    hide StatementsOf, Finished;
    TickedWorking(w0, w, None);
    var (w', r) := Begin(env, w, BucketFs);
    if r.Ok? {
      StepWorking(w0, Ticked(w), None, Begun(r.value, BucketFs), w', Some(r.value));
    }
  }

  lemma RollbackWorking(env: Environment, w0: World, w: World, tx: nat)
    requires Working(w0, w, Some(tx))
    ensures Working(w0, RollbackTx(env, w, tx).0, None)
    ensures Since(w0, RollbackTx(env, w, tx).0)
         == Since(w0, w) + [if RollbackTx(env, w, tx).1.Ok? then RolledBack(tx) else RollbackFailed(tx)]
  {
    hide StatementsOf, Finished;
    TickedWorking(w0, w, Some(tx));
    assert Since(w0, Ticked(w)) == Since(w0, w);
    var (w', r) := RollbackTx(env, w, tx);
    StepWorking(w0, Ticked(w), Some(tx), if r.Ok? then RolledBack(tx) else RollbackFailed(tx), w', None);
  }

  // ----- The BucketFS client -----

  lemma StartHarmless(start: string, rest: string, k: nat)
    requires k < |start| && start[k] == 'E'
    ensures Harmless(start + rest)
  {
    assert (start + rest)[k] == 'E';
    ForeignLetter(start + rest, k);
  }

  lemma BucketFsStatementsHarmless(env: Environment, clock: nat, name: string)
    ensures Harmless("CREATE SCHEMA " + SchemaName(env, clock))
    ensures Harmless(UdfStatement(env, name))
  {
    hide Harmless, SchemaName;
    StartHarmless("CREATE SCHEMA ", SchemaName(env, clock), 2);
    var start := "CREATE OR REPLACE PYTHON3 SCALAR SCRIPT ";
    assert start + name + env.udfSource == start + (name + env.udfSource);
    StartHarmless(start, name + env.udfSource, 2);
  }

  lemma LookupStatementsHarmless(client: BucketFsClient)
    ensures Harmless(ListStatement(client)) && Harmless(LookupStatement(client))
  {
    hide Harmless;
    var name := client.udfScriptName;
    assert "SELECT " + name + "(?) ORDER BY FULL_PATH" == "SELECT " + (name + "(?) ORDER BY FULL_PATH");
    StartHarmless("SELECT ", name + "(?) ORDER BY FULL_PATH", 1);
    var rest := "(?)) WHERE FILE_NAME = ? ORDER BY FULL_PATH LIMIT 1";
    assert "SELECT FULL_PATH FROM (SELECT " + name + rest == "SELECT FULL_PATH FROM (SELECT " + (name + rest);
    StartHarmless("SELECT FULL_PATH FROM (SELECT ", name + rest, 1);
  }

  lemma MainStatementsHarmless(env: Environment, query: MetadataQuery)
    ensures Harmless(SchemaStatement(env)) && Harmless(MetadataStatement(env, query))
  {
    hide Harmless;
    StartHarmless("CREATE SCHEMA IF NOT EXISTS ", Quoted(env.config.extensionSchema), 2);
    StartHarmless("\nSELECT ", env.metadataQuery(query), 2);
  }

  lemma CreateUdfWorking(env: Environment, w0: World, w: World, tx: nat)
    requires Working(w0, w, Some(tx))
    ensures Working(w0, CreateUdfScript(env, w, tx).0, Some(tx))
  {
    hide Working, Exec, Harmless, UdfStatement, SchemaName;
    var schemaName := SchemaName(env, w.clock);
    BucketFsStatementsHarmless(env, w.clock, UdfName(schemaName));
    ExecWorking(env, w0, w, Some(tx), tx, "CREATE SCHEMA " + schemaName);
    var w1 := Exec(env, w, tx, "CREATE SCHEMA " + schemaName).0;
    ExecWorking(env, w0, w1, Some(tx), tx, UdfStatement(env, UdfName(schemaName)));
  }

  /** However the creation of a client ends, the only transaction it leaves open is the client's. */
  lemma CreateClientWorking(env: Environment, w0: World, w: World)
    requires Working(w0, w, None)
    ensures var (w', r) := CreateClient(env, w);
            Working(w0, w', if r.Ok? then Some(r.value.transaction) else None)
  {
    hide Working, Begin, CreateUdfScript, RollbackTx;
    BeginWorking(env, w0, w);
    var (w1, r1) := Begin(env, w, BucketFs);
    if r1.Ok? {
      CreateUdfWorking(env, w0, w1, r1.value);
      RollbackWorking(env, w0, CreateUdfScript(env, w1, r1.value).0, r1.value);
    }
  }

  lemma {:induction false} ReadRowsWorking(env: Environment, w0: World, w: World, live: Option<nat>, tx: nat, n: nat)
    requires Working(w0, w, live)
    ensures Working(w0, ReadRows(env, w, tx, n).0, live)
    decreases n
  {
    hide Working, Ask;
    if n > 0 {
      AskWorking(env, w0, w, live, tx);
      ReadRowsWorking(env, w0, Ask(env, w, tx).0, live, tx, n - 1);
    }
  }

  lemma ListFilesWorking(env: Environment, w0: World, w: World, client: BucketFsClient)
    requires Working(w0, w, Some(client.transaction))
    ensures Working(w0, ListFiles(env, w, client).0, Some(client.transaction))
  {
    hide Working, Ask, Exec, ReadRows, Harmless, ListStatement;
    var tx := client.transaction;
    LookupStatementsHarmless(client);
    AskWorking(env, w0, w, Some(tx), tx);
    var w1 := Ask(env, w, tx).0;
    var statement := ListStatement(client);
    ExecWorking(env, w0, w1, Some(tx), tx, statement);
    ReadRowsWorking(env, w0, Exec(env, w1, tx, statement).0, Some(tx), tx, |OrderByPath(env.rows)|);
  }

  lemma FindPathWorking(env: Environment, w0: World, w: World, client: BucketFsClient, fileName: string)
    requires Working(w0, w, Some(client.transaction))
    ensures Working(w0, FindAbsolutePath(env, w, client, fileName).0, Some(client.transaction))
  {
    hide Working, Ask, Exec, FindPath, Harmless, LookupStatement;
    var tx := client.transaction;
    LookupStatementsHarmless(client);
    AskWorking(env, w0, w, Some(tx), tx);
    var w1 := Ask(env, w, tx).0;
    ExecWorking(env, w0, w1, Some(tx), tx, LookupStatement(client));
    AskWorking(env, w0, Exec(env, w1, tx, LookupStatement(client)).0, Some(tx), tx);
  }

  /** A context never has more than one client: it is created once and then kept. */
  lemma GetClientInside(env: Environment, w0: World, c: Context)
    requires Inside(w0, c)
    ensures Inside(w0, GetClient(env, c).0)
    ensures c.client.Some? ==> GetClient(env, c) == (c, Ok(c.client.value))
    ensures GetClient(env, c).1.Ok? ==> GetClient(env, c).0.client == Some(GetClient(env, c).1.value)
  {
    hide Working, CreateClient;
    if c.client.None? {
      CreateClientWorking(env, w0, c.world);
    }
  }

  // ----- Callbacks -----

  lemma ExecInside(env: Environment, w0: World, c: Context, statement: string)
    requires Inside(w0, c) && Harmless(statement)
    ensures Inside(w0, c.(world := Exec(env, c.world, c.main, statement).0))
  {
    ExecWorking(env, w0, c.world, LiveOf(c), c.main, statement);
  }

  lemma AllowedIsHarmless(statement: string)
    requires Verdict(statement).None?
    ensures Harmless(statement)
  {
    FilterCoversDatabase(statement);
  }

  lemma PerformInside(env: Environment, w0: World, c: Context, action: Action)
    requires Inside(w0, c)
    ensures Inside(w0, Perform(env, c, action).0)
    ensures c.client.Some? ==> Perform(env, c, action).0.client == c.client
  {
    hide Working, Exec, Ask, Harmless, Verdict, GetClient, FindAbsolutePath, Outcome, MetadataStatement;
    match action
    case Execute(statement) =>
      if Verdict(statement).None? {
        AllowedIsHarmless(statement);
        ExecInside(env, w0, c, statement);
      }
    case Query(statement) =>
      if Verdict(statement).None? {
        AllowedIsHarmless(statement);
        ExecInside(env, w0, c, statement);
      }
    case ResolvePath(fileName) =>
      GetClientInside(env, w0, c);
      var (c1, client) := GetClient(env, c);
      if client.Ok? {
        FindPathWorking(env, w0, c1.world, client.value, fileName);
      }
    case GetScriptByName(name) =>
      var statement := MetadataStatement(env, ScriptByName);
      MainStatementsHarmless(env, ScriptByName);
      ExecInside(env, w0, c, statement);
      AskWorking(env, w0, Exec(env, c.world, c.main, statement).0, LiveOf(c), c.main);
  }

  /** Whatever a callback does, for however long, the transaction of the operation stays open and
      intact, nothing is committed, and at most one BucketFS transaction is open, that of the one
      client of the context. Since `limit` is arbitrary this holds after every single action. */
  lemma {:induction false} RunInside<V>(env: Environment, w0: World, c: Context, next: seq<Answer> -> Move<V>,
                                        answers: seq<Answer>, limit: nat)
    requires Inside(w0, c)
    ensures Inside(w0, Run(env, c, next, answers, limit).0)
    ensures c.client.Some? ==> Run(env, c, next, answers, limit).0.client == c.client
    decreases limit
  {
    hide Inside, Perform;
    var move := next(answers);
    if move.Do? && limit > 0 {
      PerformInside(env, w0, c, move.action);
      var (c1, answer) := Perform(env, c, move.action);
      RunInside(env, w0, c1, next, answers + [answer], limit - 1);
    }
  }

  lemma EnteredInside(w0: World, c: Context, f: Function)
    requires Inside(w0, c)
    ensures Inside(w0, Entered(c, f))
  {
    hide StatementsOf, Finished;
    StepWorking(w0, c.world, LiveOf(c), Invoked(f), Entered(c, f).world, LiveOf(c));
  }

  lemma CallInside<V>(env: Environment, w0: World, c: Context, f: Function, id: string, detail: string, callback: Option<Callback<V>>)
    requires Inside(w0, c)
    ensures Inside(w0, Call(env, c, f, id, detail, callback).0)
  {
    hide Inside, Run, Entered;
    if callback.Some? {
      EnteredInside(w0, c, f);
      RunInside(env, w0, Entered(c, f), callback.value.next, [], callback.value.limit);
    }
  }
}
