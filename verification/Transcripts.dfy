/** What a callback was told determines what its operation commits, and what it throws determines
    what the client is told. */
module Transcripts {
  import opened Text
  import opened Errors
  import opened SqlFilter
  import opened Rows
  import opened Availability
  import opened ParameterValidator
  import opened Database
  import opened Transaction
  import opened Extensions
  import opened Controller
  import TransactionController
  import opened Isolation
  import opened Atomicity
  import Discovery

  /** One call on the context and its answer. */
  datatype Exchange = Exchange(action: Action, answer: Answer)

  /** The exchanges of a run of a callback. */
  function Transcript<V>(env: Environment, c: Context, next: seq<Answer> -> Move<V>, answers: seq<Answer>, limit: nat): seq<Exchange>
    decreases limit
  {
    var move := next(answers);
    if !move.Do? || limit == 0 then []
    else
      var (c1, answer) := Perform(env, c, move.action);
      [Exchange(move.action, answer)] + Transcript(env, c1, next, answers + [answer], limit - 1)
  }

  /** The statement an exchange has executed, if any, as far as the callback can tell: an
      acknowledged statement, a query unless it was refused or the driver rejected it, and the
      query for a script unless the driver rejected it. */
  function Wrote(env: Environment, exchange: Exchange): seq<string> {
    match exchange.action
    case Execute(statement) => if exchange.answer.Acknowledged? then [statement] else []
    case Query(statement) => if Rejected(exchange.answer) then [] else [statement]
    case ResolvePath(_) => []
    case GetScriptByName(_) => if TableUnread(exchange.answer) then [] else [MetadataStatement(env, ScriptByName)]
  }

  predicate Rejected(answer: Answer) {
    answer.Refused? && (answer.error.Plain? || (answer.error.Wrapped? && answer.error.step.Querying?))
  }

  predicate TableUnread(answer: Answer) {
    && answer.Refused? && answer.error.Wrapped?
    && answer.error.cause.Wrapped? && answer.error.cause.step.ReadingTable?
  }

  function Written(env: Environment, exchanges: seq<Exchange>): seq<string> {
    if exchanges == [] then [] else Wrote(env, exchanges[0]) + Written(env, exchanges[1..])
  }

  /** The statements the operation's own transaction holds so far. */
  function Own(c: Context): seq<string> {
    if c.main < |c.world.sessions| then c.world.sessions[c.main].writes else []
  }

  lemma ExecOwn(env: Environment, w0: World, c: Context, statement: string)
    requires Inside(w0, c) && Harmless(statement)
    ensures var (w, r) := Exec(env, c.world, c.main, statement);
            && Own(c.(world := w)) == Own(c) + (if r.Ok? then [statement] else [])
            && !r.Panic? && (r.Err? ==> r.error.Plain?)
  {
    hide EndsTransaction, StatementsOf, Others, Quiet;
    assert Own(c) + [] == Own(c);
  }

  lemma ExecBfsOwn(env: Environment, c: Context, tx: nat, statement: string)
    requires tx != c.main
    ensures Own(c.(world := Exec(env, c.world, tx, statement).0)) == Own(c)
  {
    hide EndsTransaction;
  }

  /** Creating a client and looking up a file do not touch the operation's own transaction. */
  lemma ResolveOwn(env: Environment, w0: World, c: Context, fileName: string)
    requires Inside(w0, c)
    ensures Own(ResolveFile(env, c, fileName).0) == Own(c)
  {
    hide Working, Exec, CreateClient, FindPath, LookupStatement;
    GetClientInside(env, w0, c);
    MainIsThere(w0, c);
    CreateClientOwn(env, c);
    var (c1, client) := GetClient(env, c);
    if client.Ok? {
      ClientIsNotMain(w0, c1);
      var tx := client.value.transaction;
      AskOwn(env, c1, tx);
      var c2 := c1.(world := Ask(env, c1.world, tx).0);
      ExecBfsOwn(env, c2, tx, LookupStatement(client.value));
      AskOwn(env, c2.(world := Exec(env, c2.world, tx, LookupStatement(client.value)).0), tx);
    }
  }

  lemma AskOwn(env: Environment, c: Context, tx: nat)
    ensures Own(c.(world := Ask(env, c.world, tx).0)) == Own(c)
  {
  }

  lemma MainIsThere(w0: World, c: Context)
    requires Inside(w0, c)
    ensures c.main < |c.world.sessions|
  {
  }

  lemma ClientIsNotMain(w0: World, c: Context)
    requires Inside(w0, c)
    ensures c.client.Some? ==> c.client.value.transaction != c.main
  {
  }

  lemma CreateClientOwn(env: Environment, c: Context)
    requires c.main < |c.world.sessions|
    ensures Own(c.(world := CreateClient(env, c.world).0)) == Own(c)
  {
    hide Exec, UdfStatement, SchemaName;
    var (w1, r1) := Begin(env, c.world, BucketFs);
    if r1.Ok? {
      var schemaName := SchemaName(env, w1.clock);
      var c1 := c.(world := w1);
      ExecBfsOwn(env, c1, r1.value, "CREATE SCHEMA " + schemaName);
      var c2 := c1.(world := Exec(env, w1, r1.value, "CREATE SCHEMA " + schemaName).0);
      ExecBfsOwn(env, c2, r1.value, UdfStatement(env, UdfName(schemaName)));
      RollbackOwn(env, c1.(world := CreateUdfScript(env, w1, r1.value).0), r1.value);
    }
  }

  lemma RollbackOwn(env: Environment, c: Context, tx: nat)
    ensures Own(c.(world := RollbackTx(env, c.world, tx).0)) == Own(c)
  {
  }

  lemma PerformWrites(env: Environment, w0: World, c: Context, action: Action)
    requires Inside(w0, c)
    ensures Own(Perform(env, c, action).0) == Own(c) + Wrote(env, Exchange(action, Perform(env, c, action).1))
  {
    hide Inside, Exec, Ask, Harmless, IsPaddedWord, ResolveFile, Outcome, MetadataStatement, Own;
    assert Own(c) + [] == Own(c);
    match action
    case Execute(statement) =>
      if Verdict(statement).None? {
        AllowedIsHarmless(statement);
        ExecOwn(env, w0, c, statement);
        var (w, r) := Exec(env, c.world, c.main, statement);
        assert Perform(env, c, action).0 == c.(world := w);
        assert Perform(env, c, action).1.Acknowledged? <==> r.Ok?;
      }
    case Query(statement) =>
      if Verdict(statement).None? {
        AllowedIsHarmless(statement);
        ExecOwn(env, w0, c, statement);
        var cursor := Exec(env, c.world, c.main, statement).1;
        if cursor.Ok? {
          ReadingIsNoRejection(statement, cursor.value);
        }
      }
    case ResolvePath(fileName) =>
      ResolveOwn(env, w0, c, fileName);
    case GetScriptByName(name) =>
      var statement := MetadataStatement(env, ScriptByName);
      MainStatementsHarmless(env, ScriptByName);
      ExecOwn(env, w0, c, statement);
      AskOwn(env, c.(world := Exec(env, c.world, c.main, statement).0), c.main);
  }

  lemma InsideIsOpen(w0: World, c: Context)
    requires Inside(w0, c)
    ensures IsOpen(c.world, c.main)
  {
  }

  /** An extension's statement is acknowledged exactly if it is no transaction statement and the driver
      executes it, and then it is the last one of the operation's transaction; otherwise that
      transaction does not change, and a transaction statement does not even reach the driver. */
  lemma ExecuteAnswer(env: Environment, w0: World, c: Context, statement: string)
    requires Inside(w0, c)
    ensures var (c1, answer) := Perform(env, c, Execute(statement));
            var accepted := !Forbidden(statement) && env.replies(c.world.clock).Done?;
            && (answer == Acknowledged <==> accepted) && (answer.Refused? <==> !accepted)
            && Own(c1) == Own(c) + (if accepted then [statement] else [])
            && (Forbidden(statement) ==> c1 == c)
            && (!Forbidden(statement) && !accepted ==>
                  answer.error == Wrapped(Executing(statement), Plain(Other(env.replies(c.world.clock).message))))
  {
    PerformWrites(env, w0, c, Execute(statement));
    VerdictIsExact(statement);
    InsideIsOpen(w0, c);
    hide Inside, Forbidden, Verdict, IsPaddedWord, EndsTransaction, Own;
    assert Own(c) + [] == Own(c);
  }

  /** An extension's query is answered with rows exactly if it is no transaction statement, the driver
      runs it, and nothing goes wrong from opening to closing its cursor; the rows are all rows of
      the cursor. As soon as the driver has run it, it counts as executed. */
  lemma QueryAnswer(env: Environment, w0: World, c: Context, statement: string)
    requires Inside(w0, c)
    ensures var (c1, answer) := Perform(env, c, Query(statement));
            var reply := env.replies(c.world.clock);
            var accepted := !Forbidden(statement) && reply.Done?;
            && (answer.ResultRows? <==> accepted && Complete(reply.cursor)) && (answer.Refused? <==> !answer.ResultRows?)
            && (answer.ResultRows? ==> answer.result.columns == reply.cursor.columns && answer.result.rows == reply.cursor.rows)
            && Own(c1) == Own(c) + (if accepted then [statement] else [])
            && (Forbidden(statement) ==> c1 == c)
  {
    PerformWrites(env, w0, c, Query(statement));
    VerdictIsExact(statement);
    InsideIsOpen(w0, c);
    var reply := env.replies(c.world.clock);
    if reply.Done? {
      QueryIsComplete(statement, reply.cursor);
      ReadingIsNoRejection(statement, reply.cursor);
    }
    hide Inside, Forbidden, Verdict, IsPaddedWord, EndsTransaction, Own, Outcome, Complete;
    assert Own(c) + [] == Own(c);
  }

  /** The query for a script is answered with its first row, or with none if it has no rows. */
  lemma ScriptAnswer(env: Environment, w0: World, c: Context, name: string)
    requires Inside(w0, c)
    ensures var (c1, answer) := Perform(env, c, GetScriptByName(name));
            var reply := env.replies(c.world.clock);
            && (answer == Script(None) <==> reply.Done? && reply.cursor.rows == [])
            && (reply.Done? && reply.cursor.rows != [] ==>
                  if env.replies(c.world.clock + 1).Done? then answer == Script(Some(reply.cursor.rows[0])) else answer.Refused?)
            && (reply.Failed? ==> answer.Refused?)
            && Own(c1) == Own(c) + (if reply.Done? then [MetadataStatement(env, ScriptByName)] else [])
  {
    PerformWrites(env, w0, c, GetScriptByName(name));
    InsideIsOpen(w0, c);
    ScriptQueried(env, c);
    hide Inside, EndsTransaction, MetadataStatement, Own;
    assert Own(c) + [] == Own(c);
  }

  lemma ScriptQueried(env: Environment, c: Context)
    requires IsOpen(c.world, c.main)
    ensures var statement := MetadataStatement(env, ScriptByName);
            var (w, r) := Exec(env, c.world, c.main, statement);
            && IsOpen(w, c.main) && w.clock == c.world.clock + 1
            && (r.Ok? <==> env.replies(c.world.clock).Done?)
  {
    hide EndsTransaction, MetadataStatement;
  }

  lemma ReadingIsNoRejection(statement: string, cursor: Cursor)
    ensures var r := Outcome(statement, cursor);
            && !r.Panic? && (r.Err? ==> r.error.Wrapped? && !r.error.step.Querying?)
  {
  }

  /** The transaction of an operation holds exactly the statements that, by the answers it got, the
      callback executed, in the order of its calls, whatever else it did in between. */
  lemma {:induction false} RunWrites<V>(env: Environment, w0: World, c: Context, next: seq<Answer> -> Move<V>,
                                        answers: seq<Answer>, limit: nat)
    requires Inside(w0, c)
    ensures Own(Run(env, c, next, answers, limit).0)
         == Own(c) + Written(env, Transcript(env, c, next, answers, limit))
    decreases limit
  {
    hide Inside, Perform, Own, Wrote;
    var move := next(answers);
    if move.Do? && limit > 0 {
      PerformWrites(env, w0, c, move.action);
      PerformInside(env, w0, c, move.action);
      var (c1, answer) := Perform(env, c, move.action);
      RunWrites(env, w0, c1, next, answers + [answer], limit - 1);
      var exchange := Exchange(move.action, answer);
      var rest := Transcript(env, c1, next, answers + [answer], limit - 1);
      assert ([exchange] + rest)[1..] == rest;
      assert Own(c) + Wrote(env, exchange) + Written(env, rest) == Own(c) + (Wrote(env, exchange) + Written(env, rest));
    } else {
      assert Own(c) + [] == Own(c);
    }
  }

  /** The exchanges of a wrapped call. */
  function CallTranscript<V>(env: Environment, c: Context, f: Function, callback: Option<Callback<V>>): seq<Exchange> {
    if callback.None? then [] else Transcript(env, Entered(c, f), callback.value.next, [], callback.value.limit)
  }

  lemma CallWrites<V>(env: Environment, w0: World, c: Context, f: Function, id: string, detail: string, callback: Option<Callback<V>>)
    requires Inside(w0, c)
    ensures Own(Call(env, c, f, id, detail, callback).0) == Own(c) + Written(env, CallTranscript(env, c, f, callback))
  {
    hide Inside, Run, Transcript;
    assert Own(c) + [] == Own(c);
    if callback.Some? {
      EnteredInside(w0, c, f);
      RunWrites(env, w0, Entered(c, f), callback.value.next, [], callback.value.limit);
    }
  }

  /** The schema statement if it was executed, then what the install function executed. */
  lemma InstallWrites(env: Environment, w0: World, c: Context, load: Result<JsExtension>, id: string, version: string)
    requires Inside(w0, c) && load.Ok? && EnsureSchema(env, c).1.Ok?
    ensures var install := load.value.install;
            var callback := if install.Some? then Some(install.value(version)) else None;
            Own(InstallExtension(env, c, load, id, version).0)
              == Own(c) + [SchemaStatement(env)] + Written(env, CallTranscript(env, EnsureSchema(env, c).0, Install, callback))
  {
    hide Inside, Call, CallTranscript, Exec, SchemaStatement, Harmless, Own;
    SchemaInside(env, w0, c);
    MainStatementsHarmless(env, AllScripts);
    ExecOwn(env, w0, c, SchemaStatement(env));
    var install := load.value.install;
    CallWrites(env, w0, EnsureSchema(env, c).0, Install, load.value.id, "",
               if install.Some? then Some(install.value(version)) else None);
  }

  /** A successful mutating call commits exactly what its transaction held when its work was done. */
  lemma CommitsOwn(env: Environment, w0: World, request: Request)
    requires Quiescent(w0) && request.Mutating() && TransactionController.Serve(env, w0, request).1.Ok?
    ensures TransactionController.StartTransaction(env, w0).1.Ok?
    ensures var (w1, begun) := TransactionController.StartTransaction(env, w0);
            var (c, r) := TransactionController.Body(env, Context(w1, begun.value, None), request);
            && r.Ok? && TransactionController.Serve(env, w0, request).0.committed == w0.committed + Tagged(|w0.sessions|, Own(c))
  {
    hide Working, Over, OwnWrites, TransactionController.Body, TransactionController.StartTransaction, Commit, Rollback, Tagged;
    BegunInside(env, w0);
    var (w1, begun) := TransactionController.StartTransaction(env, w0);
    var c0 := Context(w1, begun.value, None);
    BodyInside(env, w0, c0, request);
    var (c, r) := TransactionController.Body(env, c0, request);
    CommitOrder(env, w0, c);
    OwnIsStatements(w0, c);
    OverCommits(w0, Rollback(env, Commit(env, c).0).world);
  }

  lemma OwnIsStatements(w0: World, c: Context)
    requires Inside(w0, c)
    ensures c.main == |w0.sessions| && Own(c) == StatementsOf(Since(w0, c.world), c.main)
  {
  }

  lemma OverCommits(w0: World, w: World)
    ensures Over(w0, w, OwnWrites(w0, w)) ==> w.committed == w0.committed + OwnWrites(w0, w)
  {
  }

  /** A successful install commits the creation of the schema followed by exactly the statements the
      install function executed. */
  lemma InstallCommits(env: Environment, w0: World, load: Result<JsExtension>, id: string, version: string)
    requires Quiescent(w0)
    requires TransactionController.Serve(env, w0, TransactionController.InstallCall(load, id, version)).1.Ok?
    ensures TransactionController.StartTransaction(env, w0).1.Ok? && load.Ok? && load.value.install.Some?
    ensures var (w1, begun) := TransactionController.StartTransaction(env, w0);
            var c1 := EnsureSchema(env, Context(w1, begun.value, None)).0;
            TransactionController.Serve(env, w0, TransactionController.InstallCall(load, id, version)).0.committed
              == w0.committed + Tagged(|w0.sessions|, [SchemaStatement(env)]
                   + Written(env, CallTranscript(env, c1, Install, Some(load.value.install.value(version)))))
  {
    hide Inside, TransactionController.StartTransaction, EnsureSchema, Call, CallTranscript, Own, Tagged, SchemaStatement,
         TransactionController.Serve;
    CommitsOwn(env, w0, TransactionController.InstallCall(load, id, version));
    BegunInside(env, w0);
    var (w1, begun) := TransactionController.StartTransaction(env, w0);
    var c0 := Context(w1, begun.value, None);
    BeginOwn(env, w0);
    UnsupportedFails(env, EnsureSchema(env, c0).0, Install, load);
    InstallWrites(env, w0, c0, load, id, version);
    assert [] + [SchemaStatement(env)] == [SchemaStatement(env)];
  }

  lemma BeginOwn(env: Environment, w0: World)
    ensures var (w1, begun) := TransactionController.StartTransaction(env, w0);
            begun.Ok? ==> Own(Context(w1, begun.value, None)) == []
  {
  }

  lemma UnsupportedFails(env: Environment, c: Context, f: Function, load: Result<JsExtension>)
    ensures load.Ok? ==> Call<()>(env, c, f, load.value.id, "", None).1.Err?
  {
  }

  // ----- What the client is told -----

  /** A thrown value with a status reaches the client with that status and message; every other
      error of a callback is an internal server error. */
  lemma ThrownStatus(f: Function, id: string, detail: string, thrown: Thrown)
    ensures var r: Result<()> := ConvertThrown(f, id, detail, thrown);
            && (r.Panic? <==> thrown == NoObject) && !r.Ok?
            && (r.Err? ==>
                  if thrown.Exception? && thrown.status.Exportable?
                  then StatusOf(r.error) == thrown.status.status && r.error.Text() == thrown.status.message
                  else StatusOf(r.error) == 500)
  {
    hide Describe, Explain;
    if thrown.Exception? && thrown.status.NotExportable? {
      WrappingKeepsStatus(ConvertingThrown(thrown.text), Plain(Other(thrown.status.reason)));
    }
  }

  /** Credentials the database rejects are reported with status 401, every other failure to begin a
      transaction as an internal server error. */
  lemma BeginStatus(env: Environment, w: World)
    ensures var r := TransactionController.StartTransaction(env, w).1;
            r.Err? ==>
              var rejected := && env.config.bucketFsBasePath != "" && env.replies(w.clock).Failed?
                              && Occurs("Connection exception - authentication failed", env.replies(w.clock).message);
              StatusOf(r.error) == if rejected then 401 else 500
  {
    hide Describe, Contains, Occurs;
    var begun := BeginMain(env, w).1;
    if env.replies(w.clock).Failed? {
      ContainsOccurring(env.replies(w.clock).message, "Connection exception - authentication failed");
    }
    if begun.Err? {
      WrappingKeepsStatus(StartingTransaction, begun.error);
      if begun.error.Wrapped? {
        WrappingKeepsStatus(BeginningTransaction, begun.error.cause);
      }
    }
  }

  /** While the driver works, the end of an operation changes nothing about its result. */
  lemma WorkingDriverCommits(env: Environment, w0: World, request: Request)
    requires Quiescent(w0)
    ensures var (w1, begun) := TransactionController.StartTransaction(env, w0);
            begun.Ok? ==>
              var (c, r) := TransactionController.Body(env, Context(w1, begun.value, None), request);
              Discovery.DriverWorks(env, c.world.clock) ==> TransactionController.Serve(env, w0, request).1 == r
  {
    hide TransactionController.Body, TransactionController.StartTransaction, Working, Rollback;
    BegunInside(env, w0);
    var (w1, begun) := TransactionController.StartTransaction(env, w0);
    if begun.Ok? {
      var c0 := Context(w1, begun.value, None);
      BodyInside(env, w0, c0, request);
      var c := TransactionController.Body(env, c0, request).0;
      if Discovery.DriverWorks(env, c.world.clock) {
        CommitWorks(env, w0, c);
      }
    }
  }

  lemma CommitWorks(env: Environment, w0: World, c: Context)
    requires Inside(w0, c) && Discovery.DriverWorks(env, c.world.clock)
    ensures Commit(env, c).1.Ok?
  {
    hide StatementsOf, Others, Quiet;
  }
}
