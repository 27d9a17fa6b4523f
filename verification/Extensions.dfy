/** Extensions: the callbacks they offer, the context the callbacks act on, and the wrappers that
    turn what a callback throws into an error. */
module Extensions {
  import opened Text
  import opened Errors
  import opened SqlFilter
  import opened Rows
  import opened Availability
  import opened ParameterValidator
  import opened Database
  import opened Transaction

  // ----- The context of a callback -----

  /** A call a callback makes on its context. */
  datatype Action =
    | Execute(statement: string)
    | Query(statement: string)
    | ResolvePath(fileName: string)
    | GetScriptByName(name: string)

  /** What the callback gets back. A refused call panics in Go; whether the callback catches that is
      up to the callback. */
  datatype Answer =
    | Acknowledged
    | ResultRows(result: QueryResult)
    | Path(path: string)
    | Script(row: Option<seq<SqlValue>>)
    | Refused(error: Error)

  function SqlExecute(env: Environment, c: Context, statement: string): (Context, Result<()>) {
    var verdict := Verdict(statement);
    if verdict.Some? then (c, Err(verdict.value))
    else
      var (w, r) := Exec(env, c.world, c.main, statement);
      (c.(world := w), if r.IsFailure() then r.Fail(Executing(statement)) else Ok(()))
  }

  function SqlQuery(env: Environment, c: Context, statement: string): (Context, Result<QueryResult>) {
    var verdict := Verdict(statement);
    if verdict.Some? then (c, Err(verdict.value))
    else
      var (w, r) := Exec(env, c.world, c.main, statement);
      (c.(world := w), if r.IsFailure() then r.Fail(Querying(statement)) else Outcome(statement, r.value))
  }

  function ResolveFile(env: Environment, c: Context, fileName: string): (Context, Result<string>) {
    var (c1, client) := GetClient(env, c);
    if client.IsFailure() then (c1, client.Fail(ResolvingPath(fileName)))
    else
      var (w, r) := FindAbsolutePath(env, c1.world, client.value, fileName);
      (c1.(world := w), r.Wrap(ResolvingPath(fileName)))
  }

  function MetadataStatement(env: Environment, query: MetadataQuery): string {
    "\nSELECT " + env.metadataQuery(query)
  }

  function FindScript(env: Environment, c: Context, name: string): (Context, Result<Option<seq<SqlValue>>>) {
    var failure := FindingScript(env.config.extensionSchema, name);
    var (w1, r1) := Exec(env, c.world, c.main, MetadataStatement(env, ScriptByName));
    if r1.IsFailure() then (c.(world := w1), r1.Wrap(ReadingTable("EXA_ALL_SCRIPTS")).Fail(failure))
    else if r1.value.rows == [] then (c.(world := w1), Ok(None))
    else
      var (w2, r2) := Ask(env, w1, c.main);
      (c.(world := w2), if r2.IsFailure() then r2.Wrap(ReadingRow("EXA_ALL_SCRIPTS")).Fail(failure)
                           else Ok(Some(r1.value.rows[0])))
  }

  function Perform(env: Environment, c: Context, action: Action): (Context, Answer) {
    match action
    case Execute(statement) =>
      var (c1, r) := SqlExecute(env, c, statement);
      (c1, if r.Err? then Refused(r.error) else Acknowledged)
    case Query(statement) =>
      var (c1, r) := SqlQuery(env, c, statement);
      (c1, if r.Ok? then ResultRows(r.value) else RefusedBy(r))
    case ResolvePath(fileName) =>
      var (c1, r) := ResolveFile(env, c, fileName);
      (c1, if r.Ok? then Path(r.value) else RefusedBy(r))
    case GetScriptByName(name) =>
      var (c1, r) := FindScript(env, c, name);
      (c1, if r.Ok? then Script(r.value) else RefusedBy(r))
  }

  function RefusedBy<T>(r: Result<T>): Answer
    requires r.IsFailure()
  {
    Refused(if r.Err? then r.error else Plain(Other("")))
  }

  // ----- Callbacks -----

  /** What the `status` field of a thrown value holds. */
  datatype StatusField =
    | Absent
    | Exportable(status: int, message: string)
    | NotExportable(reason: string)

  /** What a callback throws: a value that is no script exception, an exception whose value is
      undefined or null, or any other exception. */
  datatype Thrown =
    | GoPanic(text: string)
    | NoObject
    | Exception(text: string, status: StatusField)

  datatype Move<+V> = Return(value: V) | Throw(thrown: Thrown) | Do(action: Action)

  /** A callback decides its next move from the answers so far, in any way it likes, and makes at
      most `limit` calls on its context. */
  datatype Callback<!V> = Callback(limit: nat, next: seq<Answer> -> Move<V>)

  const INTERRUPTED := GoPanic("interrupted")

  function Run<V>(env: Environment, c: Context, next: seq<Answer> -> Move<V>, answers: seq<Answer>, limit: nat)
    : (r: (Context, Move<V>))
    ensures !r.1.Do?
    decreases limit
  {
    match next(answers)
    case Return(value) => (c, Return(value))
    case Throw(thrown) => (c, Throw(thrown))
    case Do(action) =>
      if limit == 0 then (c, Throw(INTERRUPTED))
      else
        var (c1, answer) := Perform(env, c, action);
        Run(env, c1, next, answers + [answer], limit - 1)
  }

  datatype Instance = Instance(id: string, name: string)
  datatype UpgradeResult = UpgradeResult(previousVersion: string, newVersion: string)
  datatype Installation = Installation(id: string, name: string, version: string)
  datatype Version = Version(name: string, latest: bool, deprecated: bool)

  /** A loaded extension. A missing function is None; an entry of a returned list is None when the
      extension put null there. The number given to `findInstances` tells repeated calls apart, so
      its answers need not be the same. */
  datatype JsExtension = JsExtension(
    id: string,
    name: string,
    category: string,
    description: string,
    versions: seq<Version>,
    uploads: seq<BucketFsUpload>,
    getParameterDefinitions: Option<string -> Callback<seq<RawEntry>>>,
    install: Option<string -> Callback<()>>,
    uninstall: Option<string -> Callback<()>>,
    upgrade: Option<Callback<Option<UpgradeResult>>>,
    findInstallations: Option<Callback<seq<Option<Installation>>>>,
    addInstance: Option<(string, seq<ParameterValue>) -> Callback<Option<Instance>>>,
    findInstances: Option<(string, nat) -> Callback<seq<Option<Instance>>>>,
    deleteInstance: Option<(string, string) -> Callback<()>>)

  /** What the wrapper makes of a thrown value. Reading the status of undefined or null panics
      again, and nothing recovers from that. */
  function ConvertThrown<V>(f: Function, id: string, detail: string, thrown: Thrown): Result<V> {
    match thrown
    case GoPanic(text) => Err(Plain(CallFailed(f, id, detail, text)))
    case NoObject => Panic
    case Exception(text, Absent) => Err(Plain(CallFailed(f, id, detail, text)))
    case Exception(text, Exportable(status, message)) => Err(NewApiError(status, message))
    case Exception(text, NotExportable(reason)) => Err(Wrapped(ConvertingThrown(text), Plain(Other(reason))))
  }

  function Entered(c: Context, f: Function): Context {
    c.(world := Logged(c.world, Invoked(f)))
  }

  /** A wrapped call of one function of an extension. */
  function Call<V>(env: Environment, c: Context, f: Function, id: string, detail: string, callback: Option<Callback<V>>)
    : (Context, Result<V>)
  {
    match callback
    case None => (c, Err(Plain(Unsupported(id, f))))
    case Some(cb) =>
      var (c1, end) := Run(env, Entered(c, f), cb.next, [], cb.limit);
      (c1, if end.Return? then Ok(end.value) else if end.Throw? then ConvertThrown(f, id, detail, end.thrown) else Panic)
  }

  function ListInstances(env: Environment, c: Context, ext: JsExtension, version: string, nth: nat)
    : (Context, Result<seq<Option<Instance>>>)
  {
    Call(env, c, FindInstances, ext.id, version,
         if ext.findInstances.Some? then Some(ext.findInstances.value(version, nth)) else None)
  }

  // ----- The same on the context object -----

  method ExecuteStatement(tx: TransactionContext, statement: string) returns (r: Result<()>)
    modifies tx.db
    ensures (tx.State(), r) == SqlExecute(tx.db.env, old(tx.State()), statement)
  {
    hide Exec, Forbidden, Verdict;
    var verdict := ValidateQuery(statement);
    if verdict.Some? {
      return Err(verdict.value);
    }
    var executed := tx.db.ExecTx(tx.transaction, statement);
    if executed.IsFailure() {
      return executed.Fail(Executing(statement));
    }
    return Ok(());
  }

  method RunQuery(tx: TransactionContext, statement: string) returns (r: Result<QueryResult>)
    modifies tx.db
    ensures (tx.State(), r) == SqlQuery(tx.db.env, old(tx.State()), statement)
  {
    hide Exec, Outcome, Forbidden, Verdict, Complete;
    var verdict := ValidateQuery(statement);
    if verdict.Some? {
      return Err(verdict.value);
    }
    var cursor := tx.db.ExecTx(tx.transaction, statement);
    if cursor.IsFailure() {
      return cursor.Fail(Querying(statement));
    }
    var handle := new RowsHandle(cursor.value);
    var failed, columns, rows := ReadAndClose(statement, handle);
    if failed.Some? {
      return Err(failed.value);
    }
    QueryIsComplete(statement, cursor.value);
    var values := [];
    for i := 0 to |rows|
      invariant |values| == i && forall k | 0 <= k < i :: values[k] == rows[k][..]
    {
      values := values + [rows[i][..]];
    }
    assert values == Outcome(statement, cursor.value).value.rows;
    return Ok(QueryResult(columns, values));
  }

  method ResolveInBucketFs(tx: TransactionContext, fileName: string) returns (r: Result<string>)
    modifies tx, tx.db
    ensures (tx.State(), r) == ResolveFile(tx.db.env, old(tx.State()), fileName)
  {
    var client := tx.GetBucketFsClient();
    if client.IsFailure() {
      return client.Fail(ResolvingPath(fileName));
    }
    r := FindBucketFsPath(tx.db, client.value, fileName);
    r := r.Wrap(ResolvingPath(fileName));
  }

  method FindScriptRow(tx: TransactionContext, name: string) returns (r: Result<Option<seq<SqlValue>>>)
    modifies tx.db
    ensures (tx.State(), r) == FindScript(tx.db.env, old(tx.State()), name)
  {
    var failure := FindingScript(tx.db.env.config.extensionSchema, name);
    var cursor := tx.db.ExecTx(tx.transaction, MetadataStatement(tx.db.env, ScriptByName));
    if cursor.IsFailure() {
      return cursor.Wrap(ReadingTable("EXA_ALL_SCRIPTS")).Fail(failure);
    }
    if cursor.value.rows == [] {
      return Ok(None);
    }
    var scanned := tx.db.AskTx(tx.transaction);
    if scanned.IsFailure() {
      return scanned.Wrap(ReadingRow("EXA_ALL_SCRIPTS")).Fail(failure);
    }
    return Ok(Some(cursor.value.rows[0]));
  }

  method PerformAction(tx: TransactionContext, action: Action) returns (answer: Answer)
    modifies tx, tx.db
    ensures (tx.State(), answer) == Perform(tx.db.env, old(tx.State()), action)
  {
    hide SqlExecute, SqlQuery, ResolveFile, FindScript;
    match action
    case Execute(statement) =>
      var r := ExecuteStatement(tx, statement);
      answer := if r.Err? then Refused(r.error) else Acknowledged;
    case Query(statement) =>
      var r := RunQuery(tx, statement);
      answer := if r.Ok? then ResultRows(r.value) else RefusedBy(r);
    case ResolvePath(fileName) =>
      var r := ResolveInBucketFs(tx, fileName);
      answer := if r.Ok? then Path(r.value) else RefusedBy(r);
    case GetScriptByName(name) =>
      var r := FindScriptRow(tx, name);
      answer := if r.Ok? then Script(r.value) else RefusedBy(r);
  }

  /** Lets a callback run until it returns, throws or is interrupted. */
  method RunCallback<V(0)>(tx: TransactionContext, callback: Callback<V>) returns (end: Move<V>)
    modifies tx, tx.db
    ensures (tx.State(), end) == Run(tx.db.env, old(tx.State()), callback.next, [], callback.limit)
  {
    hide Perform;
    var answers, remaining := [], callback.limit;
    end := callback.next(answers);
    while end.Do?
      invariant end == callback.next(answers)
      invariant Run(tx.db.env, old(tx.State()), callback.next, [], callback.limit)
             == Run(tx.db.env, tx.State(), callback.next, answers, remaining)
      decreases remaining + if end.Do? then 1 else 0
    {
      if remaining == 0 {
        return Throw(INTERRUPTED);
      }
      var answer := PerformAction(tx, end.action);
      answers, remaining := answers + [answer], remaining - 1;
      end := callback.next(answers);
    }
  }

  method CallExtension<V(0)>(tx: TransactionContext, f: Function, id: string, detail: string, callback: Option<Callback<V>>)
    returns (r: Result<V>)
    modifies tx, tx.db
    ensures (tx.State(), r) == Call(tx.db.env, old(tx.State()), f, id, detail, callback)
  {
    hide Run;
    if callback.None? {
      return Err(Plain(Unsupported(id, f)));
    }
    tx.db.Log(Invoked(f));
    var end := RunCallback(tx, callback.value);
    r := if end.Return? then Ok(end.value) else if end.Throw? then ConvertThrown(f, id, detail, end.thrown) else Panic;
  }
}
