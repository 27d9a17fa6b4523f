/** The BucketFS client with its throw-away transaction, and the context of an operation: the
    transaction the operation works in and the client, which is created when it is first needed. */
module Transaction {
  import opened Text
  import opened Errors
  import opened FileTree
  import opened Availability
  import opened Database

  datatype BucketFsClient = BucketFsClient(basePath: string, udfScriptName: string, transaction: nat)

  // ----- BucketFS client -----

  function SchemaName(env: Environment, clock: nat): string {
    "INTERNAL_" + env.unixTime(clock)
  }

  function UdfName(schemaName: string): string {
    Quoted(schemaName) + ".\"LIST_RECURSIVELY\""
  }

  /** `udfSource` is everything that follows the script's name. */
  function UdfStatement(env: Environment, udfScriptName: string): string {
    "CREATE OR REPLACE PYTHON3 SCALAR SCRIPT " + udfScriptName + env.udfSource
  }

  function CreateUdfScript(env: Environment, w: World, tx: nat): (World, Result<string>) {
    var schemaName := SchemaName(env, w.clock);
    var (w1, r1) := Exec(env, w, tx, "CREATE SCHEMA " + schemaName);
    if r1.IsFailure() then
      (w1, r1.Fail(CreatingUdfSchema))
    else
      var udfScriptName := UdfName(schemaName);
      var (w2, r2) := Exec(env, w1, tx, UdfStatement(env, udfScriptName));
      if r2.IsFailure() then
        (w2, r2.Fail(CreatingUdfScript))
      else (w2, Ok(udfScriptName))
  }

  function CreateClient(env: Environment, w: World): (World, Result<BucketFsClient>) {
    var basePath := env.config.bucketFsBasePath;
    if basePath == "" then (w, Err(Plain(NoBasePath)))
    else
      var (w1, r1) := Begin(env, w, BucketFs);
      if r1.IsFailure() then (w1, r1.Fail(BeginningBucketFs))
      else
        var tx := r1.value;
        var (w2, r2) := CreateUdfScript(env, w1, tx);
        if r2.IsFailure() then (RollbackTx(env, w2, tx).0, r2.PropagateFailure())
        else (w2, Ok(BucketFsClient(basePath, r2.value, tx)))
  }

  /** Reads n rows of a result; the first row that cannot be read ends it. */
  function ReadRows(env: Environment, w: World, tx: nat, n: nat): (World, Result<()>)
    decreases n
  {
    if n == 0 then (w, Ok(()))
    else
      var (w1, r1) := Ask(env, w, tx);
      if r1.IsFailure() then (w1, r1.Wrap(ReadingListing))
      else ReadRows(env, w1, tx, n - 1)
  }

  function ListStatement(client: BucketFsClient): string {
    "SELECT " + client.udfScriptName + "(?) ORDER BY FULL_PATH"
  }

  function ListFiles(env: Environment, w: World, client: BucketFsClient): (World, Result<seq<BfsFile>>) {
    var tx := client.transaction;
    var (w1, r1) := Ask(env, w, tx);
    if r1.IsFailure() then
      (w1, r1.Fail(PreparingListing))
    else
      var (w2, r2) := Exec(env, w1, tx, ListStatement(client));
      if r2.IsFailure() then (w2, r2.Fail(Listing))
      else
        var files := OrderByPath(env.rows);
        var (w3, r3) := ReadRows(env, w2, tx, |files|);
        (w3, if r3.IsFailure() then r3.PropagateFailure() else Ok(files))
  }

  function LookupStatement(client: BucketFsClient): string {
    "SELECT FULL_PATH FROM (SELECT " + client.udfScriptName + "(?)) WHERE FILE_NAME = ? ORDER BY FULL_PATH LIMIT 1"
  }

  function FindAbsolutePath(env: Environment, w: World, client: BucketFsClient, fileName: string): (World, Result<string>) {
    var tx := client.transaction;
    var (w1, r1) := Ask(env, w, tx);
    if r1.IsFailure() then
      (w1, r1.Fail(PreparingLookup))
    else
      var (w2, r2) := Exec(env, w1, tx, LookupStatement(client));
      if r2.IsFailure() then
        (w2, r2.Fail(LookingUp))
      else
        var (w3, r3) := Ask(env, w2, tx);
        match FindPath(env.rows, fileName)
        case None =>
          (w3, if r3.IsFailure() then r3.Fail(IteratingLookup)
               else Err(Plain(FileNotFound(fileName))))
        case Some(path) =>
          (w3, if r3.IsFailure() then r3.Fail(ReadingPath) else Ok(path))
  }

  function CloseClient(env: Environment, w: World, client: BucketFsClient): (World, Result<()>) {
    var (w1, r1) := RollbackTx(env, w, client.transaction);
    (w1, r1.Wrap(RollingBackBucketFs))
  }

  method CreateUdf(db: Db, tx: nat) returns (r: Result<string>)
    modifies db
    ensures (db.State(), r) == CreateUdfScript(db.env, old(db.State()), tx)
  {
    var schemaName := SchemaName(db.env, db.clock);
    var created := db.ExecTx(tx, "CREATE SCHEMA " + schemaName);
    if created.IsFailure() {
      return created.Fail(CreatingUdfSchema);
    }
    var udfScriptName := UdfName(schemaName);
    created := db.ExecTx(tx, UdfStatement(db.env, udfScriptName));
    if created.IsFailure() {
      return created.Fail(CreatingUdfScript);
    }
    return Ok(udfScriptName);
  }

  method CreateBucketFsApi(db: Db) returns (r: Result<BucketFsClient>)
    modifies db
    ensures (db.State(), r) == CreateClient(db.env, old(db.State()))
  {
    var basePath := db.env.config.bucketFsBasePath;
    if basePath == "" {
      return Err(Plain(NoBasePath));
    }
    var begun := db.BeginTx(BucketFs);
    if begun.IsFailure() {
      return begun.Fail(BeginningBucketFs);
    }
    var script := CreateUdf(db, begun.value);
    if script.IsFailure() {
      var _ := db.Rollback(begun.value);
      return script.PropagateFailure();
    }
    return Ok(BucketFsClient(basePath, script.value, begun.value));
  }

  method ListBucketFsFiles(db: Db, client: BucketFsClient) returns (r: Result<seq<BfsFile>>)
    modifies db
    ensures (db.State(), r) == ListFiles(db.env, old(db.State()), client)
  {
    var prepared := db.AskTx(client.transaction);
    if prepared.IsFailure() {
      return prepared.Fail(PreparingListing);
    }
    var result := db.ExecTx(client.transaction, ListStatement(client));
    if result.IsFailure() {
      return result.Fail(Listing);
    }
    var rows := OrderByPath(db.env.rows);
    ghost var start := db.State();
    var files := [];
    while |files| < |rows|
      invariant |files| <= |rows| && files == rows[..|files|]
      invariant ReadRows(db.env, start, client.transaction, |rows|)
             == ReadRows(db.env, db.State(), client.transaction, |rows| - |files|)
    {
      var scanned := db.AskTx(client.transaction);
      if scanned.IsFailure() {
        return scanned.Fail(ReadingListing);
      }
      files := files + [rows[|files|]];
    }
    assert files == rows;
    return Ok(files);
  }

  method FindBucketFsPath(db: Db, client: BucketFsClient, fileName: string) returns (r: Result<string>)
    modifies db
    ensures (db.State(), r) == FindAbsolutePath(db.env, old(db.State()), client, fileName)
  {
    var prepared := db.AskTx(client.transaction);
    if prepared.IsFailure() {
      return prepared.Fail(PreparingLookup);
    }
    var result := db.ExecTx(client.transaction, LookupStatement(client));
    if result.IsFailure() {
      return result.Fail(LookingUp);
    }
    var path := FindPath(db.env.rows, fileName);
    var row := db.AskTx(client.transaction);
    if path.None? {
      if row.IsFailure() {
        return row.Fail(IteratingLookup);
      }
      return Err(Plain(FileNotFound(fileName)));
    }
    if row.IsFailure() {
      return row.Fail(ReadingPath);
    }
    return Ok(path.value);
  }

  method CloseBucketFsClient(db: Db, client: BucketFsClient) returns (r: Result<()>)
    modifies db
    ensures (db.State(), r) == CloseClient(db.env, old(db.State()), client)
  {
    var closed := db.Rollback(client.transaction);
    return closed.Wrap(RollingBackBucketFs);
  }

  // ----- Transaction context -----

  /** The state of an operation: the database, its own transaction and the client it may hold. */
  datatype Context = Context(world: World, main: nat, client: Option<BucketFsClient>)

  function BeginMain(env: Environment, w: World): (World, Result<nat>) {
    if env.config.bucketFsBasePath == "" then (w, Err(Plain(NoBasePath)))
    else
      var (w1, r1) := Begin(env, w, Main);
      (w1, if r1.Err? then
             if Contains(r1.error.Text(), "Connection exception - authentication failed")
             then Err(NewApiError(UNAUTHORIZED, "invalid database credentials"))
             else r1.Wrap(BeginningTransaction)
           else r1)
  }

  function GetClient(env: Environment, c: Context): (Context, Result<BucketFsClient>) {
    if c.client.Some? then (c, Ok(c.client.value))
    else
      var (w1, r1) := CreateClient(env, c.world);
      if r1.IsFailure() then (c.(world := w1), r1)
      else (c.(world := w1, client := Some(r1.value)), r1)
  }

  function Cleanup(env: Environment, c: Context): (Context, Result<()>) {
    if c.client.None? then (c, Ok(()))
    else
      var (w1, r1) := CloseClient(env, c.world, c.client.value);
      (c.(world := w1), r1.Wrap(ClosingClient))
  }

  function Rollback(env: Environment, c: Context): Context {
    var c1 := Cleanup(env, c).0;
    c1.(world := RollbackTx(env, c1.world, c1.main).0)
  }

  function Commit(env: Environment, c: Context): (Context, Result<()>) {
    var (c1, r1) := Cleanup(env, c);
    if r1.IsFailure() then (c1, r1)
    else
      var (w2, r2) := CommitTx(env, c1.world, c1.main);
      (c1.(world := w2), r2)
  }

  class TransactionContext {
    const db: Db
    const transaction: nat
    var bfsClient: Option<BucketFsClient>

    constructor (db: Db, transaction: nat)
      ensures this.db == db && State() == Context(db.State(), transaction, None)
    {
      this.db := db;
      this.transaction := transaction;
      bfsClient := None;
    }

    function State(): Context
      reads this, db
    {
      Context(db.State(), transaction, bfsClient)
    }

    method GetBucketFsClient() returns (r: Result<BucketFsClient>)
      modifies this, db
      ensures (State(), r) == GetClient(db.env, old(State()))
    {
      if bfsClient.None? {
        var client := CreateBucketFsApi(db);
        if client.IsFailure() {
          return client;
        }
        bfsClient := Some(client.value);
      }
      return Ok(bfsClient.value);
    }

    method CleanUp() returns (r: Result<()>)
      modifies this, db
      ensures (State(), r) == Cleanup(db.env, old(State()))
    {
      if bfsClient.Some? {
        var closed := CloseBucketFsClient(db, bfsClient.value);
        return closed.Wrap(ClosingClient);
      }
      return Ok(());
    }

    method RollBack()
      modifies this, db
      ensures State() == Rollback(db.env, old(State()))
    {
      var _ := CleanUp();
      var _ := db.Rollback(transaction);
    }

    method CommitChanges() returns (r: Result<()>)
      modifies this, db
      ensures (State(), r) == Commit(db.env, old(State()))
    {
      var cleaned := CleanUp();
      if cleaned.IsFailure() {
        return cleaned;
      }
      r := db.Commit(transaction);
    }
  }

  method BeginTransaction(db: Db) returns (r: Result<nat>)
    modifies db
    ensures (db.State(), r) == BeginMain(db.env, old(db.State()))
  {
    if db.env.config.bucketFsBasePath == "" {
      return Err(Plain(NoBasePath));
    }
    r := db.BeginTx(Main);
    if r.Err? {
      if Contains(r.error.Text(), "Connection exception - authentication failed") {
        return Err(NewApiError(UNAUTHORIZED, "invalid database credentials"));
      }
      return r.Wrap(BeginningTransaction);
    }
  }
}
