/** The nine operations: begin a transaction, defer its rollback, do the work, commit on success. */
module TransactionController {
  import opened Text
  import opened Errors
  import opened FileTree
  import opened Availability
  import opened ParameterValidator
  import opened Database
  import opened Transaction
  import opened Extensions
  import opened Controller

  /** A call of one operation. What the registry and the JavaScript VM yield when the extension, or
      all extensions, are loaded during the call comes with it. */
  datatype Request =
    | ExtensionsCall(loaded: Result<seq<JsExtension>>)
    | InstalledCall(loaded: Result<seq<JsExtension>>)
    | DefinitionsCall(load: Result<JsExtension>, id: string, version: string)
    | InstancesCall(load: Result<JsExtension>, id: string, version: string)
    | InstallCall(load: Result<JsExtension>, id: string, version: string)
    | UninstallCall(load: Result<JsExtension>, id: string, version: string)
    | UpgradeCall(load: Result<JsExtension>, id: string)
    | CreateCall(load: Result<JsExtension>, reload: Result<JsExtension>, id: string, version: string, values: seq<ParameterValue>)
    | DeleteCall(load: Result<JsExtension>, id: string, version: string, instanceId: string)
  {
    /** The operations that commit what they did. */
    predicate Mutating() {
      InstallCall? || UninstallCall? || UpgradeCall? || CreateCall? || DeleteCall?
    }
  }

  datatype Value =
    | Nothing
    | ExtensionList(extensions: seq<Extension>)
    | InstallationList(installations: seq<Installation>)
    | DefinitionList(definitions: seq<ParameterDefinition>)
    | InstanceList(instances: seq<Option<Instance>>)
    | Upgraded(upgrade: Option<UpgradeResult>)
    | Created(instance: Instance)

  function StartTransaction(env: Environment, w: World): (World, Result<nat>) {
    var (w1, r1) := BeginMain(env, w);
    (w1, r1.Wrap(StartingTransaction))
  }

  function ListBfs(env: Environment, c: Context): (Context, Result<seq<BfsFile>>) {
    var (c1, client) := GetClient(env, c);
    if client.IsFailure() then (c1, client.Fail(SearchingRequiredFiles))
    else
      var (w, files) := ListFiles(env, c1.world, client.value);
      (c1.(world := w), files.Wrap(SearchingRequiredFiles))
  }

  function Lift<T>(r: (Context, Result<T>), wrap: T -> Value): (Context, Result<Value>) {
    (r.0, r.1.Map(wrap))
  }

  /** What happens between the begin of the transaction and its end. */
  function Body(env: Environment, c: Context, request: Request): (Context, Result<Value>) {
    match request
    case ExtensionsCall(loaded) =>
      var (c1, files) := ListBfs(env, c);
      (c1, if files.IsFailure() then files.PropagateFailure()
           else loaded.Map(extensions => ExtensionList(Shown(extensions, AsSet(files.value)))))
    case InstalledCall(loaded) => Lift(AllInstallations(env, c, loaded), v => InstallationList(v))
    case DefinitionsCall(load, id, version) => Lift(ParameterDefinitions(env, c, load, id, version), v => DefinitionList(v))
    case InstancesCall(load, id, version) => Lift(FindExtensionInstances(env, c, load, id, version), v => InstanceList(v))
    case InstallCall(load, id, version) => Lift(InstallExtension(env, c, load, id, version), v => Nothing)
    case UninstallCall(load, id, version) => Lift(UninstallExtension(env, c, load, id, version), v => Nothing)
    case UpgradeCall(load, id) => Lift(UpgradeExtension(env, c, load, id), v => Upgraded(v))
    case CreateCall(load, reload, id, version, values) =>
      Lift(CreateExtensionInstance(env, c, load, reload, id, version, values), v => Created(v))
    case DeleteCall(load, id, version, instanceId) =>
      Lift(DeleteExtensionInstance(env, c, load, id, version, instanceId), v => Nothing)
  }

  /** Commits a successful mutation and rolls back in any case. */
  function Finish<T>(env: Environment, c: Context, r: Result<T>, mutating: bool): (World, Result<T>) {
    if mutating && r.Ok? then
      var (c1, committed) := Commit(env, c);
      (Rollback(env, c1).world, if committed.IsFailure() then committed.PropagateFailure() else r)
    else (Rollback(env, c).world, r)
  }

  /** One call of an operation, from the state of the database before it to the state after it. */
  function Serve(env: Environment, w: World, request: Request): (World, Result<Value>) {
    var (w1, begun) := StartTransaction(env, w);
    if begun.IsFailure() then (w1, begun.PropagateFailure())
    else
      var (c, r) := Body(env, Context(w1, begun.value, None), request);
      Finish(env, c, r, request.Mutating())
  }

  /** A sequence of calls. */
  function ServeAll(env: Environment, w: World, requests: seq<Request>): (World, seq<Result<Value>>)
    decreases |requests|
  {
    if requests == [] then (w, [])
    else
      var (w1, r) := Serve(env, w, requests[0]);
      var (w2, rest) := ServeAll(env, w1, requests[1..]);
      (w2, [r] + rest)
  }

  // ----- The operations on the database object -----

  method StartOperation(db: Db) returns (r: Result<TransactionContext>)
    modifies db
    ensures var (w, begun) := StartTransaction(db.env, old(db.State()));
            && db.State() == w
            && (if begun.Ok? then r.Ok? && fresh(r.value) && r.value.db == db && r.value.State() == Context(w, begun.value, None)
                else r == begun.PropagateFailure())
  {
    var begun := BeginTransaction(db);
    if begun.IsFailure() {
      return begun.Fail(StartingTransaction);
    }
    var tx := new TransactionContext(db, begun.value);
    return Ok(tx);
  }

  /** The end of a mutating operation. */
  method CommitOrRollBack<T>(tx: TransactionContext, r: Result<T>) returns (end: Result<T>)
    modifies tx, tx.db
    ensures (tx.db.State(), end) == Finish(tx.db.env, old(tx.State()), r, true)
  {
    end := r;
    if r.Ok? {
      var committed := tx.CommitChanges();
      if committed.IsFailure() {
        end := committed.PropagateFailure();
      }
    }
    tx.RollBack();
  }

  method ListBfsFiles(db: Db) returns (r: Result<seq<BfsFile>>)
    modifies db
    ensures var (w, begun) := StartTransaction(db.env, old(db.State()));
            if begun.IsFailure() then db.State() == w && r == begun.PropagateFailure()
            else var (c, files) := ListBfs(db.env, Context(w, begun.value, None));
                 db.State() == Rollback(db.env, c).world && r == files
  {
    hide StartTransaction, GetClient, ListFiles, Rollback;
    var tx := StartOperation(db);
    if tx.IsFailure() {
      return tx.PropagateFailure();
    }
    var client := tx.value.GetBucketFsClient();
    if client.IsFailure() {
      r := client.Fail(SearchingRequiredFiles);
    } else {
      r := ListBucketFsFiles(db, client.value);
      r := r.Wrap(SearchingRequiredFiles);
    }
    tx.value.RollBack();
  }

  method GetExtensions(db: Db, loaded: Result<seq<JsExtension>>) returns (r: Result<seq<Extension>>)
    modifies db
    ensures (db.State(), r.Map(v => ExtensionList(v))) == Serve(db.env, old(db.State()), ExtensionsCall(loaded))
  {
    hide StartTransaction, ListBfs, Rollback;
    var files := ListBfsFiles(db);
    if files.IsFailure() {
      return files.PropagateFailure();
    }
    r := GetAllExtensions(loaded, files.value);
  }

  method GetInstalledExtensions(db: Db, loaded: Result<seq<JsExtension>>) returns (r: Result<seq<InstallationObject>>)
    modifies db
    ensures var (w, value) := Serve(db.env, old(db.State()), InstalledCall(loaded));
            && db.State() == w
            && (value.Ok? ==> r.Ok? && value.value.InstallationList? && Hold(r.value, value.value.installations))
            && (!value.Ok? ==> r == value.PropagateFailure())
    ensures r.Ok? ==> forall i | 0 <= i < |r.value| :: fresh(r.value[i])
  {
    hide StartTransaction, AllInstallations, Rollback;
    var tx := StartOperation(db);
    if tx.IsFailure() {
      return tx.PropagateFailure();
    }
    r := GetAllInstallations(tx.value, loaded);
    tx.value.RollBack();
  }

  method GetParameterDefinitions(db: Db, load: Result<JsExtension>, id: string, version: string)
    returns (r: Result<seq<ParameterDefinition>>)
    modifies db
    ensures (db.State(), r.Map(v => DefinitionList(v))) == Serve(db.env, old(db.State()), DefinitionsCall(load, id, version))
  {
    hide StartTransaction, ParameterDefinitions, Rollback;
    var tx := StartOperation(db);
    if tx.IsFailure() {
      return tx.PropagateFailure();
    }
    r := GetDefinitions(tx.value, load, id, version);
    tx.value.RollBack();
  }

  method FindInstances(db: Db, load: Result<JsExtension>, id: string, version: string)
    returns (r: Result<seq<Option<Instance>>>)
    modifies db
    ensures (db.State(), r.Map(v => InstanceList(v))) == Serve(db.env, old(db.State()), InstancesCall(load, id, version))
  {
    hide StartTransaction, FindExtensionInstances, Rollback;
    var tx := StartOperation(db);
    if tx.IsFailure() {
      return tx.PropagateFailure();
    }
    r := DoFind(tx.value, load, id, version);
    tx.value.RollBack();
  }

  method Install(db: Db, load: Result<JsExtension>, id: string, version: string) returns (r: Result<()>)
    modifies db
    ensures (db.State(), r.Map(v => Nothing)) == Serve(db.env, old(db.State()), InstallCall(load, id, version))
  {
    hide StartTransaction, InstallExtension, Rollback, Commit;
    var tx := StartOperation(db);
    if tx.IsFailure() {
      return tx.PropagateFailure();
    }
    r := DoInstall(tx.value, load, id, version);
    r := CommitOrRollBack(tx.value, r);
  }

  method Uninstall(db: Db, load: Result<JsExtension>, id: string, version: string) returns (r: Result<()>)
    modifies db
    ensures (db.State(), r.Map(v => Nothing)) == Serve(db.env, old(db.State()), UninstallCall(load, id, version))
  {
    hide StartTransaction, UninstallExtension, Rollback, Commit;
    var tx := StartOperation(db);
    if tx.IsFailure() {
      return tx.PropagateFailure();
    }
    r := DoUninstall(tx.value, load, id, version);
    r := CommitOrRollBack(tx.value, r);
  }

  method Upgrade(db: Db, load: Result<JsExtension>, id: string) returns (r: Result<Option<UpgradeResult>>)
    modifies db
    ensures (db.State(), r.Map(v => Upgraded(v))) == Serve(db.env, old(db.State()), UpgradeCall(load, id))
  {
    hide StartTransaction, UpgradeExtension, Rollback, Commit;
    var tx := StartOperation(db);
    if tx.IsFailure() {
      return tx.PropagateFailure();
    }
    r := DoUpgrade(tx.value, load, id);
    r := CommitOrRollBack(tx.value, r);
  }

  method CreateInstance(db: Db, load: Result<JsExtension>, reload: Result<JsExtension>, id: string, version: string,
                        values: seq<ParameterValue>)
    returns (r: Result<Instance>)
    modifies db
    ensures (db.State(), r.Map(v => Created(v)))
         == Serve(db.env, old(db.State()), CreateCall(load, reload, id, version, values))
  {
    hide StartTransaction, CreateExtensionInstance, Rollback, Commit;
    var tx := StartOperation(db);
    if tx.IsFailure() {
      return tx.PropagateFailure();
    }
    r := DoCreate(tx.value, load, reload, id, version, values);
    r := CommitOrRollBack(tx.value, r);
  }

  method DeleteInstance(db: Db, load: Result<JsExtension>, id: string, version: string, instanceId: string)
    returns (r: Result<()>)
    modifies db
    ensures (db.State(), r.Map(v => Nothing))
         == Serve(db.env, old(db.State()), DeleteCall(load, id, version, instanceId))
  {
    hide StartTransaction, DeleteExtensionInstance, Rollback, Commit;
    var tx := StartOperation(db);
    if tx.IsFailure() {
      return tx.PropagateFailure();
    }
    r := DoDelete(tx.value, load, id, version, instanceId);
    r := CommitOrRollBack(tx.value, r);
  }
}
