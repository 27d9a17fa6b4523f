/** Which functions of an extension an operation calls, and under which conditions. */
module Gates {
  import opened Text
  import opened Errors
  import opened SqlFilter
  import opened Rows
  import opened Availability
  import opened ParameterValidator
  import opened Database
  import opened Transaction
  import opened Extensions
  import opened Controller
  import TransactionController
  import opened Isolation
  import opened Atomicity

  /** The functions called so far, in order. */
  function CallsOf(trace: seq<Event>): seq<Function> {
    if trace == [] then []
    else
      var last := trace[|trace| - 1];
      CallsOf(trace[..|trace| - 1]) + if last.Invoked? then [last.callback] else []
  }

  /** The history only grew, and these are the functions called meanwhile. */
  ghost predicate CallsAdded(before: World, after: World, calls: seq<Function>) {
    before.trace <= after.trace && CallsOf(after.trace) == CallsOf(before.trace) + calls
  }

  lemma CallsOfAppend(trace: seq<Event>, event: Event)
    ensures CallsOf(trace + [event]) == CallsOf(trace) + if event.Invoked? then [event.callback] else []
  {
    assert (trace + [event])[..|trace|] == trace;
  }

  // ----- Nothing but a wrapped call reaches a function of an extension -----

  lemma ExecCalls(env: Environment, w: World, tx: nat, statement: string)
    ensures CallsAdded(w, Exec(env, w, tx, statement).0, [])
  {
    hide EndsTransaction;
    CallsOfAppend(w.trace, Event.Executed(tx, statement));
  }

  lemma AskCalls(env: Environment, w: World, tx: nat)
    ensures CallsAdded(w, Ask(env, w, tx).0, [])
  {
  }

  lemma RollbackCalls(env: Environment, w: World, tx: nat)
    ensures CallsAdded(w, RollbackTx(env, w, tx).0, [])
  {
    CallsOfAppend(w.trace, RolledBack(tx));
    CallsOfAppend(w.trace, RollbackFailed(tx));
  }

  lemma BeginCalls(env: Environment, w: World, kind: Kind)
    ensures CallsAdded(w, Begin(env, w, kind).0, [])
  {
    CallsOfAppend(w.trace, Begun(|w.sessions|, kind));
  }

  lemma CreateClientCalls(env: Environment, w: World)
    ensures CallsAdded(w, CreateClient(env, w).0, [])
  {
    hide Exec, Begin, RollbackTx, UdfStatement, SchemaName, CallsOf;
    BeginCalls(env, w, BucketFs);
    var (w1, r1) := Begin(env, w, BucketFs);
    if r1.Ok? {
      var schemaName := SchemaName(env, w1.clock);
      ExecCalls(env, w1, r1.value, "CREATE SCHEMA " + schemaName);
      var w2 := Exec(env, w1, r1.value, "CREATE SCHEMA " + schemaName).0;
      ExecCalls(env, w2, r1.value, UdfStatement(env, UdfName(schemaName)));
      RollbackCalls(env, CreateUdfScript(env, w1, r1.value).0, r1.value);
    }
  }

  lemma FindPathCalls(env: Environment, w: World, client: BucketFsClient, fileName: string)
    ensures CallsAdded(w, FindAbsolutePath(env, w, client, fileName).0, [])
  {
    hide Exec, Ask, FindPath, LookupStatement, CallsOf;
    var tx := client.transaction;
    AskCalls(env, w, tx);
    var w1 := Ask(env, w, tx).0;
    ExecCalls(env, w1, tx, LookupStatement(client));
    AskCalls(env, Exec(env, w1, tx, LookupStatement(client)).0, tx);
  }

  lemma PerformCalls(env: Environment, c: Context, action: Action)
    ensures CallsAdded(c.world, Perform(env, c, action).0.world, [])
  {
    hide Exec, Ask, Verdict, CreateClient, FindAbsolutePath, Outcome, MetadataStatement, CallsOf;
    match action
    case Execute(statement) => ExecCalls(env, c.world, c.main, statement);
    case Query(statement) => ExecCalls(env, c.world, c.main, statement);
    case ResolvePath(fileName) =>
      CreateClientCalls(env, c.world);
      var (c1, client) := GetClient(env, c);
      if client.Ok? {
        FindPathCalls(env, c1.world, client.value, fileName);
      }
    case GetScriptByName(name) =>
      var statement := MetadataStatement(env, ScriptByName);
      ExecCalls(env, c.world, c.main, statement);
      AskCalls(env, Exec(env, c.world, c.main, statement).0, c.main);
  }

  lemma {:induction false} RunCalls<V>(env: Environment, c: Context, next: seq<Answer> -> Move<V>, answers: seq<Answer>, limit: nat)
    ensures CallsAdded(c.world, Run(env, c, next, answers, limit).0.world, [])
    decreases limit
  {
    hide Perform, CallsOf;
    var move := next(answers);
    if move.Do? && limit > 0 {
      PerformCalls(env, c, move.action);
      var (c1, answer) := Perform(env, c, move.action);
      RunCalls(env, c1, next, answers + [answer], limit - 1);
    }
  }

  /** A wrapped call calls its function once if the extension has it, and no other function. */
  lemma CallCalls<V>(env: Environment, c: Context, f: Function, id: string, detail: string, callback: Option<Callback<V>>)
    ensures CallsAdded(c.world, Call(env, c, f, id, detail, callback).0.world, if callback.Some? then [f] else [])
    ensures callback.None? ==> Call(env, c, f, id, detail, callback).1.Err?
  {
    hide Run;
    if callback.Some? {
      CallsOfAppend(c.world.trace, Invoked(f));
      RunCalls(env, Entered(c, f), callback.value.next, [], callback.value.limit);
    }
  }

  lemma SchemaCalls(env: Environment, c: Context)
    ensures CallsAdded(c.world, EnsureSchema(env, c).0.world, [])
  {
    hide Exec, SchemaStatement, CallsOf;
    ExecCalls(env, c.world, c.main, SchemaStatement(env));
  }

  lemma DefinitionsCalls(env: Environment, c: Context, load: Result<JsExtension>, id: string, version: string)
    returns (calls: seq<Function>)
    ensures CallsAdded(c.world, ParameterDefinitions(env, c, load, id, version).0.world, calls)
    ensures calls == if load.Ok? && load.value.getParameterDefinitions.Some? then [GetParameterDefinitions] else []
  {
    hide Call, CallsOf, Converted;
    calls := [];
    if load.Ok? {
      var definitions := load.value.getParameterDefinitions;
      CallCalls(env, c, GetParameterDefinitions, load.value.id, "",
                if definitions.Some? then Some(definitions.value(version)) else None);
      calls := if definitions.Some? then [GetParameterDefinitions] else [];
    }
  }

  // ----- The create gate -----

  /** Every definition's value is acceptable and no rule throws. */
  ghost predicate AllAccepted(engine: RegexEngine, defs: seq<ParameterDefinition>, values: seq<ParameterValue>) {
    forall i | 0 <= i < |defs| :: Evaluable(engine, defs[i], values) && Accepted(engine, defs[i], values)
  }

  ghost predicate NoneThrows(engine: RegexEngine, defs: seq<ParameterDefinition>, values: seq<ParameterValue>) {
    forall i | 0 <= i < |defs| :: Evaluable(engine, defs[i], values)
  }

  /** `AddInstance` is called exactly when the extension could be loaded, the schema was created, the
      definitions could be read and every value satisfies its rule. Any other outcome before that is
      a failure of the whole call, with status 400 if it is the values that are refused. */
  lemma CreateGate(env: Environment, c: Context, load: Result<JsExtension>, reload: Result<JsExtension>,
                   id: string, version: string, values: seq<ParameterValue>)
    returns (calls: seq<Function>)
    ensures var (c1, schema) := EnsureSchema(env, c);
            var (c2, definitions) := ParameterDefinitions(env, c1, reload, id, version);
            var (end, r) := CreateExtensionInstance(env, c, load, reload, id, version, values);
            var reached := load.Ok? && schema.Ok? && definitions.Ok?;
            && CallsAdded(c.world, end.world, calls)
            && (AddInstance in calls <==>
                  reached && AllAccepted(env.regex, definitions.value, values) && load.value.addInstance.Some?)
            && (AddInstance !in calls ==> !r.Ok?)
            && (reached && NoneThrows(env.regex, definitions.value, values) && !AllAccepted(env.regex, definitions.value, values) ==>
                  r.Err? && StatusOf(r.error) == 400)
  {
    hide Call, CallsOf, EnsureSchema, ParameterDefinitions, Refusal, Evaluable, Accepted, StatusOf;
    calls := [];
    if load.Ok? {
      SchemaCalls(env, c);
      var (c1, schema) := EnsureSchema(env, c);
      if schema.Ok? {
        calls := DefinitionsCalls(env, c1, reload, id, version);
        var (c2, definitions) := ParameterDefinitions(env, c1, reload, id, version);
        if definitions.Ok? {
          RefusalDecides(env.regex, definitions.value, values);
          RefusedStatus(env.regex, definitions.value, values);
          if AllAccepted(env.regex, definitions.value, values) {
            var add := load.value.addInstance;
            CallCalls(env, c2, AddInstance, load.value.id, "", if add.Some? then Some(add.value(version, values)) else None);
            assert calls + (if add.Some? then [AddInstance] else []) + [] == calls + (if add.Some? then [AddInstance] else []);
            calls := calls + if add.Some? then [AddInstance] else [];
          }
        }
      }
    }
  }

  lemma RefusedStatus(engine: RegexEngine, defs: seq<ParameterDefinition>, values: seq<ParameterValue>)
    ensures NoneThrows(engine, defs, values) && !AllAccepted(engine, defs, values) ==>
              var refusal := Refusal(engine, defs, values);
              refusal.Err? && StatusOf(refusal.error) == 400
  {
    hide Failures, Satisfies, Throws, Join, Evaluable, Accepted;
    RefusalDecides(engine, defs, values);
  }

  // ----- The uninstall gate -----

  /** `Uninstall` is called exactly when the extension offers it and no instance can be there: the
      extension cannot list instances, or its first answer is status 404, or its second answer is
      an empty list. Remaining instances are reported with status 400, and whatever the reason,
      an uninstall that was not called is a failure of the whole call. */
  lemma UninstallGate(env: Environment, c: Context, ext: JsExtension, id: string, version: string)
    returns (calls: seq<Function>)
    ensures var (c1, probe) := ListInstances(env, c, ext, version, 0);
            var (c2, instances) := ListInstances(env, c1, ext, version, 1);
            var (end, r) := UninstallExtension(env, c, Ok(ext), id, version);
            var clear := || ext.findInstances.None?
                         || (probe.Err? && StatusOf(probe.error) == 404)
                         || (!probe.Panic? && instances.Ok? && instances.value == []);
            && CallsAdded(c.world, end.world, calls)
            && (Uninstall in calls <==> clear && ext.uninstall.Some?)
            && (Uninstall !in calls ==> !r.Ok?)
            && (!clear && !probe.Panic? && instances.Ok? && None !in instances.value ==>
                  r.Err? && StatusOf(r.error) == 400)
  {
    hide Call, CallsOf, ListInstances, ConcatNames, Decimal;
    var (c1, verified) := VerifyNoInstances(env, c, ext, version);
    calls := VerifyCalls(env, c, ext, version);
    if verified.Err? {
      WrappingKeepsStatus(RefusingUninstall, verified.error);
    }
    if verified.Ok? {
      var uninstall := ext.uninstall;
      CallCalls(env, c1, Uninstall, ext.id, "", if uninstall.Some? then Some(uninstall.value(version)) else None);
      calls := calls + if uninstall.Some? then [Uninstall] else [];
    }
  }

  lemma ListCalls(env: Environment, c: Context, ext: JsExtension, version: string, nth: nat)
    ensures CallsAdded(c.world, ListInstances(env, c, ext, version, nth).0.world,
                       if ext.findInstances.Some? then [FindInstances] else [])
  {
    hide Call, CallsOf;
    CallCalls(env, c, FindInstances, ext.id, version,
              if ext.findInstances.Some? then Some(ext.findInstances.value(version, nth)) else None);
  }

  lemma VerifyCalls(env: Environment, c: Context, ext: JsExtension, version: string) returns (calls: seq<Function>)
    ensures CallsAdded(c.world, VerifyNoInstances(env, c, ext, version).0.world, calls)
    ensures forall f | f in calls :: f == FindInstances
  {
    hide CallsOf, ListInstances, InstancesRemain;
    calls := [];
    if ext.findInstances.Some? {
      ListCalls(env, c, ext, version, 0);
      var (c1, probe) := ListInstances(env, c, ext, version, 0);
      calls := [FindInstances];
      if !probe.Panic? && !(probe.Err? && StatusOf(probe.error) == NOT_FOUND) {
        ListCalls(env, c1, ext, version, 1);
        calls := [FindInstances, FindInstances];
      }
    }
  }

  // ----- What a successful call has called -----

  /** The functions that a successful operation calls, in order. */
  ghost predicate Expected(request: Request, calls: seq<Function>) {
    match request
    case ExtensionsCall(_) => calls == []
    case InstalledCall(loaded) => loaded.Ok? && |calls| == |loaded.value| && forall f | f in calls :: f == FindInstallations
    case DefinitionsCall(_, _, _) => calls == [GetParameterDefinitions]
    case InstancesCall(_, _, _) => calls == [FindInstances]
    case InstallCall(_, _, _) => calls == [Install]
    case UninstallCall(_, _, _) =>
      calls != [] && calls[|calls| - 1] == Uninstall && forall i | 0 <= i < |calls| - 1 :: calls[i] == FindInstances
    case UpgradeCall(_, _) => calls == [Upgrade]
    case CreateCall(_, _, _, _, _) => calls == [GetParameterDefinitions, AddInstance]
    case DeleteCall(_, _, _, _) => calls == [DeleteInstance]
  }

  lemma ListFilesCalls(env: Environment, w: World, client: BucketFsClient)
    ensures CallsAdded(w, ListFiles(env, w, client).0, [])
  {
    hide Exec, Ask, ReadRows, ListStatement, CallsOf;
    var tx := client.transaction;
    AskCalls(env, w, tx);
    var w1 := Ask(env, w, tx).0;
    ExecCalls(env, w1, tx, ListStatement(client));
    ReadRowsCalls(env, Exec(env, w1, tx, ListStatement(client)).0, tx, |OrderByPath(env.rows)|);
  }

  lemma {:induction false} ReadRowsCalls(env: Environment, w: World, tx: nat, n: nat)
    ensures CallsAdded(w, ReadRows(env, w, tx, n).0, [])
    decreases n
  {
    hide Ask, CallsOf;
    if n > 0 {
      AskCalls(env, w, tx);
      ReadRowsCalls(env, Ask(env, w, tx).0, tx, n - 1);
    }
  }

  lemma {:induction false} CollectCalls(env: Environment, c: Context, extensions: seq<JsExtension>, found: seq<Installation>)
    returns (calls: seq<Function>)
    ensures var (end, r) := Collect(env, c, extensions, found);
            CallsAdded(c.world, end.world, calls) && (r.Ok? ==> |calls| == |extensions|)
    ensures forall f | f in calls :: f == FindInstallations
    decreases |extensions|
  {
    hide Call, CallsOf, WithId;
    calls := [];
    if extensions != [] {
      var ext := extensions[0];
      CallCalls(env, c, FindInstallations, ext.id, "", ext.findInstallations);
      var (c1, r) := Call(env, c, FindInstallations, ext.id, "", ext.findInstallations);
      calls := if ext.findInstallations.Some? then [FindInstallations] else [];
      if r.Ok? && None !in r.value {
        var rest := CollectCalls(env, c1, extensions[1..], found + WithId(ext.id, r.value));
        calls := calls + rest;
      }
    }
  }

  lemma InstallationsCalls(env: Environment, c: Context, loaded: Result<seq<JsExtension>>) returns (calls: seq<Function>)
    ensures var (end, r) := AllInstallations(env, c, loaded);
            r.Ok? ==> loaded.Ok? && CallsAdded(c.world, end.world, calls) && |calls| == |loaded.value|
    ensures forall f | f in calls :: f == FindInstallations
  {
    hide Exec, MetadataStatement, Collect, CallsOf;
    calls := [];
    ExecCalls(env, c.world, c.main, MetadataStatement(env, AllScripts));
    ExecCalls(env, Exec(env, c.world, c.main, MetadataStatement(env, AllScripts)).0, c.main, MetadataStatement(env, AllVirtualSchemas));
    if loaded.Ok? {
      calls := CollectCalls(env, ReadMetadata(env, c).0, loaded.value, []);
    }
  }

  lemma UninstallCalls(env: Environment, c: Context, load: Result<JsExtension>, id: string, version: string)
    returns (calls: seq<Function>)
    ensures var (end, r) := UninstallExtension(env, c, load, id, version);
            r.Ok? ==> CallsAdded(c.world, end.world, calls) && Expected(TransactionController.UninstallCall(load, id, version), calls)
  {
    hide Call, CallsOf, VerifyNoInstances;
    calls := [];
    if load.Ok? {
      calls := VerifyCalls(env, c, load.value, version);
      var uninstall := load.value.uninstall;
      CallCalls(env, VerifyNoInstances(env, c, load.value, version).0, Uninstall, load.value.id, "",
                if uninstall.Some? then Some(uninstall.value(version)) else None);
      assert forall i | 0 <= i < |calls| :: calls[i] in calls;
      calls := calls + [Uninstall];
    }
  }

  lemma CreateCalls(env: Environment, c: Context, load: Result<JsExtension>, reload: Result<JsExtension>,
                    id: string, version: string, values: seq<ParameterValue>)
    ensures var (end, r) := CreateExtensionInstance(env, c, load, reload, id, version, values);
            r.Ok? ==> CallsAdded(c.world, end.world, [GetParameterDefinitions, AddInstance])
  {
    hide Call, CallsOf, EnsureSchema, ParameterDefinitions, Refusal;
    if load.Ok? {
      SchemaCalls(env, c);
      var c1 := EnsureSchema(env, c).0;
      var calls := DefinitionsCalls(env, c1, reload, id, version);
      DefinitionsNeedFunction(env, c1, reload, id, version);
      var add := load.value.addInstance;
      CallCalls(env, ParameterDefinitions(env, c1, reload, id, version).0, AddInstance, load.value.id, "",
                if add.Some? then Some(add.value(version, values)) else None);
      assert calls + [AddInstance] == if calls == [] then [AddInstance] else [GetParameterDefinitions, AddInstance];
    }
  }

  /** An operation succeeds only after it has called the functions it is for, each once, in order,
      and no others; listing and showing never call a function that changes something. */
  lemma SuccessfulCalls(env: Environment, c: Context, request: Request) returns (calls: seq<Function>)
    ensures var (end, r) := TransactionController.Body(env, c, request);
            r.Ok? ==> CallsAdded(c.world, end.world, calls) && Expected(request, calls)
  {
    hide Call, CallsOf, EnsureSchema, CreateClient, ListFiles, AllInstallations, ParameterDefinitions, ListInstances,
         UninstallExtension, CreateExtensionInstance, Shown;
    calls := [];
    match request
    case ExtensionsCall(_) =>
      CreateClientCalls(env, c.world);
      var (c1, client) := GetClient(env, c);
      if client.Ok? {
        ListFilesCalls(env, c1.world, client.value);
      }
    case InstalledCall(loaded) =>
      calls := InstallationsCalls(env, c, loaded);
    case DefinitionsCall(load, id, version) =>
      calls := DefinitionsCalls(env, c, load, id, version);
      DefinitionsNeedFunction(env, c, load, id, version);
    case InstancesCall(load, id, version) =>
      if load.Ok? {
        ListCalls(env, c, load.value, version, 0);
        ListNeedsFunction(env, c, load.value, version, 0);
        calls := [FindInstances];
      }
    case InstallCall(load, id, version) =>
      SchemaCalls(env, c);
      if load.Ok? {
        var install := load.value.install;
        CallCalls(env, EnsureSchema(env, c).0, Install, load.value.id, "",
                  if install.Some? then Some(install.value(version)) else None);
      }
      calls := [Install];
    case UninstallCall(load, id, version) =>
      calls := UninstallCalls(env, c, load, id, version);
    case UpgradeCall(load, id) =>
      if load.Ok? {
        CallCalls(env, c, Upgrade, load.value.id, "", load.value.upgrade);
      }
      calls := [Upgrade];
    case CreateCall(load, reload, id, version, values) =>
      CreateCalls(env, c, load, reload, id, version, values);
      calls := [GetParameterDefinitions, AddInstance];
    case DeleteCall(load, id, version, instanceId) =>
      if load.Ok? {
        var delete := load.value.deleteInstance;
        CallCalls(env, c, DeleteInstance, load.value.id, instanceId,
                  if delete.Some? then Some(delete.value(version, instanceId)) else None);
      }
      calls := [DeleteInstance];
  }

  lemma ListNeedsFunction(env: Environment, c: Context, ext: JsExtension, version: string, nth: nat)
    ensures ListInstances(env, c, ext, version, nth).1.Ok? ==> ext.findInstances.Some?
  {
    hide Run;
  }

  lemma DefinitionsNeedFunction(env: Environment, c: Context, load: Result<JsExtension>, id: string, version: string)
    ensures ParameterDefinitions(env, c, load, id, version).1.Ok? ==> load.Ok? && load.value.getParameterDefinitions.Some?
  {
    hide Run, Converted;
  }

  /** The definitions are those the extension's function returned, one for one: nothing is dropped,
      added or reordered, and each keeps its id, its name and its raw form. */
  lemma DefinitionsAreTheExtensions(env: Environment, c: Context, load: Result<JsExtension>, id: string, version: string)
    requires ParameterDefinitions(env, c, load, id, version).1.Ok?
    ensures load.Ok? && load.value.getParameterDefinitions.Some?
    ensures var callback := load.value.getParameterDefinitions.value(version);
            var end := Run(env, Entered(c, GetParameterDefinitions), callback.next, [], callback.limit).1;
            var definitions := ParameterDefinitions(env, c, load, id, version).1.value;
            && end.Return? && |definitions| == |end.value|
            && forall i | 0 <= i < |definitions| ::
                 && end.value[i] == Definition(definitions[i].raw)
                 && definitions[i].raw.id == Some(JsString(definitions[i].id))
                 && definitions[i].raw.name == Some(JsString(definitions[i].name))
  {
    hide Run, Converted;
    var callback := load.value.getParameterDefinitions.value(version);
    var end := Run(env, Entered(c, GetParameterDefinitions), callback.next, [], callback.limit).1;
    ConversionIsComplete(end.value);
  }

  // ----- What a refused call leaves behind -----

  lemma {:induction false} StatementsGrow(before: seq<Event>, after: seq<Event>, tx: nat)
    requires before <= after
    ensures StatementsOf(before, tx) <= StatementsOf(after, tx)
    decreases |after|
  {
    if |before| < |after| {
      StatementsGrow(before, after[..|after| - 1], tx);
    } else {
      assert before == after;
    }
  }

  lemma FinishGrows<T>(env: Environment, c: Context, r: Result<T>, mutating: bool)
    ensures c.world.trace <= TransactionController.Finish(env, c, r, mutating).0.trace
  {
    hide RollbackTx, CallsOf;
    CommitGrows(env, c);
    RollbackGrows(env, c);
    RollbackGrows(env, Commit(env, c).0);
  }

  lemma RollbackGrows(env: Environment, c: Context)
    ensures c.world.trace <= Rollback(env, c).world.trace
  {
    hide RollbackTx, CallsOf;
    if c.client.Some? {
      RollbackCalls(env, c.world, c.client.value.transaction);
    }
    var c1 := Cleanup(env, c).0;
    RollbackCalls(env, c1.world, c1.main);
  }

  lemma CommitGrows(env: Environment, c: Context)
    ensures c.world.trace <= Commit(env, c).0.world.trace
  {
    hide RollbackTx, CallsOf;
    if c.client.Some? {
      RollbackCalls(env, c.world, c.client.value.transaction);
    }
  }

  /** The state of a call of a creating operation after its transaction was begun and, when that
      worked, its schema was created. */
  function AfterSchema(env: Environment, w0: World): (Context, Result<()>) {
    var (w1, begun) := TransactionController.StartTransaction(env, w0);
    if begun.IsFailure() then (Context(w1, 0, None), begun.PropagateFailure())
    else EnsureSchema(env, Context(w1, begun.value, None))
  }

  lemma SchemaIsFirst(env: Environment, w0: World, end: World)
    requires AfterSchema(env, w0).1.Ok? && AfterSchema(env, w0).0.world.trace <= end.trace
    ensures var own := StatementsOf(Since(w0, end), |w0.sessions|);
            own != [] && own[0] == SchemaStatement(env)
  {
    hide SchemaStatement, TransactionController.StartTransaction, EnsureSchema, StatementsOf, Inside;
    BegunInside(env, w0);
    var (w1, begun) := TransactionController.StartTransaction(env, w0);
    var c := Context(w1, begun.value, None);
    SchemaEvent(env, c);
    var n, events := |w0.sessions|, AfterSchema(env, w0).0.world.trace;
    InsideKeepsTrace(w0, c);
    assert events == w1.trace + [Event.Executed(n, SchemaStatement(env))];
    SinceStartsWith(w0, w1, end, Event.Executed(n, SchemaStatement(env)));
    TwoEvents(n, SchemaStatement(env));
    StatementsGrow([Begun(n, Main), Event.Executed(n, SchemaStatement(env))], Since(w0, end), n);
  }

  lemma SchemaEvent(env: Environment, c: Context)
    ensures EnsureSchema(env, c).1.Ok? ==>
              EnsureSchema(env, c).0.world.trace == c.world.trace + [Event.Executed(c.main, SchemaStatement(env))]
  {
    hide SchemaStatement, EndsTransaction;
  }

  lemma InsideKeepsTrace(w0: World, c: Context)
    requires Inside(w0, c)
    ensures c.main == |w0.sessions| && w0.trace <= c.world.trace
  {
  }

  lemma SinceStartsWith(w0: World, w1: World, end: World, event: Event)
    requires w0.trace <= w1.trace && w1.trace + [event] <= end.trace
    ensures Since(w0, w1) + [event] <= Since(w0, end)
  {
  }

  lemma TwoEvents(n: nat, statement: string)
    ensures StatementsOf([Begun(n, Main), Event.Executed(n, statement)], n) == [statement]
  {
    StatementsOfAppend([], Begun(n, Main), n);
    StatementsOfAppend([Begun(n, Main)], Event.Executed(n, statement), n);
    assert [] + [Begun(n, Main)] == [Begun(n, Main)];
    assert [Begun(n, Main)] + [Event.Executed(n, statement)] == [Begun(n, Main), Event.Executed(n, statement)];
  }

  lemma CreateGrows(env: Environment, c: Context, load: Result<JsExtension>, reload: Result<JsExtension>,
                    id: string, version: string, values: seq<ParameterValue>)
    requires load.Ok?
    ensures EnsureSchema(env, c).0.world.trace <= CreateExtensionInstance(env, c, load, reload, id, version, values).0.world.trace
  {
    hide Call, CallsOf, EnsureSchema, ParameterDefinitions, Refusal;
    var (c1, schema) := EnsureSchema(env, c);
    var _ := DefinitionsCalls(env, c1, reload, id, version);
    var add := load.value.addInstance;
    CallCalls(env, ParameterDefinitions(env, c1, reload, id, version).0, AddInstance, load.value.id, "",
              if add.Some? then Some(add.value(version, values)) else None);
  }

  lemma InstallGrows(env: Environment, c: Context, load: Result<JsExtension>, id: string, version: string)
    requires load.Ok?
    ensures EnsureSchema(env, c).0.world.trace <= InstallExtension(env, c, load, id, version).0.world.trace
  {
    hide Call, CallsOf, EnsureSchema;
    var install := load.value.install;
    CallCalls(env, EnsureSchema(env, c).0, Install, load.value.id, "",
              if install.Some? then Some(install.value(version)) else None);
  }

  /** The operation's own statements in a state that comes after the creation of the schema. */
  lemma WorkAfterSchema(env: Environment, w0: World, request: Request)
    requires (request.CreateCall? || request.InstallCall?) && request.load.Ok? && AfterSchema(env, w0).1.Ok?
    ensures var c0 := Context(TransactionController.StartTransaction(env, w0).0, TransactionController.StartTransaction(env, w0).1.value, None);
            AfterSchema(env, w0).0.world.trace <= TransactionController.Body(env, c0, request).0.world.trace
  {
    hide TransactionController.StartTransaction, EnsureSchema, CreateExtensionInstance, InstallExtension;
    var (w1, begun) := TransactionController.StartTransaction(env, w0);
    var c0 := Context(w1, begun.value, None);
    match request {
      case CreateCall(load, reload, id, version, values) => CreateGrows(env, c0, load, reload, id, version, values);
      case InstallCall(load, id, version) => InstallGrows(env, c0, load, id, version);
    }
  }

  lemma EndAfterSchema(env: Environment, w0: World, request: Request)
    requires (request.CreateCall? || request.InstallCall?) && request.load.Ok? && AfterSchema(env, w0).1.Ok?
    ensures AfterSchema(env, w0).0.world.trace <= TransactionController.Serve(env, w0, request).0.trace
  {
    hide TransactionController.StartTransaction, EnsureSchema, TransactionController.Body, TransactionController.Finish;
    WorkAfterSchema(env, w0, request);
    var (w1, begun) := TransactionController.StartTransaction(env, w0);
    var (c, r) := TransactionController.Body(env, Context(w1, begun.value, None), request);
    FinishGrows(env, c, r, true);
  }

  /** A call that creates the schema first has that statement at the head of its transaction. If the
      call succeeds it is committed together with everything the extension executed; if anything is
      refused or fails later, the schema is not committed either. */
  lemma SchemaSharesTheFate(env: Environment, w0: World, request: Request)
    requires Quiescent(w0) && (request.CreateCall? || request.InstallCall?)
    requires request.load.Ok? && AfterSchema(env, w0).1.Ok?
    ensures var (w, r) := TransactionController.Serve(env, w0, request);
            var own := StatementsOf(Since(w0, w), |w0.sessions|);
            && own != [] && own[0] == SchemaStatement(env)
            && w.committed == w0.committed + if r.Ok? then Tagged(|w0.sessions|, own) else []
  {
    hide TransactionController.Serve, Quiescent, StatementsOf, AfterSchema, SchemaStatement, Since, Tagged;
    ServeIsAtomic(env, w0, request);
    EndAfterSchema(env, w0, request);
    SchemaIsFirst(env, w0, TransactionController.Serve(env, w0, request).0);
  }
}
