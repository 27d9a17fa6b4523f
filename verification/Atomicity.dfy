/** Whole operations and whole runs: what is committed, what is left open, and in which order. */
module Atomicity {
  import opened Text
  import opened Errors
  import opened Availability
  import opened ParameterValidator
  import opened Database
  import opened Transaction
  import opened Extensions
  import opened Controller
  import TransactionController
  import opened Isolation

  type Request = TransactionController.Request
  type Value = TransactionController.Value

  // ----- The work of every operation stays inside its transaction -----

  lemma DefinitionsInside(env: Environment, w0: World, c: Context, load: Result<JsExtension>, id: string, version: string)
    requires Inside(w0, c)
    ensures Inside(w0, ParameterDefinitions(env, c, load, id, version).0)
  {
    hide Inside, Call, Converted;
    if load.Ok? {
      var definitions := load.value.getParameterDefinitions;
      CallInside(env, w0, c, GetParameterDefinitions, load.value.id, "",
                 if definitions.Some? then Some(definitions.value(version)) else None);
    }
  }

  lemma SchemaInside(env: Environment, w0: World, c: Context)
    requires Inside(w0, c)
    ensures Inside(w0, EnsureSchema(env, c).0)
  {
    hide Inside, Exec, Harmless, SchemaStatement;
    MainStatementsHarmless(env, AllScripts);
    ExecInside(env, w0, c, SchemaStatement(env));
  }

  lemma InstallInside(env: Environment, w0: World, c: Context, load: Result<JsExtension>, id: string, version: string)
    requires Inside(w0, c)
    ensures Inside(w0, InstallExtension(env, c, load, id, version).0)
  {
    hide Inside, Call, EnsureSchema;
    if load.Ok? {
      SchemaInside(env, w0, c);
      var install := load.value.install;
      CallInside(env, w0, EnsureSchema(env, c).0, Install, load.value.id, "",
                 if install.Some? then Some(install.value(version)) else None);
    }
  }

  lemma ListInside(env: Environment, w0: World, c: Context, ext: JsExtension, version: string, nth: nat)
    requires Inside(w0, c)
    ensures Inside(w0, ListInstances(env, c, ext, version, nth).0)
  {
    hide Inside, Call;
    CallInside(env, w0, c, FindInstances, ext.id, version,
               if ext.findInstances.Some? then Some(ext.findInstances.value(version, nth)) else None);
  }

  lemma VerifyInside(env: Environment, w0: World, c: Context, ext: JsExtension, version: string)
    requires Inside(w0, c)
    ensures Inside(w0, VerifyNoInstances(env, c, ext, version).0)
  {
    hide Inside, ListInstances, InstancesRemain;
    ListInside(env, w0, c, ext, version, 0);
    ListInside(env, w0, ListInstances(env, c, ext, version, 0).0, ext, version, 1);
  }

  lemma UninstallInside(env: Environment, w0: World, c: Context, load: Result<JsExtension>, id: string, version: string)
    requires Inside(w0, c)
    ensures Inside(w0, UninstallExtension(env, c, load, id, version).0)
  {
    hide Inside, Call, VerifyNoInstances;
    if load.Ok? {
      VerifyInside(env, w0, c, load.value, version);
      var uninstall := load.value.uninstall;
      CallInside(env, w0, VerifyNoInstances(env, c, load.value, version).0, Uninstall, load.value.id, "",
                 if uninstall.Some? then Some(uninstall.value(version)) else None);
    }
  }

  lemma UpgradeInside(env: Environment, w0: World, c: Context, load: Result<JsExtension>, id: string)
    requires Inside(w0, c)
    ensures Inside(w0, UpgradeExtension(env, c, load, id).0)
  {
    hide Inside, Call;
    if load.Ok? {
      CallInside(env, w0, c, Upgrade, load.value.id, "", load.value.upgrade);
    }
  }

  lemma DeleteInside(env: Environment, w0: World, c: Context, load: Result<JsExtension>, id: string, version: string, instanceId: string)
    requires Inside(w0, c)
    ensures Inside(w0, DeleteExtensionInstance(env, c, load, id, version, instanceId).0)
  {
    hide Inside, Call;
    if load.Ok? {
      var delete := load.value.deleteInstance;
      CallInside(env, w0, c, DeleteInstance, load.value.id, instanceId,
                 if delete.Some? then Some(delete.value(version, instanceId)) else None);
    }
  }

  lemma CreateInside(env: Environment, w0: World, c: Context, load: Result<JsExtension>, reload: Result<JsExtension>,
                     id: string, version: string, values: seq<ParameterValue>)
    requires Inside(w0, c)
    ensures Inside(w0, CreateExtensionInstance(env, c, load, reload, id, version, values).0)
  {
    hide Inside, Call, EnsureSchema, ParameterDefinitions, Refusal;
    if load.Ok? {
      SchemaInside(env, w0, c);
      var c1 := EnsureSchema(env, c).0;
      DefinitionsInside(env, w0, c1, reload, id, version);
      var add := load.value.addInstance;
      CallInside(env, w0, ParameterDefinitions(env, c1, reload, id, version).0, AddInstance, load.value.id, "",
                 if add.Some? then Some(add.value(version, values)) else None);
    }
  }

  lemma {:induction false} CollectInside(env: Environment, w0: World, c: Context, extensions: seq<JsExtension>, found: seq<Installation>)
    requires Inside(w0, c)
    ensures Inside(w0, Collect(env, c, extensions, found).0)
    decreases |extensions|
  {
    hide Inside, Call, WithId;
    if extensions != [] {
      var ext := extensions[0];
      CallInside(env, w0, c, FindInstallations, ext.id, "", ext.findInstallations);
      var (c1, r) := Call(env, c, FindInstallations, ext.id, "", ext.findInstallations);
      if r.Ok? && None !in r.value {
        CollectInside(env, w0, c1, extensions[1..], found + WithId(ext.id, r.value));
      }
    }
  }

  lemma InstallationsInside(env: Environment, w0: World, c: Context, loaded: Result<seq<JsExtension>>)
    requires Inside(w0, c)
    ensures Inside(w0, AllInstallations(env, c, loaded).0)
  {
    hide Inside, Exec, Harmless, MetadataStatement, Collect;
    MainStatementsHarmless(env, AllScripts);
    MainStatementsHarmless(env, AllVirtualSchemas);
    ExecInside(env, w0, c, MetadataStatement(env, AllScripts));
    var c1 := c.(world := Exec(env, c.world, c.main, MetadataStatement(env, AllScripts)).0);
    ExecInside(env, w0, c1, MetadataStatement(env, AllVirtualSchemas));
    if loaded.Ok? {
      CollectInside(env, w0, ReadMetadata(env, c).0, loaded.value, []);
    }
  }

  lemma ListBfsInside(env: Environment, w0: World, c: Context)
    requires Inside(w0, c)
    ensures Inside(w0, TransactionController.ListBfs(env, c).0)
  {
    hide Working, GetClient, ListFiles;
    GetClientInside(env, w0, c);
    var (c1, client) := GetClient(env, c);
    if client.Ok? {
      ListFilesWorking(env, w0, c1.world, client.value);
    }
  }

  lemma BodyInside(env: Environment, w0: World, c: Context, request: Request)
    requires Inside(w0, c)
    ensures Inside(w0, TransactionController.Body(env, c, request).0)
  {
    hide Inside, TransactionController.ListBfs, AllInstallations, ParameterDefinitions, FindExtensionInstances, InstallExtension,
         UninstallExtension, UpgradeExtension, CreateExtensionInstance, DeleteExtensionInstance, Shown;
    match request
    case ExtensionsCall(loaded) => ListBfsInside(env, w0, c);
    case InstalledCall(loaded) => InstallationsInside(env, w0, c, loaded);
    case DefinitionsCall(load, id, version) => DefinitionsInside(env, w0, c, load, id, version);
    case InstancesCall(load, id, version) => FindInside(env, w0, c, load, id, version);
    case InstallCall(load, id, version) => InstallInside(env, w0, c, load, id, version);
    case UninstallCall(load, id, version) => UninstallInside(env, w0, c, load, id, version);
    case UpgradeCall(load, id) => UpgradeInside(env, w0, c, load, id);
    case CreateCall(load, reload, id, version, values) => CreateInside(env, w0, c, load, reload, id, version, values);
    case DeleteCall(load, id, version, instanceId) => DeleteInside(env, w0, c, load, id, version, instanceId);
  }

  lemma FindInside(env: Environment, w0: World, c: Context, load: Result<JsExtension>, id: string, version: string)
    requires Inside(w0, c)
    ensures Inside(w0, FindExtensionInstances(env, c, load, id, version).0)
  {
    hide Inside, ListInstances;
    if load.Ok? {
      ListInside(env, w0, c, load.value, version, 0);
    }
  }

  // ----- The end of an operation -----

  /** No transaction is open. */
  predicate Quiescent(w: World) {
    forall i | 0 <= i < |w.sessions| :: !w.sessions[i].open
  }

  /** The operation that began in w0 is over: everything begun since is finished, what was there
      before is unchanged, and the given writes of its own transaction were committed. */
  predicate Over(w0: World, w: World, writes: seq<Write>) {
    && Quiescent(w)
    && |w0.sessions| <= |w.sessions| && w.sessions[..|w0.sessions|] == w0.sessions
    && |w0.trace| <= |w.trace| && w.trace[..|w0.trace|] == w0.trace
    && w.committed == w0.committed + writes
    && (forall i | |w0.sessions| < i < |w.sessions| :: w.sessions[i].kind == BucketFs)
    && (if |w0.sessions| < |w.sessions| then w.sessions[|w0.sessions|].kind == Main else w.trace == w0.trace && writes == [])
  }

  /** The statements of the operation's own transaction, as they would be committed. */
  function OwnWrites(w0: World, w: World): seq<Write> {
    Tagged(|w0.sessions|, StatementsOf(Since(w0, w), |w0.sessions|))
  }

  /** The client, if there is one, is closed first. */
  lemma CleanupWorking(env: Environment, w0: World, c: Context)
    requires Inside(w0, c)
    ensures var (c1, r) := Cleanup(env, c);
            && c1.main == c.main && c1.client == c.client && Working(w0, c1.world, None)
            && (c.client.None? ==> c1 == c && r.Ok?)
            && (c.client.Some? ==>
                  Since(w0, c1.world) == Since(w0, c.world)
                    + [if r.Ok? then RolledBack(c.client.value.transaction) else RollbackFailed(c.client.value.transaction)])
            && !r.Panic?
  {
    hide Working;
    if c.client.Some? {
      RollbackWorking(env, w0, c.world, c.client.value.transaction);
    }
  }

  /** Closing the client again changes nothing, whatever it reports. */
  lemma CleanupAgain(env: Environment, w0: World, c: Context)
    requires Working(w0, c.world, None)
    requires c.client.Some? ==> c.client.value.transaction > |w0.sessions|
    ensures Cleanup(env, c).0 == c
  {
    if c.client.Some? {
      var tx := c.client.value.transaction;
      assert !IsOpen(c.world, tx);
    }
  }

  lemma AllClosed(sessions: seq<Session>, before: seq<Session>, events: seq<Event>)
    requires var n := |before|;
             && n < |sessions| && sessions[..n] == before && (forall i | 0 <= i < n :: !before[i].open)
             && Others(sessions, n, None, events)
    ensures forall i | 0 <= i < |sessions| && i != |before| :: !sessions[i].open
  {
    hide Finished;
    forall i | 0 <= i < |before| ensures !sessions[i].open {
      assert sessions[..|before|][i] == before[i];
    }
  }

  lemma EndedMain(w0: World, w: World, event: Event, w': World, writes: seq<Write>)
    requires Quiescent(w0) && Working(w0, w, None)
    requires var n := |w0.sessions|;
             && !event.Executed? && w'.trace == w.trace + [event]
             && w'.sessions == w.sessions[n := w.sessions[n].(open := false)]
             && w'.committed == w.committed + writes
    ensures Over(w0, w', writes) && Since(w0, w') == Since(w0, w) + [event]
    ensures OwnWrites(w0, w') == Tagged(|w0.sessions|, w.sessions[|w0.sessions|].writes)
  {
    hide Finished, StatementsOf, Quiet, Ends, Tagged;
    var n := |w0.sessions|;
    assert Since(w0, w') == Since(w0, w) + [event];
    StatementsOfAppend(Since(w0, w), event, n);
    assert StatementsOf(Since(w0, w), n) + [] == StatementsOf(Since(w0, w), n);
    AllClosed(w.sessions, w0.sessions, Since(w0, w));
    assert w'.sessions[..n] == w.sessions[..n];
    assert w'.trace[..|w0.trace|] == w.trace[..|w0.trace|];
  }

  /** A rollback ends everything and commits nothing. */
  lemma RollbackOver(env: Environment, w0: World, c: Context)
    requires Quiescent(w0) && Inside(w0, c)
    ensures Over(w0, Rollback(env, c).world, [])
    ensures NoCommitIn(Since(w0, Rollback(env, c).world))
  {
    hide Over, Quiescent, StatementsOf, Finished, Others;
    CleanupWorking(env, w0, c);
    var w := Cleanup(env, c).0.world;
    RollbackMainOver(env, w0, w);
  }

  predicate NoCommitIn(events: seq<Event>) {
    forall k | 0 <= k < |events| :: !events[k].Committed?
  }

  lemma RollbackMainOver(env: Environment, w0: World, w: World)
    requires Quiescent(w0) && Working(w0, w, None)
    ensures Over(w0, RollbackTx(env, w, |w0.sessions|).0, [])
    ensures NoCommitIn(Since(w0, RollbackTx(env, w, |w0.sessions|).0))
  {
    hide Over, StatementsOf, Finished, Others;
    var n := |w0.sessions|;
    TickedWorking(w0, w, None);
    assert Since(w0, Ticked(w)) == Since(w0, w);
    var r := RollbackTx(env, w, n).1;
    var event := if r.Ok? then RolledBack(n) else RollbackFailed(n);
    assert w.committed + [] == w.committed;
    EndedMain(w0, Ticked(w), event, RollbackTx(env, w, n).0, []);
  }

  /** Once everything is finished, a rollback changes nothing. */
  lemma RollbackAfterEnd(env: Environment, c: Context)
    requires Quiescent(c.world)
    ensures Rollback(env, c) == c
  {
  }

  /** The commit of the operation's own transaction, after the client was closed. */
  lemma CommitMainOver(env: Environment, w0: World, w: World)
    requires Quiescent(w0) && Working(w0, w, None)
    ensures var n := |w0.sessions|;
            var (w', r) := CommitTx(env, w, n);
            && !r.Panic?
            && Over(w0, w', if r.Ok? then OwnWrites(w0, w') else [])
            && Since(w0, w') == Since(w0, w) + [if r.Ok? then Committed(n) else CommitFailed(n)]
            && OwnWrites(w0, w') == Tagged(n, StatementsOf(Since(w0, w), n))
  {
    hide Over, StatementsOf, Finished, Others;
    var n := |w0.sessions|;
    TickedWorking(w0, w, None);
    assert Since(w0, Ticked(w)) == Since(w0, w);
    var (w', r) := CommitTx(env, w, n);
    assert w.committed + [] == w.committed;
    EndedMain(w0, Ticked(w), if r.Ok? then Committed(n) else CommitFailed(n), w',
              if r.Ok? then Tagged(n, w.sessions[n].writes) else []);
  }

  /** Closing the client is the last thing that happens before the commit. */
  function ClientClosed(c: Context): seq<Event> {
    if c.client.Some? then [RolledBack(c.client.value.transaction)] else []
  }

  lemma StatementsOfClosed(events: seq<Event>, c: Context, tx: nat)
    ensures StatementsOf(events + ClientClosed(c), tx) == StatementsOf(events, tx)
  {
    if c.client.Some? {
      StatementsOfAppend(events, RolledBack(c.client.value.transaction), tx);
    } else {
      assert events + [] == events;
    }
  }

  /** A commit happens only after the client was closed without an error, it is the last thing the
      operation does to the database, and the rollback deferred behind it changes nothing. When the
      commit reports an error, nothing was committed and the deferred rollback finishes the rest. */
  lemma CommitOrder(env: Environment, w0: World, c: Context)
    requires Quiescent(w0) && Inside(w0, c)
    ensures var (c1, r) := Commit(env, c);
            var end := Rollback(env, c1);
            && !r.Panic?
            && (r.Ok? ==>
                  && end == c1
                  && Since(w0, end.world) == Since(w0, c.world) + ClientClosed(c) + [Committed(c.main)]
                  && Over(w0, end.world, OwnWrites(w0, end.world))
                  && OwnWrites(w0, end.world) == Tagged(c.main, StatementsOf(Since(w0, c.world), c.main)))
            && (r.Err? ==> Over(w0, end.world, []) && NoCommitIn(Since(w0, end.world)))
  {
    hide Working, Over, Quiescent, StatementsOf, Tagged;
    CleanupWorking(env, w0, c);
    var (c1, cleaned) := Cleanup(env, c);
    if cleaned.Err? {
      ClientBehindMain(w0, c);
      CleanupAgain(env, w0, c1);
      RollbackMainOver(env, w0, c1.world);
    } else {
      CommitMainOver(env, w0, c1.world);
      var (w2, r) := CommitTx(env, c1.world, c1.main);
      OverIsQuiescent(w0, w2, if r.Ok? then OwnWrites(w0, w2) else []);
      RollbackAfterEnd(env, c1.(world := w2));
      StatementsOfClosed(Since(w0, c.world), c, c.main);
      if c.client.None? {
        assert Since(w0, c.world) + ClientClosed(c) == Since(w0, c.world);
      }
      if r.Err? {
        WorkingIsQuiet(w0, c1.world);
      }
    }
  }

  lemma ClientBehindMain(w0: World, c: Context)
    requires Inside(w0, c)
    ensures c.client.Some? ==> c.client.value.transaction > |w0.sessions|
  {
  }

  lemma OverIsQuiescent(w0: World, w: World, writes: seq<Write>)
    requires Over(w0, w, writes)
    ensures Quiescent(w)
  {
  }

  lemma WorkingIsQuiet(w0: World, w: World)
    requires Working(w0, w, None)
    ensures |w0.trace| <= |w.trace| && NoCommitIn(Since(w0, w))
  {
  }

  // ----- Whole operations -----

  lemma BegunInside(env: Environment, w0: World)
    ensures var (w1, begun) := TransactionController.StartTransaction(env, w0);
            && !begun.Panic?
            && (begun.Ok? ==> Inside(w0, Context(w1, begun.value, None)) && Since(w0, w1) == [Begun(|w0.sessions|, Main)])
            && (begun.Err? ==> w1.committed == w0.committed && w1.sessions == w0.sessions && w1.trace == w0.trace)
  {
    var n := |w0.sessions|;
    var (w1, begun) := TransactionController.StartTransaction(env, w0);
    if begun.Ok? {
      assert w1.trace == w0.trace + [Begun(n, Main)];
      assert Since(w0, w1) == [] + [Begun(n, Main)];
      StatementsOfAppend([], Begun(n, Main), n);
    }
  }

  /** What one call of an operation commits. */
  function Contribution(w0: World, w: World, request: Request, r: Errors.Result<Value>): seq<Write> {
    if request.Mutating() && r.Ok? then OwnWrites(w0, w) else []
  }

  /** A call commits exactly the statements of its own transaction if it is a mutating call that
      returns no error, and nothing otherwise; either way no transaction is left open. */
  lemma ServeIsAtomic(env: Environment, w0: World, request: Request)
    requires Quiescent(w0)
    ensures var (w, r) := TransactionController.Serve(env, w0, request);
            && Over(w0, w, Contribution(w0, w, request, r))
            && (NoCommitIn(Since(w0, w)) <==> !(request.Mutating() && r.Ok?))
            && (request.Mutating() && r.Ok? ==>
                  exists before: seq<Event> :: Since(w0, w) == before + [Committed(|w0.sessions|)] && NoCommitIn(before))
  {
    hide Inside, TransactionController.StartTransaction, TransactionController.Body, Rollback, Commit, Over, OwnWrites;
    BegunInside(env, w0);
    var (w1, begun) := TransactionController.StartTransaction(env, w0);
    if begun.Err? {
      UntouchedIsOver(w0, w1);
    } else {
      var c0 := Context(w1, begun.value, None);
      BodyInside(env, w0, c0, request);
      var (c, r) := TransactionController.Body(env, c0, request);
      if request.Mutating() && r.Ok? {
        CommitOrder(env, w0, c);
        if Commit(env, c).1.Ok? {
          var before := Since(w0, c.world) + ClientClosed(c);
          InsideIsQuiet(w0, c);
          assert (before + [Committed(c.main)])[|before|].Committed?;
          assert NoCommitIn(before);
        }
      } else {
        RollbackOver(env, w0, c);
      }
    }
  }

  lemma UntouchedIsOver(w0: World, w: World)
    requires Quiescent(w0) && w.committed == w0.committed && w.sessions == w0.sessions && w.trace == w0.trace
    ensures Over(w0, w, []) && NoCommitIn(Since(w0, w))
  {
    assert w0.committed + [] == w0.committed;
  }

  lemma InsideIsQuiet(w0: World, c: Context)
    requires Inside(w0, c)
    ensures c.main == |w0.sessions| && NoCommitIn(Since(w0, c.world))
  {
  }

  // ----- Whole runs -----

  /** What a sequence of calls commits: the contributions in call order. */
  function Contributions(env: Environment, w: World, requests: seq<Request>): seq<Write>
    decreases |requests|
  {
    if requests == [] then []
    else
      var (w1, r) := TransactionController.Serve(env, w, requests[0]);
      Contribution(w, w1, requests[0], r) + Contributions(env, w1, requests[1..])
  }

  /** For every sequence of calls, every behaviour of the extensions and every pattern of failures:
      the committed store is the initial one followed by the writes of exactly those mutating calls
      that returned no error, in call order, and no transaction is left open. */
  lemma {:induction false} RunIsAtomic(env: Environment, w: World, requests: seq<Request>)
    requires Quiescent(w)
    ensures var (end, results) := TransactionController.ServeAll(env, w, requests);
            && end.committed == w.committed + Contributions(env, w, requests)
            && Quiescent(end) && |results| == |requests|
    decreases |requests|
  {
    hide TransactionController.Serve, Contribution, Quiescent;
    if requests != [] {
      ServeIsAtomic(env, w, requests[0]);
      var (w1, r) := TransactionController.Serve(env, w, requests[0]);
      RunIsAtomic(env, w1, requests[1..]);
    } else {
      assert w.committed + [] == w.committed;
    }
  }

  /** Every commit so far was that of an operation's own transaction, and so is every write. */
  predicate OnlyMainCommits(w: World) {
    && (forall k | 0 <= k < |w.committed| :: w.committed[k].tx < |w.sessions| && w.sessions[w.committed[k].tx].kind == Main)
    && (forall k | 0 <= k < |w.trace| && w.trace[k].Committed? ::
          w.trace[k].tx < |w.sessions| && w.sessions[w.trace[k].tx].kind == Main)
  }

  lemma ServeCommitsMain(env: Environment, w0: World, request: Request)
    requires Quiescent(w0) && OnlyMainCommits(w0)
    ensures OnlyMainCommits(TransactionController.Serve(env, w0, request).0)
  {
    hide TransactionController.Serve, Quiescent, StatementsOf;
    ServeIsAtomic(env, w0, request);
    var (w, r) := TransactionController.Serve(env, w0, request);
    var n := |w0.sessions|;
    assert |w0.sessions| == |w.sessions| ==> w.sessions == w0.sessions;
    forall i | 0 <= i < n ensures w.sessions[i] == w0.sessions[i] {
      assert w.sessions[..n][i] == w.sessions[i];
    }
    forall k | 0 <= k < |w.trace| && w.trace[k].Committed?
      ensures w.trace[k].tx < |w.sessions| && w.sessions[w.trace[k].tx].kind == Main
    {
      if k < |w0.trace| {
        assert w.trace[..|w0.trace|][k] == w.trace[k];
      } else {
        assert Since(w0, w)[k - |w0.trace|] == w.trace[k];
        assert w.trace[k] == Committed(n);
      }
    }
  }

  /** The transactions of the BucketFS clients are never committed: in every state that a run can
      reach, what they wrote, the schema and the script for listing files, is not in the store. */
  lemma {:induction false} BucketFsNeverCommitted(env: Environment, w: World, requests: seq<Request>)
    requires Quiescent(w) && OnlyMainCommits(w)
    ensures OnlyMainCommits(TransactionController.ServeAll(env, w, requests).0)
    decreases |requests|
  {
    hide TransactionController.Serve, OnlyMainCommits, Quiescent;
    if requests != [] {
      ServeIsAtomic(env, w, requests[0]);
      ServeCommitsMain(env, w, requests[0]);
      BucketFsNeverCommitted(env, TransactionController.Serve(env, w, requests[0]).0, requests[1..]);
    }
  }
}
