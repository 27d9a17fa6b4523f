/** What each operation answers and commits, in terms of the callbacks it runs: which callback with
    which arguments, in which context, and what its run returned or threw. */
module Operations {
  import opened Text
  import opened Errors
  import opened ParameterValidator
  import opened Database
  import opened Transaction
  import opened Extensions
  import opened Controller
  import TransactionController
  import opened Isolation
  import opened Atomicity
  import opened Gates
  import opened Transcripts
  import Discovery

  // ----- Runs of callbacks -----

  /** The end of a callback that is called in a context. */
  function Ended<V>(env: Environment, c: Context, f: Function, callback: Callback<V>): (r: (Context, Move<V>))
    ensures !r.1.Do?
  {
    Run(env, Entered(c, f), callback.next, [], callback.limit)
  }

  function AnswersOf(exchanges: seq<Exchange>): seq<Answer> {
    seq(|exchanges|, k requires 0 <= k < |exchanges| => exchanges[k].answer)
  }

  /** The context after the actions were performed one after the other. */
  function Replay(env: Environment, c: Context, exchanges: seq<Exchange>): Context {
    if exchanges == [] then c
    else Perform(env, Replay(env, c, exchanges[..|exchanges| - 1]), exchanges[|exchanges| - 1].action).0
  }

  lemma {:induction false} ReplayFirst(env: Environment, c: Context, first: Exchange, rest: seq<Exchange>)
    ensures Replay(env, c, [first] + rest) == Replay(env, Perform(env, c, first.action).0, rest)
    decreases |rest|
  {
    hide Perform;
    var all := [first] + rest;
    if rest == [] {
      assert all[..0] == [] && all[0] == first;
    } else {
      var front := rest[..|rest| - 1];
      assert all[..|all| - 1] == [first] + front && all[|all| - 1] == rest[|rest| - 1];
      ReplayFirst(env, c, first, front);
    }
  }

  /** The k-th exchange is the action the callback demands after the answers before it, with the answer
      that performing it gives. */
  predicate Faithful<V>(env: Environment, c: Context, next: seq<Answer> -> Move<V>, answers: seq<Answer>,
                        exchanges: seq<Exchange>, k: nat)
    requires k < |exchanges|
  {
    && next(answers + AnswersOf(exchanges[..k])) == Do(exchanges[k].action)
    && exchanges[k].answer == Perform(env, Replay(env, c, exchanges[..k]), exchanges[k].action).1
  }

  lemma FaithfulFirst<V>(env: Environment, c: Context, next: seq<Answer> -> Move<V>, answers: seq<Answer>, rest: seq<Exchange>)
    requires next(answers).Do?
    ensures var action := next(answers).action;
            Faithful(env, c, next, answers, [Exchange(action, Perform(env, c, action).1)] + rest, 0)
  {
    hide Perform;
    assert answers + [] == answers;
  }

  lemma FaithfulBehind<V>(env: Environment, c: Context, next: seq<Answer> -> Move<V>, answers: seq<Answer>,
                         first: Exchange, rest: seq<Exchange>, k: nat)
    requires k < |rest| && first.answer == Perform(env, c, first.action).1
    requires Faithful(env, Perform(env, c, first.action).0, next, answers + [first.answer], rest, k)
    ensures Faithful(env, c, next, answers, [first] + rest, k + 1)
  {
    hide Perform;
    var all := [first] + rest;
    assert all[..k + 1] == [first] + rest[..k] && all[k + 1] == rest[k];
    ReplayFirst(env, c, first, rest[..k]);
    assert answers + AnswersOf(all[..k + 1]) == answers + [first.answer] + AnswersOf(rest[..k]);
  }

  /** A run performs exactly what the callback demands, gives it every answer, and ends with what the
      callback returns or throws, or interrupts it when its calls are used up. */
  lemma {:induction false} RunIsFaithful<V>(env: Environment, c: Context, next: seq<Answer> -> Move<V>, answers: seq<Answer>, limit: nat)
    ensures var exchanges := Transcript(env, c, next, answers, limit);
            var (end, move) := Run(env, c, next, answers, limit);
            var last := next(answers + AnswersOf(exchanges));
            && end == Replay(env, c, exchanges) && |exchanges| <= limit
            && (forall k | 0 <= k < |exchanges| :: Faithful(env, c, next, answers, exchanges, k))
            && (if last.Do? then |exchanges| == limit && move == Throw(GoPanic("interrupted")) else move == last)
    decreases limit
  {
    hide Perform, Faithful;
    var move := next(answers);
    if move.Do? && limit > 0 {
      var (c1, answer) := Perform(env, c, move.action);
      RunIsFaithful(env, c1, next, answers + [answer], limit - 1);
      var first, rest := Exchange(move.action, answer), Transcript(env, c1, next, answers + [answer], limit - 1);
      var exchanges := [first] + rest;
      ReplayFirst(env, c, first, rest);
      assert answers + AnswersOf(exchanges) == answers + [answer] + AnswersOf(rest);
      FaithfulFirst(env, c, next, answers, rest);
      forall k | 0 < k < |exchanges| ensures Faithful(env, c, next, answers, exchanges, k) {
        FaithfulBehind(env, c, next, answers, first, rest, k - 1);
      }
    } else {
      assert AnswersOf([]) == [] && answers + [] == answers;
    }
  }

  /** What a thrown value is turned into does not depend on what the function would have returned. */
  lemma ThrownConverts<A, B>(f: Function, id: string, detail: string, thrown: Thrown)
    ensures !ConvertThrown<A>(f, id, detail, thrown).Ok?
    ensures ConvertThrown<A>(f, id, detail, thrown).PropagateFailure<B>() == ConvertThrown<B>(f, id, detail, thrown)
  {
  }

  /** What the end of a callback means for an operation that wraps its value. */
  function Told<V>(f: Function, id: string, detail: string, move: Move<V>, wrap: V -> Value): Result<Value> {
    if move.Return? then Ok(wrap(move.value))
    else if move.Throw? then ConvertThrown(f, id, detail, move.thrown)
    else Panic
  }

  /** A wrapped call runs its callback, if the extension has it, in its own context. */
  lemma CallEnds<V>(env: Environment, c: Context, f: Function, id: string, detail: string, callback: Option<Callback<V>>, wrap: V -> Value)
    ensures var (c1, r) := Call(env, c, f, id, detail, callback);
            if callback.None? then c1 == c && r == Err(Plain(Unsupported(id, f)))
            else var (end, move) := Ended(env, c, f, callback.value);
                 && c1 == end && (r.Ok? <==> move.Return?) && (r.Ok? ==> r.value == move.value)
                 && r.Map(wrap) == Told(f, id, detail, move, wrap)
                 && (move.Throw? ==> r == ConvertThrown(f, id, detail, move.thrown))
  {
    hide Run, ConvertThrown;
    if callback.Some? {
      var move := Ended(env, c, f, callback.value).1;
      if move.Throw? {
        ThrownConverts<V, Value>(f, id, detail, move.thrown);
      }
    }
  }

  // ----- What the work of an operation yields -----

  type Request = TransactionController.Request
  type Value = TransactionController.Value

  /** What the work of an operation yields in a context. */
  function Yield(env: Environment, c: Context, request: Request): Result<Value> {
    TransactionController.Body(env, c, request).1
  }

  /** The failure of an operation whose extension cannot be loaded or does not offer the function. */
  function Unable(load: Result<JsExtension>, id: string, f: Function): Result<Value> {
    match load
    case Ok(ext) => Err(Plain(Unsupported(ext.id, f)))
    case Err(error) => Err(Wrapped(LoadingExtension(id), error))
    case Panic => Panic
  }

  /** The extension is told the version and the instance, in this order. */
  lemma DeleteYields(env: Environment, c: Context, load: Result<JsExtension>, id: string, version: string, instanceId: string)
    ensures var r := Yield(env, c, TransactionController.DeleteCall(load, id, version, instanceId));
            if load.Ok? && load.value.deleteInstance.Some? then
              var move := Ended(env, c, DeleteInstance, load.value.deleteInstance.value(version, instanceId)).1;
              r == Told(DeleteInstance, load.value.id, instanceId, move, _ => TransactionController.Nothing)
            else r == Unable(load, id, DeleteInstance)
  {
    hide Call, Ended, Told;
    if load.Ok? {
      var delete := load.value.deleteInstance;
      CallEnds(env, c, DeleteInstance, load.value.id, instanceId,
               if delete.Some? then Some(delete.value(version, instanceId)) else None, _ => TransactionController.Nothing);
    }
  }

  lemma UpgradeYields(env: Environment, c: Context, load: Result<JsExtension>, id: string)
    ensures var r := Yield(env, c, TransactionController.UpgradeCall(load, id));
            if load.Ok? && load.value.upgrade.Some? then
              var move := Ended(env, c, Upgrade, load.value.upgrade.value).1;
              r == Told(Upgrade, load.value.id, "", move, v => TransactionController.Upgraded(v))
            else r == Unable(load, id, Upgrade)
  {
    hide Call, Ended, Told;
    if load.Ok? {
      CallEnds(env, c, Upgrade, load.value.id, "", load.value.upgrade, v => TransactionController.Upgraded(v));
    }
  }

  lemma InstancesYield(env: Environment, c: Context, load: Result<JsExtension>, id: string, version: string)
    ensures var r := Yield(env, c, TransactionController.InstancesCall(load, id, version));
            if load.Ok? && load.value.findInstances.Some? then
              var move := Ended(env, c, FindInstances, load.value.findInstances.value(version, 0)).1;
              r == Told(FindInstances, load.value.id, version, move, v => TransactionController.InstanceList(v))
            else r == Unable(load, id, FindInstances)
  {
    hide Call, Ended, Told;
    if load.Ok? {
      var find := load.value.findInstances;
      CallEnds(env, c, FindInstances, load.value.id, version, if find.Some? then Some(find.value(version, 0)) else None,
               v => TransactionController.InstanceList(v));
    }
  }

  predicate IsText(value: Option<JsValue>) {
    value.Some? && value.value.JsString?
  }

  /** Every entry is an object with a string for its id and its name. */
  predicate Convertible(entries: seq<RawEntry>) {
    forall i | 0 <= i < |entries| :: entries[i].Definition? && IsText(entries[i].raw.id) && IsText(entries[i].raw.name)
  }

  /** One definition for every entry, in order, each with the entry's id, name and raw form. */
  predicate OneForOne(definitions: seq<ParameterDefinition>, entries: seq<RawEntry>) {
    && |definitions| == |entries|
    && forall i | 0 <= i < |entries| ::
         && entries[i] == Definition(definitions[i].raw)
         && definitions[i].raw.id == Some(JsString(definitions[i].id))
         && definitions[i].raw.name == Some(JsString(definitions[i].name))
  }

  lemma ConvertedOneForOne(entries: seq<RawEntry>)
    ensures Converted(entries).Ok? <==> Convertible(entries)
    ensures Converted(entries).Ok? ==> OneForOne(Converted(entries).value, entries)
    ensures !Converted(entries).Ok? ==> Converted(entries).Err? && Converted(entries).error.Plain? && Converted(entries).error.problem.BadDefinition?
  {
    ConversionNames(entries);
    hide Converted;
    ConversionIsComplete(entries);
  }

  lemma {:induction false} ConversionNames(entries: seq<RawEntry>)
    ensures Converted(entries).Err? ==> Converted(entries).error.Plain? && Converted(entries).error.problem.BadDefinition?
  {
    if entries != [] {
      ConversionNames(entries[1..]);
    }
  }

  /** The definitions the extension returned for the version, one for one. */
  lemma DefinitionsYield(env: Environment, c: Context, load: Result<JsExtension>, id: string, version: string)
    ensures var (c1, r) := ParameterDefinitions(env, c, load, id, version);
            if load.Ok? && load.value.getParameterDefinitions.Some? then
              var (end, move) := Ended(env, c, GetParameterDefinitions, load.value.getParameterDefinitions.value(version));
              && c1 == end
              && (r.Ok? <==> move.Return? && Convertible(move.value))
              && (r.Ok? ==> OneForOne(r.value, move.value))
              && (move.Throw? ==> r == ConvertThrown(GetParameterDefinitions, load.value.id, "", move.thrown))
              && (move.Return? && !Convertible(move.value) ==> r.Err? && r.error.Plain? && r.error.problem.BadDefinition?)
            else c1 == c && !r.Ok?
                 && Yield(env, c, TransactionController.DefinitionsCall(load, id, version)) == Unable(load, id, GetParameterDefinitions)
    ensures Yield(env, c, TransactionController.DefinitionsCall(load, id, version))
         == ParameterDefinitions(env, c, load, id, version).1.Map(v => TransactionController.DefinitionList(v))
  {
    hide Call, Ended, ConvertThrown, Converted, Convertible, OneForOne, Told;
    if load.Ok? {
      var definitions := load.value.getParameterDefinitions;
      CallEnds(env, c, GetParameterDefinitions, load.value.id, "",
               if definitions.Some? then Some(definitions.value(version)) else None, _ => TransactionController.Nothing);
      if definitions.Some? {
        var move := Ended(env, c, GetParameterDefinitions, definitions.value(version)).1;
        if move.Return? {
          ConvertedOneForOne(move.value);
        } else {
          ThrownConverts<seq<RawEntry>, seq<ParameterDefinition>>(GetParameterDefinitions, load.value.id, "", move.thrown);
        }
      }
    }
  }

  /** The context after the statement that creates the schema. */
  function SchemaDone(env: Environment, c: Context): Context {
    c.(world := Exec(env, c.world, c.main, SchemaStatement(env)).0)
  }

  lemma InstallYields(env: Environment, c: Context, load: Result<JsExtension>, id: string, version: string)
    ensures SchemaStatement(env) == "CREATE SCHEMA IF NOT EXISTS \"" + env.config.extensionSchema + "\""
    ensures var r := Yield(env, c, TransactionController.InstallCall(load, id, version));
            var schema := Exec(env, c.world, c.main, SchemaStatement(env)).1;
            if load.Ok? && schema.Err? then r == Err(Wrapped(CreatingSchema, schema.error))
            else if load.Ok? && load.value.install.Some? then
              var move := Ended(env, SchemaDone(env, c), Install, load.value.install.value(version)).1;
              r == Told(Install, load.value.id, "", move, _ => TransactionController.Nothing)
            else r == Unable(load, id, Install)
  {
    SchemaText(env);
    ExecNeverPanics(env, c.world, c.main, SchemaStatement(env));
    hide Call, Ended, Told, Exec, SchemaStatement;
    if load.Ok? {
      var install := load.value.install;
      CallEnds(env, SchemaDone(env, c), Install, load.value.id, "",
               if install.Some? then Some(install.value(version)) else None, _ => TransactionController.Nothing);
    }
  }

  lemma ExecNeverPanics(env: Environment, w: World, tx: nat, statement: string)
    ensures !Exec(env, w, tx, statement).1.Panic?
  {
  }

  lemma SchemaText(env: Environment)
    ensures SchemaStatement(env) == "CREATE SCHEMA IF NOT EXISTS \"" + env.config.extensionSchema + "\""
  {
  }

  /** What the create operation yields: an instance exactly if the schema was created, the definitions
      of the extension as loaded for reading them could be read, every value is acceptable, and the
      add function, called with version and values behind all that, returned one; the result is
      what it returned. */
  lemma CreateYields(env: Environment, c: Context, load: Result<JsExtension>, reload: Result<JsExtension>,
                     id: string, version: string, values: seq<ParameterValue>)
    ensures var r := Yield(env, c, TransactionController.CreateCall(load, reload, id, version, values));
            var c1 := SchemaDone(env, c);
            var (c2, definitions) := ParameterDefinitions(env, c1, reload, id, version);
            var schema := Exec(env, c.world, c.main, SchemaStatement(env)).1;
            if load.Ok? && schema.Err? then r == Err(Wrapped(CreatingSchema, schema.error))
            else if load.Ok? && !definitions.Ok? then
              if definitions.Err? then r == Err(Wrapped(GettingDefinitions, definitions.error)) else r == Panic
            else if load.Ok? && !AllAccepted(env.regex, definitions.value, values) then
              r.Err? && Refusal(env.regex, definitions.value, values) == Err(r.error)
            else if load.Ok? && load.value.addInstance.Some? then
              var move := Ended(env, c2, AddInstance, load.value.addInstance.value(version, values)).1;
              if move == Return(None) then r == Err(Plain(NoInstance(id)))
              else r == Told(AddInstance, load.value.id, "", move,
                             (v: Option<Instance>) => if v.Some? then TransactionController.Created(v.value) else TransactionController.Nothing)
            else r == Unable(load, id, AddInstance)
  {
    hide Call, Ended, Exec, SchemaStatement, ParameterDefinitions, Refusal, Evaluable, Accepted, ConvertThrown;
    ExecNeverPanics(env, c.world, c.main, SchemaStatement(env));
    var (c2, definitions) := ParameterDefinitions(env, SchemaDone(env, c), reload, id, version);
    if load.Ok? {
      var add := load.value.addInstance;
      CallEnds(env, c2, AddInstance, load.value.id, "", if add.Some? then Some(add.value(version, values)) else None,
               _ => TransactionController.Nothing);
      if definitions.Ok? {
        RefusalDecides(env.regex, definitions.value, values);
      }
      if add.Some? {
        var move := Ended(env, c2, AddInstance, add.value(version, values)).1;
        if move.Throw? {
          ThrownConverts<Option<Instance>, Instance>(AddInstance, load.value.id, "", move.thrown);
          ThrownConverts<Option<Instance>, Value>(AddInstance, load.value.id, "", move.thrown);
        }
      }
    }
  }

  /** The callback threw an exception with status 404. */
  predicate ThrewNotFound<V>(move: Move<V>) {
    move.Throw? && move.thrown.Exception? && move.thrown.status.Exportable? && move.thrown.status.status == 404
  }

  /** The two listings before an uninstall, and whether they show that no instance can be there. */
  function Listings(env: Environment, c: Context, ext: JsExtension, version: string): (Context, bool) {
    if ext.findInstances.None? then (c, true)
    else
      var (c1, probe) := Ended(env, c, FindInstances, ext.findInstances.value(version, 0));
      if ThrewNotFound(probe) then (c1, true)
      else if probe == Throw(NoObject) then (c1, false)
      else
        var (c2, instances) := Ended(env, c1, FindInstances, ext.findInstances.value(version, 1));
        (c2, instances == Return([]))
  }

  lemma ListEnds(env: Environment, c: Context, ext: JsExtension, version: string, nth: nat)
    requires ext.findInstances.Some?
    ensures var (c1, r) := ListInstances(env, c, ext, version, nth);
            var (end, move) := Ended(env, c, FindInstances, ext.findInstances.value(version, nth));
            && c1 == end
            && (r.Ok? <==> move.Return?) && (r.Ok? ==> r.value == move.value)
            && (r.Panic? <==> move == Throw(NoObject))
            && (r.Err? && StatusOf(r.error) == 404 <==> ThrewNotFound(move))
  {
    hide Call, Ended, Told, Describe, Explain;
    CallEnds(env, c, FindInstances, ext.id, version, Some(ext.findInstances.value(version, nth)), _ => TransactionController.Nothing);
    var move := Ended(env, c, FindInstances, ext.findInstances.value(version, nth)).1;
    if move.Throw? && move.thrown.Exception? && move.thrown.status.NotExportable? {
      WrappingKeepsStatus(ConvertingThrown(move.thrown.text), Plain(Other(move.thrown.status.reason)));
    }
  }

  lemma CheckYields(env: Environment, c: Context, ext: JsExtension, version: string)
    ensures var (c1, r) := VerifyNoInstances(env, c, ext, version);
            Listings(env, c, ext, version).1 <==> r.Ok?
    ensures var (c1, r) := VerifyNoInstances(env, c, ext, version);
            Listings(env, c, ext, version).0 == c1
  {
    hide ListInstances, Ended, ThrewNotFound, InstancesRemain, StatusOf;
    if ext.findInstances.Some? {
      ListEnds(env, c, ext, version, 0);
      ListEnds(env, ListInstances(env, c, ext, version, 0).0, ext, version, 1);
      assert NOT_FOUND == 404;
    }
    RemainingFails();
  }

  lemma RemainingFails()
    ensures forall instances: seq<Option<Instance>> :: !InstancesRemain(instances).Ok?
  {
  }

  /** Remaining instances are reported with their number and their names. */
  function Remaining(instances: seq<Option<Instance>>): Result<Value>
    requires None !in instances
  {
    Err(Wrapped(RefusingUninstall, Api(400,
      "cannot uninstall extension because " + Decimal(|instances|) + " instance(s) still exist: " + ConcatNames(instances), "", None)))
  }

  /** Why an uninstall is refused: a listing panicked, the second listing failed, a listed instance is
      null, or instances remain. */
  function UninstallRefusal(env: Environment, c: Context, ext: JsExtension, version: string): Result<Value>
    requires ext.findInstances.Some?
  {
    var (c1, probe) := Ended(env, c, FindInstances, ext.findInstances.value(version, 0));
    match Ended(env, c1, FindInstances, ext.findInstances.value(version, 1)).1
    case Return(instances) => if probe == Throw(NoObject) || None in instances then Panic else Remaining(instances)
    case Throw(thrown) =>
      var listing: Result<Value> := ConvertThrown(FindInstances, ext.id, version, thrown);
      if probe == Throw(NoObject) then Panic else listing.Wrap(CheckingInstances).Wrap(RefusingUninstall)
    case Do(_) => Panic
  }

  lemma CheckRefuses(env: Environment, c: Context, ext: JsExtension, version: string)
    requires ext.findInstances.Some? && !Listings(env, c, ext, version).1
    ensures !VerifyNoInstances(env, c, ext, version).1.Ok?
    ensures VerifyNoInstances(env, c, ext, version).1.Fail<Value>(RefusingUninstall) == UninstallRefusal(env, c, ext, version)
  {
    hide ListInstances, Ended, ConcatNames, Decimal, StatusOf, ConvertThrown, ThrewNotFound;
    ListEnds(env, c, ext, version, 0);
    var (c1, probe) := ListInstances(env, c, ext, version, 0);
    ListEnds(env, c1, ext, version, 1);
    ListThrows(env, c1, ext, version, 1);
    CheckYields(env, c, ext, version);
  }

  lemma ListThrows(env: Environment, c: Context, ext: JsExtension, version: string, nth: nat)
    requires ext.findInstances.Some?
    ensures var (c1, r) := ListInstances(env, c, ext, version, nth);
            var move := Ended(env, c, FindInstances, ext.findInstances.value(version, nth)).1;
            move.Throw? ==> !r.Ok? && r.PropagateFailure<Value>() == ConvertThrown<Value>(FindInstances, ext.id, version, move.thrown)
  {
    hide Call, Ended, Told, ConvertThrown;
    CallEnds(env, c, FindInstances, ext.id, version, Some(ext.findInstances.value(version, nth)), _ => TransactionController.Nothing);
    var move := Ended(env, c, FindInstances, ext.findInstances.value(version, nth)).1;
    if move.Throw? {
      ThrownConverts<seq<Option<Instance>>, Value>(FindInstances, ext.id, version, move.thrown);
    }
  }

  /** Uninstall is called with the version, behind the listings and only if they are clear. */
  lemma UninstallYields(env: Environment, c: Context, load: Result<JsExtension>, id: string, version: string)
    ensures var r := Yield(env, c, TransactionController.UninstallCall(load, id, version));
            if load.Ok? && !Listings(env, c, load.value, version).1 then
              load.value.findInstances.Some? && r == UninstallRefusal(env, c, load.value, version)
            else if load.Ok? && load.value.uninstall.Some? then
              var move := Ended(env, Listings(env, c, load.value, version).0, Uninstall, load.value.uninstall.value(version)).1;
              r == Told(Uninstall, load.value.id, "", move, _ => TransactionController.Nothing)
            else r == Unable(load, id, Uninstall)
  {
    if load.Ok? && load.value.findInstances.Some? && !Listings(env, c, load.value, version).1 {
      CheckRefuses(env, c, load.value, version);
    }
    ClearWithoutListing(env, c, load, version);
    hide Call, Ended, Told, VerifyNoInstances, Listings, UninstallRefusal;
    if load.Ok? {
      CheckYields(env, c, load.value, version);
      var uninstall := load.value.uninstall;
      CallEnds(env, VerifyNoInstances(env, c, load.value, version).0, Uninstall, load.value.id, "",
               if uninstall.Some? then Some(uninstall.value(version)) else None, _ => TransactionController.Nothing);
    }
  }

  lemma ClearWithoutListing(env: Environment, c: Context, load: Result<JsExtension>, version: string)
    ensures load.Ok? && load.value.findInstances.None? ==> Listings(env, c, load.value, version).1
  {
    hide Ended;
  }

  // ----- Whole operations -----

  /** The context in which the work of an operation starts. */
  function Opened(env: Environment, w: World): Context {
    var (w1, begun) := TransactionController.StartTransaction(env, w);
    Context(w1, if begun.Ok? then begun.value else 0, None)
  }

  /** A base path is configured and the driver begins the transaction. */
  predicate Begins(env: Environment, w: World) {
    env.config.bucketFsBasePath != "" && env.replies(w.clock).Done?
  }

  /** Beginning an operation adds one open, empty transaction and nothing else. */
  lemma BeginExact(env: Environment, w: World)
    ensures TransactionController.StartTransaction(env, w).1.Ok? <==> Begins(env, w)
    ensures Begins(env, w) ==>
              var n := |w.sessions|;
              Opened(env, w) == Context(World(w.committed, w.sessions + [Session(Main, true, true, [])],
                                              w.trace + [Begun(n, Main)], w.clock + 1), n, None)
  {
  }

  /** The answer of a call is what its work yields, unless the transaction could not be begun or a
      success could not be committed, which is a failure; while the driver works only the work decides. */
  lemma ServeYields(env: Environment, w: World, request: Request)
    requires Quiescent(w)
    ensures var r, yield_ := TransactionController.Serve(env, w, request).1, Yield(env, Opened(env, w), request);
            && (r.Ok? ==> Begins(env, w) && r == yield_)
            && (!Begins(env, w) ==> r.Err? && TransactionController.StartTransaction(env, w).1 == Err(r.error))
            && (Begins(env, w) && r != yield_ ==> r.Err?)
            && (Begins(env, w) && (!request.Mutating() || !yield_.Ok?) ==> r == yield_)
            && (Begins(env, w) && Discovery.DriverWorks(env, TransactionController.Body(env, Opened(env, w), request).0.world.clock) ==>
                  r == yield_)
  {
    hide TransactionController.Body, TransactionController.StartTransaction, Commit, Rollback, Quiescent;
    BeginExact(env, w);
    BegunInside(env, w);
    WorkingDriverCommits(env, w, request);
    CommitNeverPanics(env, TransactionController.Body(env, Opened(env, w), request).0);
  }

  lemma CommitNeverPanics(env: Environment, c: Context)
    ensures !Commit(env, c).1.Panic?
  {
  }

  /** A successful delete commits exactly what the delete function, called with version and instance,
      executed. */
  lemma DeleteCommits(env: Environment, w: World, load: Result<JsExtension>, id: string, version: string, instanceId: string)
    requires Quiescent(w)
    requires TransactionController.Serve(env, w, TransactionController.DeleteCall(load, id, version, instanceId)).1.Ok?
    ensures load.Ok? && load.value.deleteInstance.Some?
    ensures var callback := load.value.deleteInstance.value(version, instanceId);
            TransactionController.Serve(env, w, TransactionController.DeleteCall(load, id, version, instanceId)).0.committed
              == w.committed + Tagged(|w.sessions|, Written(env, CallTranscript(env, Opened(env, w), DeleteInstance, Some(callback))))
  {
    hide Inside, TransactionController.StartTransaction, Call, CallTranscript, Own, Tagged, TransactionController.Serve, Ended, Told;
    var request := TransactionController.DeleteCall(load, id, version, instanceId);
    var c := Opened(env, w);
    CommitsOwn(env, w, request);
    BegunInside(env, w);
    BeginOwn(env, w);
    DeleteYields(env, c, load, id, version, instanceId);
    var callback := load.value.deleteInstance.value(version, instanceId);
    CallWrites(env, w, c, DeleteInstance, load.value.id, instanceId, Some(callback));
    assert [] + Written(env, CallTranscript(env, c, DeleteInstance, Some(callback)))
        == Written(env, CallTranscript(env, c, DeleteInstance, Some(callback)));
  }

  /** A successful upgrade commits exactly what the upgrade function executed. */
  lemma UpgradeCommits(env: Environment, w: World, load: Result<JsExtension>, id: string)
    requires Quiescent(w)
    requires TransactionController.Serve(env, w, TransactionController.UpgradeCall(load, id)).1.Ok?
    ensures load.Ok? && load.value.upgrade.Some?
    ensures TransactionController.Serve(env, w, TransactionController.UpgradeCall(load, id)).0.committed
         == w.committed + Tagged(|w.sessions|, Written(env, CallTranscript(env, Opened(env, w), Upgrade, load.value.upgrade)))
  {
    hide Inside, TransactionController.StartTransaction, Call, CallTranscript, Own, Tagged, TransactionController.Serve, Ended, Told;
    var c := Opened(env, w);
    CommitsOwn(env, w, TransactionController.UpgradeCall(load, id));
    BegunInside(env, w);
    BeginOwn(env, w);
    UpgradeYields(env, c, load, id);
    CallWrites(env, w, c, Upgrade, load.value.id, "", load.value.upgrade);
    assert [] + Written(env, CallTranscript(env, c, Upgrade, load.value.upgrade))
        == Written(env, CallTranscript(env, c, Upgrade, load.value.upgrade));
  }

  /** The exchanges of the listings before an uninstall. */
  function ListingsTranscript(env: Environment, c: Context, ext: JsExtension, version: string): seq<Exchange> {
    if ext.findInstances.None? then []
    else
      var probe, again := ext.findInstances.value(version, 0), ext.findInstances.value(version, 1);
      var (c1, move) := Ended(env, c, FindInstances, probe);
      CallTranscript(env, c, FindInstances, Some(probe))
      + if ThrewNotFound(move) || move == Throw(NoObject) then [] else CallTranscript(env, c1, FindInstances, Some(again))
  }

  lemma {:induction false} WrittenConcat(env: Environment, first: seq<Exchange>, second: seq<Exchange>)
    ensures Written(env, first + second) == Written(env, first) + Written(env, second)
  {
    if first == [] {
      assert first + second == second;
    } else {
      assert (first + second)[1..] == first[1..] + second;
      WrittenConcat(env, first[1..], second);
    }
  }

  lemma ListWrites(env: Environment, w0: World, c: Context, ext: JsExtension, version: string, nth: nat)
    requires Inside(w0, c) && ext.findInstances.Some?
    ensures var c1 := ListInstances(env, c, ext, version, nth).0;
            && Own(c1) == Own(c) + Written(env, CallTranscript(env, c, FindInstances, Some(ext.findInstances.value(version, nth))))
            && Inside(w0, c1)
  {
    hide Inside, Call, CallTranscript, Own;
    CallWrites(env, w0, c, FindInstances, ext.id, version, Some(ext.findInstances.value(version, nth)));
    ListInside(env, w0, c, ext, version, nth);
  }

  lemma TwoListsWrite(env: Environment, w0: World, c: Context, ext: JsExtension, version: string)
    requires Inside(w0, c) && ext.findInstances.Some?
    ensures var probe, again := ext.findInstances.value(version, 0), ext.findInstances.value(version, 1);
            var c1 := ListInstances(env, c, ext, version, 0).0;
            Own(ListInstances(env, c1, ext, version, 1).0)
              == Own(c) + Written(env, CallTranscript(env, c, FindInstances, Some(probe)) + CallTranscript(env, c1, FindInstances, Some(again)))
  {
    hide Inside, ListInstances, CallTranscript, Own, Written;
    var probe, again := ext.findInstances.value(version, 0), ext.findInstances.value(version, 1);
    ListWrites(env, w0, c, ext, version, 0);
    var c1 := ListInstances(env, c, ext, version, 0).0;
    ListWrites(env, w0, c1, ext, version, 1);
    var first, second := CallTranscript(env, c, FindInstances, Some(probe)), CallTranscript(env, c1, FindInstances, Some(again));
    WrittenConcat(env, first, second);
    assert Own(c) + Written(env, first) + Written(env, second) == Own(c) + (Written(env, first) + Written(env, second));
  }

  lemma ListingsWrite(env: Environment, w0: World, c: Context, ext: JsExtension, version: string)
    requires Inside(w0, c)
    ensures Own(VerifyNoInstances(env, c, ext, version).0) == Own(c) + Written(env, ListingsTranscript(env, c, ext, version))
  {
    hide Inside, ListInstances, CallTranscript, Own, Ended, ThrewNotFound, StatusOf, InstancesRemain;
    if ext.findInstances.None? {
      assert Own(c) + [] == Own(c);
    } else {
      hide Written;
      ListEnds(env, c, ext, version, 0);
      ListWrites(env, w0, c, ext, version, 0);
      TwoListsWrite(env, w0, c, ext, version);
      var first := CallTranscript(env, c, FindInstances, Some(ext.findInstances.value(version, 0)));
      assert first + [] == first;
    }
  }

  /** A successful uninstall commits exactly what the listings and then the uninstall function, called
      with the version, executed. */
  lemma UninstallCommits(env: Environment, w: World, load: Result<JsExtension>, id: string, version: string)
    requires Quiescent(w)
    requires TransactionController.Serve(env, w, TransactionController.UninstallCall(load, id, version)).1.Ok?
    ensures load.Ok? && load.value.uninstall.Some?
    ensures var c := Opened(env, w);
            var c1 := Listings(env, c, load.value, version).0;
            TransactionController.Serve(env, w, TransactionController.UninstallCall(load, id, version)).0.committed
              == w.committed + Tagged(|w.sessions|, Written(env, ListingsTranscript(env, c, load.value, version))
                   + Written(env, CallTranscript(env, c1, Uninstall, Some(load.value.uninstall.value(version)))))
  {
    hide Inside, TransactionController.StartTransaction, Call, CallTranscript, Own, Tagged, TransactionController.Serve, Ended, Told,
         ListingsTranscript, VerifyNoInstances, Listings;
    var c := Opened(env, w);
    CommitsOwn(env, w, TransactionController.UninstallCall(load, id, version));
    BegunInside(env, w);
    BeginOwn(env, w);
    UninstallYields(env, c, load, id, version);
    CheckYields(env, c, load.value, version);
    ListingsWrite(env, w, c, load.value, version);
    VerifyInside(env, w, c, load.value, version);
    var c1 := VerifyNoInstances(env, c, load.value, version).0;
    CallWrites(env, w, c1, Uninstall, load.value.id, "", Some(load.value.uninstall.value(version)));
    assert [] + Written(env, ListingsTranscript(env, c, load.value, version)) == Written(env, ListingsTranscript(env, c, load.value, version));
  }

  lemma SchemaWrites(env: Environment, w0: World, c: Context)
    requires Inside(w0, c) && Exec(env, c.world, c.main, SchemaStatement(env)).1.Ok?
    ensures Inside(w0, SchemaDone(env, c)) && Own(SchemaDone(env, c)) == Own(c) + [SchemaStatement(env)]
  {
    hide Inside, Exec, SchemaStatement, Harmless, Own;
    SchemaInside(env, w0, c);
    MainStatementsHarmless(env, AllScripts);
    ExecOwn(env, w0, c, SchemaStatement(env));
  }

  lemma DefinitionsWrite(env: Environment, w0: World, c: Context, load: Result<JsExtension>, id: string, version: string)
    requires Inside(w0, c) && load.Ok? && load.value.getParameterDefinitions.Some?
    ensures var c1 := ParameterDefinitions(env, c, load, id, version).0;
            && Own(c1) == Own(c) + Written(env, CallTranscript(env, c, GetParameterDefinitions, Some(load.value.getParameterDefinitions.value(version))))
            && Inside(w0, c1)
  {
    hide Inside, Call, CallTranscript, Own, Converted;
    CallWrites(env, w0, c, GetParameterDefinitions, load.value.id, "", Some(load.value.getParameterDefinitions.value(version)));
    DefinitionsInside(env, w0, c, load, id, version);
  }

  /** A successful create commits the creation of the schema, what reading the definitions executed,
      and what the add function, called with version and values, executed. */
  lemma CreateCommits(env: Environment, w: World, load: Result<JsExtension>, reload: Result<JsExtension>,
                      id: string, version: string, values: seq<ParameterValue>)
    requires Quiescent(w)
    requires TransactionController.Serve(env, w, TransactionController.CreateCall(load, reload, id, version, values)).1.Ok?
    ensures load.Ok? && load.value.addInstance.Some? && reload.Ok? && reload.value.getParameterDefinitions.Some?
    ensures var c1 := SchemaDone(env, Opened(env, w));
            var read, add := reload.value.getParameterDefinitions.value(version), load.value.addInstance.value(version, values);
            var c2 := Ended(env, c1, GetParameterDefinitions, read).0;
            TransactionController.Serve(env, w, TransactionController.CreateCall(load, reload, id, version, values)).0.committed
              == w.committed + Tagged(|w.sessions|, [SchemaStatement(env)]
                   + Written(env, CallTranscript(env, c1, GetParameterDefinitions, Some(read)))
                   + Written(env, CallTranscript(env, c2, AddInstance, Some(add))))
  {
    hide Inside, TransactionController.StartTransaction, Call, CallTranscript, Own, Tagged, TransactionController.Serve, Ended, Told,
         Exec, SchemaStatement, ParameterDefinitions, Refusal, AllAccepted, Convertible, OneForOne;
    var c := Opened(env, w);
    var c1 := SchemaDone(env, c);
    CommitsOwn(env, w, TransactionController.CreateCall(load, reload, id, version, values));
    BegunInside(env, w);
    BeginOwn(env, w);
    CreateYields(env, c, load, reload, id, version, values);
    DefinitionsYield(env, c1, reload, id, version);
    SchemaWrites(env, w, c);
    DefinitionsWrite(env, w, c1, reload, id, version);
    var c2 := ParameterDefinitions(env, c1, reload, id, version).0;
    CallWrites(env, w, c2, AddInstance, load.value.id, "", Some(load.value.addInstance.value(version, values)));
    assert [] + [SchemaStatement(env)] == [SchemaStatement(env)];
  }
}
