/** What the operations do inside their transaction. */
module Controller {
  import opened Text
  import opened Errors
  import opened FileTree
  import opened Availability
  import opened ParameterValidator
  import opened Database
  import opened Transaction
  import opened Extensions

  // ----- Parameter definitions, install, upgrade, delete -----

  function ParameterDefinitions(env: Environment, c: Context, load: Result<JsExtension>, id: string, version: string)
    : (Context, Result<seq<ParameterDefinition>>)
  {
    if load.IsFailure() then (c, load.Fail(LoadingExtension(id)))
    else
      var ext := load.value;
      var callback := if ext.getParameterDefinitions.Some? then Some(ext.getParameterDefinitions.value(version)) else None;
      var (c1, raw) := Call(env, c, GetParameterDefinitions, ext.id, "", callback);
      (c1, if raw.IsFailure() then raw.PropagateFailure() else Converted(raw.value))
  }

  function SchemaStatement(env: Environment): string {
    "CREATE SCHEMA IF NOT EXISTS " + Quoted(env.config.extensionSchema)
  }

  function EnsureSchema(env: Environment, c: Context): (Context, Result<()>) {
    var (w, r) := Exec(env, c.world, c.main, SchemaStatement(env));
    (c.(world := w), if r.IsFailure() then r.Fail(CreatingSchema) else Ok(()))
  }

  function InstallExtension(env: Environment, c: Context, load: Result<JsExtension>, id: string, version: string)
    : (Context, Result<()>)
  {
    if load.IsFailure() then (c, load.Fail(LoadingExtension(id)))
    else
      var (c1, schema) := EnsureSchema(env, c);
      if schema.IsFailure() then (c1, schema)
      else
        var install := load.value.install;
        Call(env, c1, Install, load.value.id, "", if install.Some? then Some(install.value(version)) else None)
  }

  function UpgradeExtension(env: Environment, c: Context, load: Result<JsExtension>, id: string)
    : (Context, Result<Option<UpgradeResult>>)
  {
    if load.IsFailure() then (c, load.Fail(LoadingExtension(id)))
    else Call(env, c, Upgrade, load.value.id, "", load.value.upgrade)
  }

  function DeleteExtensionInstance(env: Environment, c: Context, load: Result<JsExtension>, id: string, version: string, instanceId: string)
    : (Context, Result<()>)
  {
    if load.IsFailure() then (c, load.Fail(LoadingExtension(id)))
    else
      var delete := load.value.deleteInstance;
      Call(env, c, DeleteInstance, load.value.id, instanceId,
           if delete.Some? then Some(delete.value(version, instanceId)) else None)
  }

  function FindExtensionInstances(env: Environment, c: Context, load: Result<JsExtension>, id: string, version: string)
    : (Context, Result<seq<Option<Instance>>>)
  {
    if load.IsFailure() then (c, load.Fail(LoadingExtension(id)))
    else ListInstances(env, c, load.value, version, 0)
  }

  // ----- Uninstall -----

  /** The names with separators between them; no separator is written before a first non-empty name. */
  function ConcatNames(instances: seq<Option<Instance>>): string
    requires None !in instances
  {
    if instances == [] then ""
    else
      var front := ConcatNames(instances[..|instances| - 1]);
      assert instances[|instances| - 1] in instances;
      front + (if front != "" then ", " else "") + instances[|instances| - 1].value.name
  }

  function Names(instances: seq<Option<Instance>>): seq<string>
    requires None !in instances
  {
    seq(|instances|, i requires 0 <= i < |instances| => assert instances[i] in instances; instances[i].value.name)
  }

  /** The names are listed with separators exactly if the first one is not empty; separators behind
      leading empty names are lost. */
  lemma {:induction false} ConcatIsJoin(instances: seq<Option<Instance>>)
    requires None !in instances
    ensures ConcatNames(instances) == Join(Names(instances), ", ") <==> |instances| <= 1 || Names(instances)[0] != ""
    ensures |instances| > 1 && Names(instances)[0] == "" ==> |ConcatNames(instances)| < |Join(Names(instances), ", ")|
    ensures instances != [] && Names(instances)[0] != "" ==> ConcatNames(instances) != ""
  {
    if instances != [] {
      var front := instances[..|instances| - 1];
      assert None !in front && instances[|instances| - 1] in instances;
      ConcatIsJoin(front);
      var last := instances[|instances| - 1].value.name;
      assert Names(instances) == Names(front) + [last];
      if front != [] {
        JoinAppend(Names(front), last, ", ");
      }
    }
  }

  /** The refusal of an uninstall; reading the name of a null instance panics. */
  function InstancesRemain(instances: seq<Option<Instance>>): Result<()> {
    if None in instances then Panic
    else Err(NewApiError(BAD_REQUEST, "cannot uninstall extension because " + Decimal(|instances|)
                                      + " instance(s) still exist: " + ConcatNames(instances)))
  }

  /** The first listing only finds out whether instances can be listed, the second one counts. */
  function VerifyNoInstances(env: Environment, c: Context, ext: JsExtension, version: string): (Context, Result<()>) {
    if ext.findInstances.None? then (c, Ok(()))
    else
      var (c1, probe) := ListInstances(env, c, ext, version, 0);
      if probe.Panic? then (c1, Panic)
      else if probe.Err? && StatusOf(probe.error) == NOT_FOUND then (c1, Ok(()))
      else
        var (c2, instances) := ListInstances(env, c1, ext, version, 1);
        (c2, if instances.IsFailure() then instances.Fail(CheckingInstances)
             else if |instances.value| > 0 then InstancesRemain(instances.value)
             else Ok(()))
  }

  function UninstallExtension(env: Environment, c: Context, load: Result<JsExtension>, id: string, version: string)
    : (Context, Result<()>)
  {
    if load.IsFailure() then (c, load.Fail(LoadingExtension(id)))
    else
      var ext := load.value;
      var (c1, verified) := VerifyNoInstances(env, c, ext, version);
      if verified.IsFailure() then (c1, verified.Fail(RefusingUninstall))
      else Call(env, c1, Uninstall, ext.id, "", if ext.uninstall.Some? then Some(ext.uninstall.value(version)) else None)
  }

  // ----- Create -----

  /** The extension is loaded a second time to read the definitions. */
  function DefinitionsForCreate(env: Environment, c: Context, reload: Result<JsExtension>, id: string, version: string)
    : (Context, Result<seq<ParameterDefinition>>)
  {
    var (c1, definitions) := ParameterDefinitions(env, c, reload, id, version);
    (c1, definitions.Wrap(GettingDefinitions))
  }

  function CreateExtensionInstance(env: Environment, c: Context, load: Result<JsExtension>, reload: Result<JsExtension>,
                                   id: string, version: string, values: seq<ParameterValue>)
    : (Context, Result<Instance>)
  {
    if load.IsFailure() then (c, load.Fail(LoadingExtension(id)))
    else
      var (c1, schema) := EnsureSchema(env, c);
      if schema.IsFailure() then (c1, schema.PropagateFailure())
      else
        var (c2, definitions) := DefinitionsForCreate(env, c1, reload, id, version);
        if definitions.IsFailure() then (c2, definitions.PropagateFailure())
        else
          var refusal := Refusal(env.regex, definitions.value, values);
          if refusal.IsFailure() then (c2, refusal.PropagateFailure())
          else
            var add := load.value.addInstance;
            var (c3, instance) := Call(env, c2, AddInstance, load.value.id, "",
                                       if add.Some? then Some(add.value(version, values)) else None);
            (c3, if instance.IsFailure() then instance.PropagateFailure()
                 else if instance.value.None? then Err(Plain(NoInstance(id)))
                 else Ok(instance.value.value))
  }

  // ----- Installations -----

  function ReadMetadata(env: Environment, c: Context): (Context, Result<()>) {
    var (w1, r1) := Exec(env, c.world, c.main, MetadataStatement(env, AllScripts));
    if r1.IsFailure() then (c.(world := w1), r1.Wrap(ReadingTable("EXA_ALL_SCRIPTS")).Fail(ReadingMetadata))
    else
      var (w2, r2) := Exec(env, w1, c.main, MetadataStatement(env, AllVirtualSchemas));
      (c.(world := w2),
       if r2.IsFailure() then r2.Wrap(ReadingTable("EXA_ALL_VIRTUAL_SCHEMAS")).Fail(ReadingMetadata) else Ok(()))
  }

  /** The installations with the extension's id in place of their own. */
  function WithId(id: string, installations: seq<Option<Installation>>): seq<Installation>
    requires None !in installations
  {
    seq(|installations|, i requires 0 <= i < |installations| =>
      assert installations[i] in installations;
      installations[i].value.(id := id))
  }

  /** Collects the installations of the extensions behind those found so far. */
  function Collect(env: Environment, c: Context, extensions: seq<JsExtension>, found: seq<Installation>)
    : (Context, Result<seq<Installation>>)
    decreases |extensions|
  {
    if extensions == [] then (c, Ok(found))
    else
      var ext := extensions[0];
      var (c1, r) := Call(env, c, FindInstallations, ext.id, "", ext.findInstallations);
      if r.Err? then
        (c1, Err(NewApiErrorWithCause("failed to find installations for extension " + Quoted(ext.name), r.error)))
      else if r.Panic? || None in r.value then (c1, Panic)
      else Collect(env, c1, extensions[1..], found + WithId(ext.id, r.value))
  }

  function AllInstallations(env: Environment, c: Context, loaded: Result<seq<JsExtension>>)
    : (Context, Result<seq<Installation>>)
  {
    var (c1, metadata) := ReadMetadata(env, c);
    if metadata.IsFailure() then (c1, metadata.PropagateFailure())
    else if loaded.IsFailure() then (c1, loaded.PropagateFailure())
    else Collect(env, c1, loaded.value, [])
  }

  // ----- Available extensions -----

  datatype Extension = Extension(id: string, name: string, category: string, description: string, versions: seq<Version>)

  function ConvertExtension(ext: JsExtension): Extension {
    Extension(ext.id, ext.name, ext.category, ext.description, ext.versions)
  }

  /** The extensions whose required files are all there, in their order. */
  function Shown(extensions: seq<JsExtension>, files: set<BfsFile>): seq<Extension> {
    if extensions == [] then []
    else
      (if Available(extensions[0].uploads, files) then [ConvertExtension(extensions[0])] else [])
      + Shown(extensions[1..], files)
  }

  // ----- The same on objects -----

  method GetDefinitions(tx: TransactionContext, load: Result<JsExtension>, id: string, version: string)
    returns (r: Result<seq<ParameterDefinition>>)
    modifies tx, tx.db
    ensures (tx.State(), r) == ParameterDefinitions(tx.db.env, old(tx.State()), load, id, version)
  {
    hide Call;
    if load.IsFailure() {
      return load.Fail(LoadingExtension(id));
    }
    var definitions := load.value.getParameterDefinitions;
    var raw := CallExtension(tx, GetParameterDefinitions, load.value.id, "",
                             if definitions.Some? then Some(definitions.value(version)) else None);
    if raw.IsFailure() {
      return raw.PropagateFailure();
    }
    r := ConvertDefinitions(raw.value);
  }

  method EnsureSchemaExists(tx: TransactionContext) returns (r: Result<()>)
    modifies tx.db
    ensures (tx.State(), r) == EnsureSchema(tx.db.env, old(tx.State()))
  {
    hide Exec;
    var created := tx.db.ExecTx(tx.transaction, SchemaStatement(tx.db.env));
    if created.IsFailure() {
      return created.Fail(CreatingSchema);
    }
    return Ok(());
  }

  method DoInstall(tx: TransactionContext, load: Result<JsExtension>, id: string, version: string) returns (r: Result<()>)
    modifies tx, tx.db
    ensures (tx.State(), r) == InstallExtension(tx.db.env, old(tx.State()), load, id, version)
  {
    hide Call, EnsureSchema;
    if load.IsFailure() {
      return load.Fail(LoadingExtension(id));
    }
    r := EnsureSchemaExists(tx);
    if r.IsFailure() {
      return r;
    }
    var install := load.value.install;
    r := CallExtension(tx, Install, load.value.id, "", if install.Some? then Some(install.value(version)) else None);
  }

  method DoUpgrade(tx: TransactionContext, load: Result<JsExtension>, id: string) returns (r: Result<Option<UpgradeResult>>)
    modifies tx, tx.db
    ensures (tx.State(), r) == UpgradeExtension(tx.db.env, old(tx.State()), load, id)
  {
    hide Call;
    if load.IsFailure() {
      return load.Fail(LoadingExtension(id));
    }
    r := CallExtension(tx, Upgrade, load.value.id, "", load.value.upgrade);
  }

  method DoDelete(tx: TransactionContext, load: Result<JsExtension>, id: string, version: string, instanceId: string)
    returns (r: Result<()>)
    modifies tx, tx.db
    ensures (tx.State(), r) == DeleteExtensionInstance(tx.db.env, old(tx.State()), load, id, version, instanceId)
  {
    hide Call;
    if load.IsFailure() {
      return load.Fail(LoadingExtension(id));
    }
    var delete := load.value.deleteInstance;
    r := CallExtension(tx, DeleteInstance, load.value.id, instanceId,
                       if delete.Some? then Some(delete.value(version, instanceId)) else None);
  }

  method DoList(tx: TransactionContext, ext: JsExtension, version: string, nth: nat) returns (r: Result<seq<Option<Instance>>>)
    modifies tx, tx.db
    ensures (tx.State(), r) == ListInstances(tx.db.env, old(tx.State()), ext, version, nth)
  {
    hide Call;
    r := CallExtension(tx, FindInstances, ext.id, version,
                       if ext.findInstances.Some? then Some(ext.findInstances.value(version, nth)) else None);
  }

  method DoFind(tx: TransactionContext, load: Result<JsExtension>, id: string, version: string)
    returns (r: Result<seq<Option<Instance>>>)
    modifies tx, tx.db
    ensures (tx.State(), r) == FindExtensionInstances(tx.db.env, old(tx.State()), load, id, version)
  {
    hide ListInstances;
    if load.IsFailure() {
      return load.Fail(LoadingExtension(id));
    }
    r := DoList(tx, load.value, version, 0);
  }

  method ConcatInstanceNames(instances: seq<Option<Instance>>) returns (names: string)
    requires None !in instances
    ensures names == ConcatNames(instances)
  {
    names := "";
    for i := 0 to |instances|
      invariant None !in instances[..i] && names == ConcatNames(instances[..i])
    {
      assert instances[..i + 1] == instances[..i] + [instances[i]] && instances[i] in instances;
      assert instances[..i + 1][..i] == instances[..i];
      if names != "" {
        names := names + ", ";
      }
      names := names + instances[i].value.name;
    }
    assert instances[..|instances|] == instances;
  }

  method CheckNoInstances(tx: TransactionContext, ext: JsExtension, version: string) returns (r: Result<()>)
    modifies tx, tx.db
    ensures (tx.State(), r) == VerifyNoInstances(tx.db.env, old(tx.State()), ext, version)
  {
    hide ListInstances, ConcatNames;
    if ext.findInstances.None? {
      return Ok(());
    }
    var probe := DoList(tx, ext, version, 0);
    if probe.Panic? {
      return Panic;
    }
    if probe.Err? && StatusOf(probe.error) == NOT_FOUND {
      return Ok(());
    }
    var instances := DoList(tx, ext, version, 1);
    if instances.IsFailure() {
      return instances.Fail(CheckingInstances);
    }
    if |instances.value| > 0 {
      if None in instances.value {
        return Panic;
      }
      var names := ConcatInstanceNames(instances.value);
      return Err(NewApiError(BAD_REQUEST, "cannot uninstall extension because " + Decimal(|instances.value|)
                                          + " instance(s) still exist: " + names));
    }
    return Ok(());
  }

  method DoUninstall(tx: TransactionContext, load: Result<JsExtension>, id: string, version: string) returns (r: Result<()>)
    modifies tx, tx.db
    ensures (tx.State(), r) == UninstallExtension(tx.db.env, old(tx.State()), load, id, version)
  {
    hide Call, VerifyNoInstances;
    if load.IsFailure() {
      return load.Fail(LoadingExtension(id));
    }
    var uninstall := load.value.uninstall;
    var verified := CheckNoInstances(tx, load.value, version);
    if verified.IsFailure() {
      return verified.Fail(RefusingUninstall);
    }
    r := CallExtension(tx, Uninstall, load.value.id, "",
                       if uninstall.Some? then Some(uninstall.value(version)) else None);
  }

  method DoCreate(tx: TransactionContext, load: Result<JsExtension>, reload: Result<JsExtension>,
                  id: string, version: string, values: seq<ParameterValue>)
    returns (r: Result<Instance>)
    modifies tx, tx.db
    ensures (tx.State(), r) == CreateExtensionInstance(tx.db.env, old(tx.State()), load, reload, id, version, values)
  {
    hide Call, EnsureSchema, ParameterDefinitions, Refusal;
    if load.IsFailure() {
      return load.Fail(LoadingExtension(id));
    }
    var schema := EnsureSchemaExists(tx);
    if schema.IsFailure() {
      return schema.PropagateFailure();
    }
    var definitions := GetDefinitions(tx, reload, id, version);
    definitions := definitions.Wrap(GettingDefinitions);
    if definitions.IsFailure() {
      return definitions.PropagateFailure();
    }
    var refusal := CheckParameters(tx.db.env.regex, definitions.value, values);
    if refusal.IsFailure() {
      return refusal.PropagateFailure();
    }
    var add := load.value.addInstance;
    var instance := CallExtension(tx, AddInstance, load.value.id, "",
                                  if add.Some? then Some(add.value(version, values)) else None);
    if instance.IsFailure() {
      return instance.PropagateFailure();
    }
    if instance.value.None? {
      return Err(Plain(NoInstance(id)));
    }
    return Ok(instance.value.value);
  }

  /** An installation as the program holds it. */
  class InstallationObject {
    var id: string
    var name: string
    var version: string

    constructor (value: Installation)
      ensures Value() == value
    {
      id, name, version := value.id, value.name, value.version;
    }

    function Value(): Installation
      reads this
    {
      Installation(id, name, version)
    }
  }

  /** The objects are all different and hold the given values. */
  ghost predicate Hold(objects: seq<InstallationObject>, values: seq<Installation>)
    reads objects
  {
    && |objects| == |values|
    && (forall i | 0 <= i < |objects| :: objects[i].Value() == values[i])
    && (forall i, j | 0 <= i < j < |objects| :: objects[i] != objects[j])
  }

  /** A new object for every value the extension returned. */
  method Export(values: seq<Option<Installation>>) returns (objects: seq<InstallationObject>)
    requires None !in values
    ensures |objects| == |values| && forall i | 0 <= i < |objects| :: fresh(objects[i])
    ensures forall i | 0 <= i < |objects| :: values[i].Some? && objects[i].Value() == values[i].value
    ensures forall i, j | 0 <= i < j < |objects| :: objects[i] != objects[j]
  {
    objects := [];
    for k := 0 to |values|
      invariant |objects| == k && forall i | 0 <= i < k :: fresh(objects[i])
      invariant forall i | 0 <= i < k :: values[i].Some? && objects[i].Value() == values[i].value
      invariant forall i, j | 0 <= i < j < k :: objects[i] != objects[j]
    {
      assert values[k] in values;
      var object_ := new InstallationObject(values[k].value);
      objects := objects + [object_];
    }
  }

  /** Writes the id into every object; the same object may occur more than once. */
  method AddExtensionId(id: string, objects: seq<InstallationObject>)
    modifies objects
    ensures forall o | o in objects :: o.id == id && o.name == old(o.name) && o.version == old(o.version)
  {
    for k := 0 to |objects|
      invariant forall i | 0 <= i < k :: objects[i].id == id
      invariant forall o | o in objects :: o.name == old(o.name) && o.version == old(o.version)
    {
      objects[k].id := id;
    }
  }

  method FindTagged(tx: TransactionContext, ext: JsExtension) returns (r: Result<seq<InstallationObject>>)
    modifies tx, tx.db
    ensures var (c1, found) := Call(tx.db.env, old(tx.State()), FindInstallations, ext.id, "", ext.findInstallations);
            && tx.State() == c1
            && (found.Err? ==>
                  r == Err(NewApiErrorWithCause("failed to find installations for extension " + Quoted(ext.name), found.error)))
            && (found.Panic? || (found.Ok? && None in found.value) ==> r.Panic?)
            && (found.Ok? && None !in found.value ==> r.Ok? && Hold(r.value, WithId(ext.id, found.value)))
    ensures r.Ok? ==> forall i | 0 <= i < |r.value| :: fresh(r.value[i])
  {
    hide Call;
    var found := CallExtension(tx, FindInstallations, ext.id, "", ext.findInstallations);
    if found.Err? {
      return Err(NewApiErrorWithCause("failed to find installations for extension " + Quoted(ext.name), found.error));
    }
    if found.Panic? || None in found.value {
      return Panic;
    }
    var objects := Export(found.value);
    AddExtensionId(ext.id, objects);
    return Ok(objects);
  }

  lemma HoldConcat(first: seq<InstallationObject>, values: seq<Installation>, second: seq<InstallationObject>, more: seq<Installation>)
    requires Hold(first, values) && Hold(second, more)
    requires forall i, j | 0 <= i < |first| && 0 <= j < |second| :: first[i] != second[j]
    ensures Hold(first + second, values + more)
  {
  }

  method GetAllInstallations(tx: TransactionContext, loaded: Result<seq<JsExtension>>)
    returns (r: Result<seq<InstallationObject>>)
    modifies tx, tx.db
    ensures var (c1, values) := AllInstallations(tx.db.env, old(tx.State()), loaded);
            && tx.State() == c1
            && (values.Ok? ==> r.Ok? && Hold(r.value, values.value))
            && (values.Err? ==> r == Err(values.error))
            && (values.Panic? ==> r.Panic?)
    ensures r.Ok? ==> forall i | 0 <= i < |r.value| :: fresh(r.value[i])
  {
    hide Call, ReadMetadata, WithId, NewApiErrorWithCause, Quoted;
    var metadata := ReadMetadataTables(tx);
    if metadata.IsFailure() {
      return metadata.PropagateFailure();
    }
    if loaded.IsFailure() {
      return loaded.PropagateFailure();
    }
    var extensions := loaded.value;
    var all: seq<InstallationObject> := [];
    ghost var found: seq<Installation> := [];
    ghost var start := tx.State();
    assert extensions[0..] == extensions;
    for i := 0 to |extensions|
      invariant Hold(all, found) && forall k | 0 <= k < |all| :: fresh(all[k])
      invariant Collect(tx.db.env, start, extensions, []) == Collect(tx.db.env, tx.State(), extensions[i..], found)
    {
      assert extensions[i..][1..] == extensions[i + 1..];
      ghost var ext, before := extensions[i], tx.State();
      ghost var (after, answer) := Call(tx.db.env, before, FindInstallations, ext.id, "", ext.findInstallations);
      ghost var rest := Collect(tx.db.env, before, extensions[i..], found);
      var tagged := FindTagged(tx, extensions[i]);
      if tagged.IsFailure() {
        assert tx.State() == rest.0;
        return tagged;
      }
      HoldConcat(all, found, tagged.value, WithId(ext.id, answer.value));
      found := found + WithId(ext.id, answer.value);
      all := all + tagged.value;
    }
    assert extensions[|extensions|..] == [];
    return Ok(all);
  }

  method ReadMetadataTables(tx: TransactionContext) returns (r: Result<()>)
    modifies tx.db
    ensures (tx.State(), r) == ReadMetadata(tx.db.env, old(tx.State()))
  {
    hide Exec;
    var scripts := tx.db.ExecTx(tx.transaction, MetadataStatement(tx.db.env, AllScripts));
    if scripts.IsFailure() {
      return scripts.Wrap(ReadingTable("EXA_ALL_SCRIPTS")).Fail(ReadingMetadata);
    }
    var schemas := tx.db.ExecTx(tx.transaction, MetadataStatement(tx.db.env, AllVirtualSchemas));
    if schemas.IsFailure() {
      return schemas.Wrap(ReadingTable("EXA_ALL_VIRTUAL_SCHEMAS")).Fail(ReadingMetadata);
    }
    return Ok(());
  }

  method GetAllExtensions(loaded: Result<seq<JsExtension>>, files: seq<BfsFile>) returns (r: Result<seq<Extension>>)
    ensures r == if loaded.Ok? then Ok(Shown(loaded.value, AsSet(files))) else loaded.PropagateFailure()
  {
    if loaded.IsFailure() {
      return loaded.PropagateFailure();
    }
    var extensions := [];
    assert loaded.value[0..] == loaded.value;
    for i := 0 to |loaded.value|
      invariant Shown(loaded.value, AsSet(files)) == extensions + Shown(loaded.value[i..], AsSet(files))
    {
      assert loaded.value[i..][1..] == loaded.value[i + 1..];
      var available := RequiredFilesAvailable(loaded.value[i].uploads, files);
      if available {
        extensions := extensions + [ConvertExtension(loaded.value[i])];
      }
    }
    assert loaded.value[|loaded.value|..] == [] && extensions + [] == extensions;
    return Ok(extensions);
  }
}
