/** Loading extensions: the registry's cached index, the content behind it, and the script engine. */
module Loading {
  import opened Text
  import opened Errors
  import opened Registry
  import opened Extensions

  /** What running an extension's script yields. */
  type ScriptEngine = string -> Result<JsExtension>

  /** A loaded extension carries the id it was loaded under. */
  function Scripted(engine: ScriptEngine, id: string, content: Result<Registry.Answer>): Result<JsExtension> {
    if content.IsFailure() then content.PropagateFailure()
    else if content.value.Content? then engine(content.value.content).Map((ext: JsExtension) => ext.(id := id))
    else Panic
  }

  function LoadById(cache: Option<RegistryIndex>, web: Web, engine: ScriptEngine, id: string)
    : (Option<RegistryIndex>, Result<JsExtension>)
  {
    var (cache', content) := Visited(cache, web, ReadExtension(id));
    (cache', Scripted(engine, id, content))
  }

  /** Loads the extensions with these ids; web(k) is what the web answers during request number k. */
  function LoadIds(cache: Option<RegistryIndex>, web: nat -> Web, engine: ScriptEngine, ids: seq<string>, k: nat)
    : (Option<RegistryIndex>, Result<seq<JsExtension>>)
    decreases |ids|
  {
    if ids == [] then (cache, Ok([]))
    else
      var (cache1, first) := LoadById(cache, web(k), engine, ids[0]);
      if first.IsFailure() then (cache1, first.Fail(LoadingExtension(ids[0])))
      else
        var (cache2, rest) := LoadIds(cache1, web, engine, ids[1..], k + 1);
        (cache2, if rest.IsFailure() then rest else Ok([first.value] + rest.value))
  }

  /** Loads every registered extension. */
  function LoadAll(cache: Option<RegistryIndex>, web: nat -> Web, engine: ScriptEngine)
    : (Option<RegistryIndex>, Result<seq<JsExtension>>)
  {
    var (cache1, index) := GetIndexStep(cache, web(0));
    if index.IsFailure() then (cache1, index.PropagateFailure())
    else LoadIds(cache1, web, engine, IdsOf(index.value), 1)
  }

  method LoadExtensionById(registry: HttpRegistry, web: Web, engine: ScriptEngine, id: string) returns (r: Result<JsExtension>)
    modifies registry
    ensures (registry.index, r) == LoadById(old(registry.index), web, engine, id)
  {
    hide Visited;
    var content := registry.Read(web, id);
    if content.IsFailure() {
      return content.PropagateFailure();
    }
    var ext := engine(content.value);
    if ext.IsFailure() {
      return ext;
    }
    return Ok(ext.value.(id := id));
  }

  method GetAllExtensions(registry: HttpRegistry, web: nat -> Web, engine: ScriptEngine) returns (r: Result<seq<JsExtension>>)
    modifies registry
    ensures (registry.index, r) == LoadAll(old(registry.index), web, engine)
  {
    hide LoadById;
    var listed := registry.FindAll(web(0));
    if listed.IsFailure() {
      return listed.PropagateFailure();
    }
    var ids, extensions := listed.value, [];
    ghost var start := registry.index;
    ghost var all := LoadIds(start, web, engine, ids, 1);
    assert ids[0..] == ids && (all.1.Ok? ==> [] + all.1.value == all.1.value);
    for i := 0 to |ids|
      invariant var (cache, rest) := LoadIds(registry.index, web, engine, ids[i..], 1 + i);
                LoadIds(start, web, engine, ids, 1) == (cache, if rest.IsFailure() then rest else Ok(extensions + rest.value))
    {
      assert ids[i..][1..] == ids[i + 1..];
      ghost var rest := LoadIds(LoadById(registry.index, web(1 + i), engine, ids[i]).0, web, engine, ids[i + 1..], 2 + i).1;
      var ext := LoadExtensionById(registry, web(1 + i), engine, ids[i]);
      if ext.IsFailure() {
        return ext.Fail(LoadingExtension(ids[i]));
      }
      if rest.Ok? {
        assert extensions + ([ext.value] + rest.value) == extensions + [ext.value] + rest.value;
      }
      extensions := extensions + [ext.value];
    }
    assert ids[|ids|..] == [] && extensions + [] == extensions;
    return Ok(extensions);
  }

  /** What the web and the engine make of an entry of the index. */
  function Delivered(index: RegistryIndex, web: Web, engine: ScriptEngine, id: string): Result<JsExtension> {
    match Lookup(index, id)
    case None => Err(NotFoundError(id))
    case Some(entry) =>
      var content := web.content(entry.url);
      if content.IsFailure() then content.Fail(LoadingExtension(id))
      else engine(content.value).Map((ext: JsExtension) => ext.(id := id))
  }

  /** Loading one extension: from the cached index or, without one, from the index loaded now, which is
      then kept. */
  lemma LoadByIdDelivers(cache: Option<RegistryIndex>, web: Web, engine: ScriptEngine, id: string)
    ensures var index := if cache.Some? then Ok(cache.value) else web.index;
            LoadById(cache, web, engine, id) ==
              if index.Ok? then (Some(index.value), Delivered(index.value, web, engine, id))
              else (None, index.PropagateFailure())
  {
  }

  /** An extension is delivered exactly if the first entry with the id has content that is a working
      script, and then it is what the script yields under the id it was asked for. */
  lemma DeliveredIsFirst(index: RegistryIndex, web: Web, engine: ScriptEngine, k: nat)
    requires k < |index| && forall i | 0 <= i < k :: index[i].id != index[k].id
    ensures var content, r := web.content(index[k].url), Delivered(index, web, engine, index[k].id);
            && (r.Ok? <==> content.Ok? && engine(content.value).Ok?)
            && (r.Ok? ==> r.value == engine(content.value).value.(id := index[k].id))
  {
    FirstEntry(index, k);
  }

  lemma LoadFromCache(index: RegistryIndex, web: Web, engine: ScriptEngine, id: string)
    ensures LoadById(Some(index), web, engine, id) == (Some(index), Delivered(index, web, engine, id))
  {
  }

  lemma {:induction false} LoadIdsFromCache(index: RegistryIndex, web: nat -> Web, engine: ScriptEngine, ids: seq<string>, k: nat)
    requires forall i | 0 <= i < |ids| :: ids[i] in IdsOf(index)
    ensures LoadIds(Some(index), web, engine, ids, k).0 == Some(index)
    ensures var r := LoadIds(Some(index), web, engine, ids, k).1;
            && (r.Ok? <==> forall i | 0 <= i < |ids| :: Delivered(index, web(k + i), engine, ids[i]).Ok?)
            && (r.Ok? ==> |r.value| == |ids| && forall i | 0 <= i < |ids| :: Ok(r.value[i]) == Delivered(index, web(k + i), engine, ids[i]))
    decreases |ids|
  {
    hide LoadById, Delivered, IdsOf;
    if ids != [] {
      LoadFromCache(index, web(k), engine, ids[0]);
      assert web(k) == web(k + 0);
      LoadIdsFromCache(index, web, engine, ids[1..], k + 1);
      assert forall i | 0 <= i < |ids[1..]| :: ids[1..][i] == ids[i + 1] && k + 1 + i == k + (i + 1);
      assert forall i | 0 < i < |ids| :: ids[i] == ids[1..][i - 1];
      var r := LoadIds(Some(index), web, engine, ids, k).1;
      if forall i | 0 <= i < |ids| :: Delivered(index, web(k + i), engine, ids[i]).Ok? {
        forall i | 0 <= i < |ids[1..]| ensures Delivered(index, web(k + 1 + i), engine, ids[1..][i]).Ok? {
          assert Delivered(index, web(k + (i + 1)), engine, ids[i + 1]).Ok?;
        }
      }
      if r.Ok? {
        forall i | 0 <= i < |ids| ensures Ok(r.value[i]) == Delivered(index, web(k + i), engine, ids[i]) {
          if i > 0 {
            assert Ok(r.value[i]) == Delivered(index, web(k + 1 + (i - 1)), engine, ids[1..][i - 1]);
          }
        }
      }
    }
  }

  /** The first extension that cannot be loaded ends the loading with its error. */
  lemma {:induction false} FirstFailureReported(index: RegistryIndex, web: nat -> Web, engine: ScriptEngine, ids: seq<string>, k: nat, n: nat)
    requires n < |ids| && !Delivered(index, web(k + n), engine, ids[n]).Ok?
    requires forall i | 0 <= i < n :: Delivered(index, web(k + i), engine, ids[i]).Ok?
    ensures LoadIds(Some(index), web, engine, ids, k).1 == Delivered(index, web(k + n), engine, ids[n]).Fail(LoadingExtension(ids[n]))
    decreases |ids|
  {
    hide LoadById, Delivered;
    LoadFromCache(index, web(k), engine, ids[0]);
    if n > 0 {
      assert Delivered(index, web(k + 0), engine, ids[0]).Ok?;
      assert forall i | 0 <= i < n - 1 :: ids[1..][i] == ids[i + 1] && k + 1 + i == k + (i + 1);
      assert k + 1 + (n - 1) == k + n;
      FirstFailureReported(index, web, engine, ids[1..], k + 1, n - 1);
    }
  }

  lemma DeliveredId(index: RegistryIndex, web: Web, engine: ScriptEngine, id: string)
    ensures Delivered(index, web, engine, id).Ok? ==> Delivered(index, web, engine, id).value.id == id
  {
  }

  /** The extensions are those of the entries, in order, each as delivered at its own request. */
  ghost predicate InRegistryOrder(index: RegistryIndex, web: nat -> Web, engine: ScriptEngine, extensions: seq<JsExtension>) {
    && |extensions| == |index|
    && forall i | 0 <= i < |index| ::
         extensions[i].id == index[i].id && Delivered(index, web(1 + i), engine, index[i].id) == Ok(extensions[i])
  }

  ghost predicate AllDelivered(index: RegistryIndex, web: nat -> Web, engine: ScriptEngine) {
    forall i | 0 <= i < |index| :: Delivered(index, web(1 + i), engine, index[i].id).Ok?
  }

  lemma IdsInOrder(index: RegistryIndex)
    ensures var ids := IdsOf(index);
            |ids| == |index| && forall i | 0 <= i < |ids| :: ids[i] == index[i].id && ids[i] in ids
  {
  }

  lemma LoadsInOrder(index: RegistryIndex, web: nat -> Web, engine: ScriptEngine)
    ensures var (cache, r) := LoadIds(Some(index), web, engine, IdsOf(index), 1);
            && cache == Some(index)
            && (r.Ok? <==> AllDelivered(index, web, engine))
            && (r.Ok? ==> InRegistryOrder(index, web, engine, r.value))
  {
    hide Delivered, LoadIds, IdsOf;
    var ids := IdsOf(index);
    IdsInOrder(index);
    LoadIdsFromCache(index, web, engine, ids, 1);
    var r := LoadIds(Some(index), web, engine, ids, 1).1;
    if r.Ok? {
      forall i | 0 <= i < |index|
        ensures r.value[i].id == index[i].id && Delivered(index, web(1 + i), engine, index[i].id) == Ok(r.value[i])
      {
        DeliveredId(index, web(1 + i), engine, ids[i]);
        assert Ok(r.value[i]) == Delivered(index, web(1 + i), engine, ids[i]);
      }
    }
  }

  lemma ListedAreFound(index: RegistryIndex)
    ensures forall i | 0 <= i < |index| :: Lookup(index, index[i].id).Some?
  {
    hide Lookup, IdsOf;
    IdsInOrder(index);
  }

  /** All extensions are loaded from the one index that the list of ids came from, even when the
      registry changes in between: every id of the list is found in it, the result has one extension
      per id, in registry order and with that id, and it exists exactly when the content and the
      script of each of them can be loaded. */
  lemma LoadAllIsConsistent(cache: Option<RegistryIndex>, web: nat -> Web, engine: ScriptEngine)
    requires cache.Some? || web(0).index.Ok?
    ensures var index := if cache.Some? then cache.value else web(0).index.value;
            var (cache', r) := LoadAll(cache, web, engine);
            && cache' == Some(index)
            && (forall i | 0 <= i < |index| :: Lookup(index, index[i].id).Some?)
            && (r.Ok? <==> AllDelivered(index, web, engine))
            && (r.Ok? ==> InRegistryOrder(index, web, engine, r.value))
  {
    hide LoadIds, Lookup, AllDelivered, InRegistryOrder, IdsOf;
    var index := if cache.Some? then cache.value else web(0).index.value;
    ListedAreFound(index);
    LoadsInOrder(index, web, engine);
  }
}
