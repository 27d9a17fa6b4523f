/** The registry of extensions behind HTTP with its cached index. */
module Registry {
  import opened Text
  import opened Errors

  datatype IndexEntry = IndexEntry(id: string, url: string)

  type RegistryIndex = seq<IndexEntry>

  function IdsOf(index: RegistryIndex): seq<string> {
    seq(|index|, i requires 0 <= i < |index| => index[i].id)
  }

  method GetExtensionIds(index: RegistryIndex) returns (ids: seq<string>)
    ensures ids == IdsOf(index)
    ensures |ids| == |index| && forall i | 0 <= i < |index| :: ids[i] == index[i].id
  {
    ids := [];
    for i := 0 to |index|
      invariant ids == IdsOf(index)[..i]
    {
      ids := ids + [index[i].id];
    }
  }

  /** The first entry with the id. */
  function Lookup(index: RegistryIndex, id: string): (entry: Option<IndexEntry>)
    ensures entry.Some? <==> id in IdsOf(index)
    ensures entry.Some? ==> exists i :: 0 <= i < |index| && index[i] == entry.value && entry.value.id == id && id !in IdsOf(index)[..i]
  {
    if index == [] then None
    else
      assert IdsOf(index) == [index[0].id] + IdsOf(index[1..]);
      if index[0].id == id then
        assert IdsOf(index)[..0] == [];
        Some(index[0])
      else
        var rest := Lookup(index[1..], id);
        assert rest.Some? ==> exists i :: 0 <= i < |index| && index[i] == rest.value && rest.value.id == id && id !in IdsOf(index)[..i] by {
          if rest.Some? {
            var j :| 0 <= j < |index[1..]| && index[1..][j] == rest.value && rest.value.id == id && id !in IdsOf(index[1..])[..j];
            assert IdsOf(index)[..j + 1] == [index[0].id] + IdsOf(index[1..])[..j];
            assert index[j + 1] == rest.value;
          }
        }
        rest
  }

  method GetExtension(index: RegistryIndex, id: string) returns (entry: Option<IndexEntry>)
    ensures entry == Lookup(index, id)
  {
    assert index[0..] == index;
    for i := 0 to |index|
      invariant Lookup(index, id) == Lookup(index[i..], id)
    {
      if index[i].id == id {
        return Some(index[i]);
      }
      assert index[i..][1..] == index[i + 1..];
    }
    return None;
  }

  /** What the web answers at the moment of a call: the index if it is asked for, and the content
      behind any address. */
  datatype Web = Web(index: Result<RegistryIndex>, content: string -> Result<string>)

  datatype Query = FindExtensions | ReadExtension(id: string)

  datatype Answer = Ids(ids: seq<string>) | Content(content: string)

  function NotFoundError(id: string): Error {
    NewApiError(NOT_FOUND, "extension " + Quoted(id) + " not found")
  }

  /** The answer computed from an index. */
  function AnswerFrom(index: RegistryIndex, web: Web, query: Query): Result<Answer> {
    match query
    case FindExtensions => Ok(Ids(IdsOf(index)))
    case ReadExtension(id) =>
      match Lookup(index, id)
      case None => Err(NotFoundError(id))
      case Some(entry) =>
        var content := web.content(entry.url);
        if content.IsFailure() then content.Fail(LoadingExtension(id)) else Ok(Content(content.value))
  }

  /** The cached index, or the one loaded now; a failed load leaves the cache empty. */
  function GetIndexStep(cache: Option<RegistryIndex>, web: Web): (Option<RegistryIndex>, Result<RegistryIndex>) {
    if cache.Some? then (cache, Ok(cache.value))
    else if web.index.IsFailure() then (None, web.index)
    else (Some(web.index.value), web.index)
  }

  function Visited(cache: Option<RegistryIndex>, web: Web, query: Query): (Option<RegistryIndex>, Result<Answer>) {
    var (cache', index) := GetIndexStep(cache, web);
    (cache', if index.IsFailure() then index.PropagateFailure() else AnswerFrom(index.value, web, query))
  }

  class HttpRegistry {
    var index: Option<RegistryIndex>

    constructor ()
      ensures index.None?
    {
      index := None;
    }

    method GetIndex(web: Web) returns (r: Result<RegistryIndex>)
      modifies this
      ensures (index, r) == GetIndexStep(old(index), web)
    {
      if index.None? {
        var loaded := web.index;
        if loaded.IsFailure() {
          return loaded;
        }
        index := Some(loaded.value);
      }
      return Ok(index.value);
    }

    method FindAll(web: Web) returns (r: Result<seq<string>>)
      modifies this
      ensures (index, r.Map(ids => Ids(ids))) == Visited(old(index), web, FindExtensions)
    {
      var current := GetIndex(web);
      if current.IsFailure() {
        return current.PropagateFailure();
      }
      var ids := GetExtensionIds(current.value);
      return Ok(ids);
    }

    method Read(web: Web, id: string) returns (r: Result<string>)
      modifies this
      ensures (index, r.Map(content => Content(content))) == Visited(old(index), web, ReadExtension(id))
    {
      var current := GetIndex(web);
      if current.IsFailure() {
        return current.PropagateFailure();
      }
      var entry := GetExtension(current.value, id);
      if entry.None? {
        return Err(NotFoundError(id));
      }
      var content := web.content(entry.value.url);
      if content.IsFailure() {
        return content.Fail(LoadingExtension(id));
      }
      return Ok(content.value);
    }
  }

  // ----- Sequences of calls -----

  datatype Visit = Visit(web: Web, query: Query)

  function Answers(cache: Option<RegistryIndex>, visits: seq<Visit>): (answers: seq<Result<Answer>>)
    ensures |answers| == |visits|
    decreases |visits|
  {
    if visits == [] then []
    else
      var (cache', answer) := Visited(cache, visits[0].web, visits[0].query);
      [answer] + Answers(cache', visits[1..])
  }

  /** The number of the first call during which the index can be loaded. */
  function FirstLoad(visits: seq<Visit>): (n: nat)
    ensures n <= |visits|
    ensures forall i | 0 <= i < n :: visits[i].web.index.IsFailure()
    ensures n < |visits| ==> visits[n].web.index.Ok?
    decreases |visits|
  {
    if visits == [] || visits[0].web.index.Ok? then 0
    else 1 + FirstLoad(visits[1..])
  }

  lemma {:induction false} AnswersFromCache(index: RegistryIndex, visits: seq<Visit>)
    ensures forall i | 0 <= i < |visits| ::
              Answers(Some(index), visits)[i] == AnswerFrom(index, visits[i].web, visits[i].query)
    decreases |visits|
  {
    hide AnswerFrom;
    if visits != [] {
      AnswersFromCache(index, visits[1..]);
      forall i | 0 <= i < |visits|
        ensures Answers(Some(index), visits)[i] == AnswerFrom(index, visits[i].web, visits[i].query)
      {
        assert i > 0 ==> visits[i] == visits[1..][i - 1];
      }
    }
  }

  /** However the registry changes or fails between the calls, the cached registry answers like one
      fixed snapshot: failed loads are reported and never cached, and from the first success on
      every answer comes from the index loaded then. */
  lemma {:induction false} CacheIsSnapshot(visits: seq<Visit>)
    ensures var n := FirstLoad(visits);
            forall i | 0 <= i < |visits| ::
              Answers(None, visits)[i] ==
                if i < n then visits[i].web.index.PropagateFailure()
                else AnswerFrom(visits[n].web.index.value, visits[i].web, visits[i].query)
    decreases |visits|
  {
    hide AnswerFrom;
    if visits != [] {
      var rest := visits[1..];
      if visits[0].web.index.Ok? {
        AnswersFromCache(visits[0].web.index.value, visits[1..]);
      } else {
        CacheIsSnapshot(rest);
      }
      assert forall i | 0 < i < |visits| :: visits[i] == rest[i - 1];
    }
  }

  /** What one snapshot answers: the ids of its entries in order, and for an id the content behind the
      address of the first entry that has it. */
  lemma SnapshotAnswers(index: RegistryIndex, web: Web, k: nat)
    requires k < |index| && forall i | 0 <= i < k :: index[i].id != index[k].id
    ensures AnswerFrom(index, web, FindExtensions).Ok? && AnswerFrom(index, web, FindExtensions).value.Ids?
    ensures var ids := AnswerFrom(index, web, FindExtensions).value.ids;
            |ids| == |index| && forall i | 0 <= i < |index| :: ids[i] == index[i].id
    ensures var content, answer := web.content(index[k].url), AnswerFrom(index, web, ReadExtension(index[k].id));
            && (content.Ok? ==> answer == Ok(Content(content.value)))
            && (content.Err? ==> answer.Err? && StatusOf(answer.error) == StatusOf(content.error))
            && (content.Panic? ==> answer.Panic?)
  {
    FirstEntry(index, k);
    WrapKeeps(index[k].id, web.content(index[k].url));
  }

  lemma FirstEntry(index: RegistryIndex, k: nat)
    requires k < |index| && forall i | 0 <= i < k :: index[i].id != index[k].id
    ensures Lookup(index, index[k].id) == Some(index[k])
  {
    var id, ids := index[k].id, IdsOf(index);
    assert ids[k] == id;
    var entry := Lookup(index, id);
    var i :| 0 <= i < |index| && index[i] == entry.value && entry.value.id == id && id !in ids[..i];
    forall j | 0 <= j < i ensures ids[j] != id {
      assert ids[..i][j] in ids[..i];
    }
  }

  lemma WrapKeeps(id: string, content: Result<string>)
    ensures content.Err? ==> StatusOf(Wrapped(LoadingExtension(id), content.error)) == StatusOf(content.error)
  {
  }

  /** Within one snapshot every listed id is found, and status 404 is the answer of the index lookup
      exactly for the ids that are not listed. */
  lemma ListedIdsAreFound(index: RegistryIndex, web: Web, id: string)
    ensures AnswerFrom(index, web, ReadExtension(id)) == Err(NotFoundError(id)) <==>
              id !in AnswerFrom(index, web, FindExtensions).value.ids
    ensures AnswerFrom(index, web, ReadExtension(id)) == Err(NotFoundError(id)) ==> StatusOf(NotFoundError(id)) == 404
  {
  }
}
