/** From the files on disk to the extensions that are shown, and back to the files they need; and
    the installations of all extensions. */
module Discovery {
  import opened Text
  import opened Errors
  import opened SqlFilter
  import opened FileTree
  import opened Availability
  import opened Database
  import opened Transaction
  import opened Extensions
  import opened Controller
  import TransactionController
  import opened Isolation

  // ----- The filter -----

  /** The smaller list can be made from the larger one by leaving entries out. */
  predicate Subsequence<T(==)>(smaller: seq<T>, larger: seq<T>) {
    smaller == [] ||
    (larger != [] && (if smaller[0] == larger[0] then Subsequence(smaller[1..], larger[1..])
                      else Subsequence(smaller, larger[1..])))
  }

  lemma {:induction false} SubsequenceSkip<T>(smaller: seq<T>, larger: seq<T>, head: T)
    requires Subsequence(smaller, larger)
    ensures Subsequence(smaller, [head] + larger)
    decreases |larger|, 1
  {
    assert ([head] + larger)[1..] == larger;
    if smaller != [] && smaller[0] == head {
      SubsequenceTail(smaller, larger);
    }
  }

  lemma {:induction false} SubsequenceTail<T>(smaller: seq<T>, larger: seq<T>)
    requires smaller != [] && Subsequence(smaller, larger)
    ensures Subsequence(smaller[1..], larger)
    decreases |larger|, 0
  {
    var tail := smaller[1..];
    if smaller[0] == larger[0] {
      assert larger == [larger[0]] + larger[1..];
      SubsequenceSkip(tail, larger[1..], larger[0]);
    } else {
      SubsequenceTail(smaller, larger[1..]);
      assert larger == [larger[0]] + larger[1..];
      SubsequenceSkip(tail, larger[1..], larger[0]);
    }
  }

  lemma SubsequenceKeep<T>(smaller: seq<T>, larger: seq<T>, head: T)
    requires Subsequence(smaller, larger)
    ensures Subsequence([head] + smaller, [head] + larger)
  {
    assert ([head] + smaller)[1..] == smaller && ([head] + larger)[1..] == larger;
  }

  /** The entry shows id, name, category, description and versions of the extension. */
  predicate Shows(e: Extension, ext: JsExtension) {
    e.id == ext.id && e.name == ext.name && e.category == ext.category && e.description == ext.description && e.versions == ext.versions
  }

  predicate Increasing(picked: seq<nat>) {
    forall a, b | 0 <= a < b < |picked| :: picked[a] < picked[b]
  }

  /** The entries show the extensions with the picked numbers, one each and in order. */
  predicate InOrder(shown: seq<Extension>, extensions: seq<JsExtension>, picked: seq<nat>) {
    && |shown| == |picked| && Increasing(picked)
    && forall a | 0 <= a < |picked| :: picked[a] < |extensions| && Shows(shown[a], extensions[picked[a]])
  }

  /** The picked numbers are those of the extensions whose required files are all there. */
  predicate PicksAvailable(extensions: seq<JsExtension>, files: set<BfsFile>, picked: seq<nat>) {
    forall i | 0 <= i < |extensions| :: i in picked <==> Available(extensions[i].uploads, files)
  }

  function Shifted(picked: seq<nat>): seq<nat> {
    seq(|picked|, a requires 0 <= a < |picked| => picked[a] + 1)
  }

  lemma ShiftedHas(picked: seq<nat>, i: nat)
    ensures i + 1 in Shifted(picked) <==> i in picked
    ensures 0 !in Shifted(picked)
  {
    if i in picked {
      var a :| 0 <= a < |picked| && picked[a] == i;
      assert Shifted(picked)[a] == i + 1;
    }
  }

  /** Behind one more extension the picked numbers move up by one. */
  lemma InOrderSkip(shown: seq<Extension>, extensions: seq<JsExtension>, picked: seq<nat>, ext: JsExtension)
    requires InOrder(shown, extensions, picked)
    ensures InOrder(shown, [ext] + extensions, Shifted(picked))
  {
    hide Shows;
    var more, moved := [ext] + extensions, Shifted(picked);
    assert forall a | 0 <= a < |picked| :: more[moved[a]] == extensions[picked[a]];
  }

  lemma InOrderKeep(shown: seq<Extension>, extensions: seq<JsExtension>, picked: seq<nat>, ext: JsExtension)
    requires InOrder(shown, extensions, picked)
    ensures InOrder([ConvertExtension(ext)] + shown, [ext] + extensions, [0] + Shifted(picked))
  {
    hide Shows, ConvertExtension, Shifted, Increasing;
    InOrderSkip(shown, extensions, picked, ext);
    ConvertedShows(ext);
    ShiftedHas(picked, 0);
    var more, moved := [ext] + extensions, Shifted(picked);
    ZeroInFront(moved);
    var all, entries := [0] + moved, [ConvertExtension(ext)] + shown;
    forall a | 0 <= a < |all| ensures all[a] < |more| && Shows(entries[a], more[all[a]]) {
      assert a > 0 ==> all[a] == moved[a - 1] && entries[a] == shown[a - 1];
    }
  }

  lemma PicksMore(extensions: seq<JsExtension>, files: set<BfsFile>, picked: seq<nat>, ext: JsExtension)
    requires PicksAvailable(extensions, files, picked)
    ensures PicksAvailable([ext] + extensions, files,
                           if Available(ext.uploads, files) then [0] + Shifted(picked) else Shifted(picked))
  {
    hide Available, Shifted;
    var more, moved := [ext] + extensions, Shifted(picked);
    ShiftedHas(picked, 0);
    forall i | 0 < i < |more| ensures i in moved <==> Available(more[i].uploads, files) {
      ShiftedHas(picked, i - 1);
      assert i - 1 in picked <==> Available(extensions[i - 1].uploads, files);
    }
    assert forall i | 0 < i < |more| :: i in [0] + moved <==> i in moved;
    assert more[0] == ext && ([0] + moved)[0] == 0;
  }

  lemma ZeroInFront(moved: seq<nat>)
    requires Increasing(moved) && 0 !in moved
    ensures Increasing([0] + moved)
    ensures forall i: nat :: i in [0] + moved <==> i == 0 || i in moved
  {
    var all := [0] + moved;
    forall a, b | 0 <= a < b < |all| ensures all[a] < all[b] {
      assert all[b] == moved[b - 1] && moved[b - 1] in moved;
    }
  }

  lemma ConvertedShows(ext: JsExtension)
    ensures Shows(ConvertExtension(ext), ext)
  {
  }

  /** What is shown are the registered extensions whose required files are all there, each once, in
      registry order and with its own fields, and no others. Since the files enter as a set, neither
      their order nor repetitions matter. */
  lemma {:induction false} ShownIsFilter(extensions: seq<JsExtension>, files: set<BfsFile>) returns (picked: seq<nat>)
    ensures InOrder(Shown(extensions, files), extensions, picked) && PicksAvailable(extensions, files, picked)
  {
    if extensions == [] {
      picked := [];
    } else {
      hide Available, InOrder, PicksAvailable, Shifted, ConvertExtension;
      var ext, rest := extensions[0], extensions[1..];
      picked := ShownIsFilter(rest, files);
      InOrderSkip(Shown(rest, files), rest, picked, ext);
      InOrderKeep(Shown(rest, files), rest, picked, ext);
      PicksMore(rest, files, picked, ext);
      assert extensions == [ext] + rest && [] + Shown(rest, files) == Shown(rest, files);
      picked := if Available(ext.uploads, files) then [0] + Shifted(picked) else Shifted(picked);
    }
  }

  /** With more files the list only gains entries. */
  lemma {:induction false} ShownGrows(extensions: seq<JsExtension>, fewer: set<BfsFile>, more: set<BfsFile>)
    requires fewer <= more
    ensures Subsequence(Shown(extensions, fewer), Shown(extensions, more))
  {
    hide Available;
    if extensions != [] {
      var rest, head := extensions[1..], ConvertExtension(extensions[0]);
      ShownGrows(rest, fewer, more);
      SubsequenceSkip(Shown(rest, fewer), Shown(rest, more), head);
      SubsequenceKeep(Shown(rest, fewer), Shown(rest, more), head);
      if Available(extensions[0].uploads, fewer) {
        AvailableMonotone(extensions[0].uploads, fewer, more);
      }
      assert [] + Shown(rest, fewer) == Shown(rest, fewer) && [] + Shown(rest, more) == Shown(rest, more);
    }
  }

  // ----- From the tree to the list and back -----

  /** The rows in the environment are those the script emits for the tree. */
  predicate Serves(env: Environment, fs: FileSystem, root: nat)
    requires WellFormed(fs) && root < |fs| && fs[root].Directory?
  {
    env.rows == EmittedRows(fs, root, env.config.bucketFsBasePath)
  }

  /** The driver answers every request from now on. */
  ghost predicate DriverWorks(env: Environment, clock: nat) {
    forall k: nat | k >= clock :: env.replies(k).Done?
  }

  lemma ListResult(env: Environment, c: Context)
    ensures TransactionController.ListBfs(env, c).1.Ok? ==>
              TransactionController.ListBfs(env, c).1.value == OrderByPath(env.rows)
  {
  }

  /** A successful listing of the extensions shows exactly those whose required files are among the
      files in BucketFS. */
  lemma ShownByServe(env: Environment, w: World, loaded: Result<seq<JsExtension>>)
    ensures var r := TransactionController.Serve(env, w, TransactionController.ExtensionsCall(loaded)).1;
            r.Ok? ==> loaded.Ok? && r.value == TransactionController.ExtensionList(Shown(loaded.value, AsSet(OrderByPath(env.rows))))
  {
    hide TransactionController.StartTransaction, TransactionController.ListBfs, Rollback, Shown;
    var (w1, begun) := TransactionController.StartTransaction(env, w);
    if begun.Ok? {
      ListResult(env, Context(w1, begun.value, None));
    }
  }

  /** A client is created exactly if the driver begins its transaction and executes two statements in
      it: the creation of a schema named after the current time, and that of the listing script in
      this schema. The client calls the script by that name, in that transaction. */
  lemma ClientCreated(env: Environment, w: World)
    requires env.config.bucketFsBasePath != ""
    ensures var (w', r) := CreateClient(env, w);
            var schema := "INTERNAL_" + env.unixTime(w.clock + 1);
            var script := "\"" + schema + "\"" + ".\"LIST_RECURSIVELY\"";
            && (r.Ok? <==> env.replies(w.clock).Done? && env.replies(w.clock + 1).Done? && env.replies(w.clock + 2).Done?)
            && (r.Ok? ==>
                  && r.value == BucketFsClient(env.config.bucketFsBasePath, script, |w.sessions|)
                  && w'.committed == w.committed
                  && w'.sessions == w.sessions + [Session(BucketFs, true, true,
                       ["CREATE SCHEMA " + schema, "CREATE OR REPLACE PYTHON3 SCALAR SCRIPT " + script + env.udfSource])])
  {
    var name, n := SchemaName(env, w.clock + 1), |w.sessions|;
    BucketFsStatementsHarmless(env, w.clock + 1, UdfName(name));
    hide EndsTransaction, UdfStatement, UdfName, SchemaName;
    var (w1, begun) := Begin(env, w, BucketFs);
    if begun.Ok? {
      ExecAppends(env, w1, w.sessions, [], "CREATE SCHEMA " + name);
      var (w2, created) := Exec(env, w1, n, "CREATE SCHEMA " + name);
      assert [] + ["CREATE SCHEMA " + name] == ["CREATE SCHEMA " + name];
      if created.Ok? {
        ExecAppends(env, w2, w.sessions, ["CREATE SCHEMA " + name], UdfStatement(env, UdfName(name)));
        assert ["CREATE SCHEMA " + name] + [UdfStatement(env, UdfName(name))] == ["CREATE SCHEMA " + name, UdfStatement(env, UdfName(name))];
      }
    }
    NamesAsSent(env, w.clock + 1);
  }

  lemma NamesAsSent(env: Environment, clock: nat)
    ensures SchemaName(env, clock) == "INTERNAL_" + env.unixTime(clock)
    ensures forall name :: UdfName(name) == "\"" + name + "\"" + ".\"LIST_RECURSIVELY\""
    ensures forall name :: UdfStatement(env, name) == "CREATE OR REPLACE PYTHON3 SCALAR SCRIPT " + name + env.udfSource
  {
  }

  /** A harmless statement joins the workspace of the transaction begun last. */
  lemma ExecAppends(env: Environment, w: World, before: seq<Session>, writes: seq<string>, statement: string)
    requires w.sessions == before + [Session(BucketFs, true, true, writes)] && Harmless(statement)
    ensures var (w', r) := Exec(env, w, |before|, statement);
            && w'.clock == w.clock + 1 && w'.committed == w.committed
            && (r.Ok? <==> env.replies(w.clock).Done?)
            && (r.Ok? ==> w'.sessions == before + [Session(BucketFs, true, true, writes + [statement])])
  {
    hide EndsTransaction;
  }

  /** The listing sorts by full path; the lookup filters by name, sorts and takes one row. */
  lemma QueryTexts(client: BucketFsClient)
    ensures ListStatement(client) == "SELECT " + client.udfScriptName + "(?) ORDER BY FULL_PATH"
    ensures LookupStatement(client)
         == "SELECT FULL_PATH FROM (SELECT " + client.udfScriptName + "(?)) WHERE FILE_NAME = ? ORDER BY FULL_PATH LIMIT 1"
  {
  }

  lemma CreateClientWorks(env: Environment, w: World)
    requires DriverWorks(env, w.clock) && env.config.bucketFsBasePath != ""
    ensures var (w', r) := CreateClient(env, w);
            r.Ok? && IsOpen(w', r.value.transaction) && DriverWorks(env, w'.clock)
  {
    hide EndsTransaction, UdfStatement, SchemaName, UdfName;
  }

  lemma FindPathWorks(env: Environment, w: World, client: BucketFsClient, fileName: string)
    requires DriverWorks(env, w.clock) && IsOpen(w, client.transaction)
    ensures var r := FindAbsolutePath(env, w, client, fileName).1;
            if FindPath(env.rows, fileName).Some? then r == Ok(FindPath(env.rows, fileName).value)
            else r == Err(Plain(FileNotFound(fileName)))
  {
    hide EndsTransaction, LookupStatement, FindPath;
  }

  /** While the driver works, an extension resolves a file name exactly if the listing has it, and
      gets the path of its first entry there. */
  lemma ResolveAgreesWithListing(env: Environment, w0: World, c: Context, fileName: string)
    requires Inside(w0, c) && DriverWorks(env, c.world.clock) && env.config.bucketFsBasePath != ""
    ensures var first := FirstNamed(OrderByPath(env.rows), fileName);
            ResolveFile(env, c, fileName).1 ==
              if first.Some? then Ok(first.value.path)
              else Err(Wrapped(ResolvingPath(fileName), Plain(FileNotFound(fileName))))
  {
    hide CreateClient, FindAbsolutePath, FindPath, OrderByPath, FirstNamed;
    LookupAgrees(env.rows, OrderByPath(env.rows), OrderByPath(Named(env.rows, fileName)), fileName);
    LookupIsFirst(env, fileName);
    if c.client.None? {
      CreateClientWorks(env, c.world);
    }
    var (c1, client) := GetClient(env, c);
    FindPathWorks(env, c1.world, client.value, fileName);
  }

  predicate HasName(file: Found, name: string) {
    file.path != [] && file.path[|file.path| - 1] == name
  }

  /** What a callback is told for a file name, while the driver works: the least full path among the
      listable files with that last name, and a refusal exactly if there is none. */
  lemma PathAnswer(env: Environment, fs: FileSystem, root: nat, w0: World, c: Context, fileName: string)
    requires WellFormed(fs) && root < |fs| && fs[root].Directory? && Serves(env, fs, root)
    requires Inside(w0, c) && DriverWorks(env, c.world.clock) && env.config.bucketFsBasePath != ""
    ensures var answer, base := Perform(env, c, ResolvePath(fileName)).1, env.config.bucketFsBasePath;
            && (answer.Path? || answer == Refused(Wrapped(ResolvingPath(fileName), Plain(FileNotFound(fileName)))))
            && (answer.Path? <==> exists file :: Listable(fs, root, file) && HasName(file, fileName))
            && (answer.Path? ==>
                  && (exists file, row :: Listable(fs, root, file) && RowOf(base, file, row)
                                          && row.name == fileName && row.path == answer.path)
                  && (forall file, row | Listable(fs, root, file) && RowOf(base, file, row) && row.name == fileName ::
                        LessEq(answer.path, row.path)))
  {
    hide WellFormed, Listable, EmittedRows, RowOf, Emitted, OrderByPath, Named, ResolveFile, Inside, LessEq;
    var rows, base := env.rows, env.config.bucketFsBasePath;
    ResolveAgreesWithListing(env, w0, c, fileName);
    LookupIsFirst(env, fileName);
    var matches := OrderByPath(Named(rows, fileName));
    LookupAgrees(rows, OrderByPath(rows), matches, fileName);
    RowsExact(fs, root, base);
    forall file | Listable(fs, root, file) && HasName(file, fileName)
      ensures Emitted(base, file) in rows && Emitted(base, file).name == fileName
    {
      EmittedIsRow(fs, root, base, file);
      RowNames(base, file, Emitted(base, file));
    }
    if matches != [] {
      var first := FirstNamed(OrderByPath(rows), fileName).value;
      InListing(rows, first);
      assert first in rows;
      var file :| Listable(fs, root, file) && RowOf(base, file, first);
      RowNames(base, file, first);
    }
  }

  lemma LookupIsFirst(env: Environment, fileName: string)
    ensures var first := FirstNamed(OrderByPath(env.rows), fileName);
            FindPath(env.rows, fileName) == if first.Some? then Some(first.value.path) else None
  {
    LookupAgrees(env.rows, OrderByPath(env.rows), OrderByPath(Named(env.rows, fileName)), fileName);
  }

  /** A listable file with the required name and, unless any size will do, the required size. */
  ghost predicate Lies(fs: FileSystem, root: nat, u: BucketFsUpload, file: Found)
    requires WellFormed(fs) && root < |fs|
  {
    Listable(fs, root, file) && HasName(file, u.bucketFsFilename) && (u.fileSize >= 0 ==> file.size == u.fileSize)
  }

  ghost predicate LiesThere(fs: FileSystem, root: nat, u: BucketFsUpload)
    requires WellFormed(fs) && root < |fs|
  {
    exists file :: Lies(fs, root, u, file)
  }

  ghost predicate AllLie(fs: FileSystem, root: nat, uploads: seq<BucketFsUpload>)
    requires WellFormed(fs) && root < |fs|
  {
    forall k | 0 <= k < |uploads| :: LiesThere(fs, root, uploads[k])
  }

  lemma ListedLies(env: Environment, fs: FileSystem, root: nat, u: BucketFsUpload, f: BfsFile)
    requires WellFormed(fs) && root < |fs| && fs[root].Directory? && Serves(env, fs, root)
    requires f in AsSet(OrderByPath(env.rows)) && Meets(u, f)
    ensures LiesThere(fs, root, u)
  {
    hide WellFormed, Listable, EmittedRows, RowOf, OrderByPath, AsSet;
    InListing(env.rows, f);
    RowsExact(fs, root, env.config.bucketFsBasePath);
    var file :| Listable(fs, root, file) && RowOf(env.config.bucketFsBasePath, file, f);
    RowNames(env.config.bucketFsBasePath, file, f);
    assert Lies(fs, root, u, file);
  }

  lemma InListing(rows: seq<BfsFile>, f: BfsFile)
    ensures f in AsSet(OrderByPath(rows)) <==> f in rows
  {
    hide Ordered;
    assert f in OrderByPath(rows) <==> f in multiset(OrderByPath(rows));
    assert f in rows <==> f in multiset(rows);
  }

  lemma LyingIsListed(env: Environment, fs: FileSystem, root: nat, u: BucketFsUpload, file: Found)
    requires WellFormed(fs) && root < |fs| && fs[root].Directory? && Serves(env, fs, root)
    requires Lies(fs, root, u, file)
    ensures exists f :: f in AsSet(OrderByPath(env.rows)) && Meets(u, f)
  {
    hide WellFormed, EmittedRows, RowOf, Listable, Emitted, OrderByPath, AsSet;
    var base := env.config.bucketFsBasePath;
    LyingHasName(fs, root, u, file);
    var f := Emitted(base, file);
    EmittedIsRow(fs, root, base, file);
    RowsExact(fs, root, base);
    RowNames(base, file, f);
    InListing(env.rows, f);
  }

  lemma LyingHasName(fs: FileSystem, root: nat, u: BucketFsUpload, file: Found)
    requires WellFormed(fs) && root < |fs| && Lies(fs, root, u, file)
    ensures Listable(fs, root, file) && file.path != []
  {
  }

  /** The listing has what an extension requires exactly if it lies on the tree. */
  lemma AvailableIffLying(env: Environment, fs: FileSystem, root: nat, uploads: seq<BucketFsUpload>)
    requires WellFormed(fs) && root < |fs| && fs[root].Directory? && Serves(env, fs, root)
    ensures Available(uploads, AsSet(OrderByPath(env.rows))) <==> AllLie(fs, root, uploads)
  {
    hide WellFormed, Lies, OrderByPath, Serves, Meets, AsSet;
    var files := AsSet(OrderByPath(env.rows));
    if Available(uploads, files) {
      forall k | 0 <= k < |uploads| ensures LiesThere(fs, root, uploads[k]) {
        assert uploads[k] in uploads;
        var f :| f in files && Meets(uploads[k], f);
        ListedLies(env, fs, root, uploads[k], f);
      }
      assert AllLie(fs, root, uploads);
    }
    if AllLie(fs, root, uploads) {
      forall u | u in uploads ensures exists f :: f in files && Meets(u, f) {
        var k :| 0 <= k < |uploads| && uploads[k] == u;
        var file :| Lies(fs, root, uploads[k], file);
        LyingIsListed(env, fs, root, u, file);
      }
      assert Available(uploads, files);
    }
  }

  lemma RowNames(base: string, file: Found, row: BfsFile)
    requires RowOf(base, file, row)
    ensures file.path != [] && row.name == file.path[|file.path| - 1] && row.size == file.size
  {
  }

  /** On a tree that the script serves, a successful listing shows exactly the registered extensions
      of which every required file lies on the tree, each once, in registry order, with its own
      fields. */
  lemma ShownIffFilesLie(env: Environment, fs: FileSystem, root: nat, w: World, loaded: Result<seq<JsExtension>>)
    returns (picked: seq<nat>)
    requires WellFormed(fs) && root < |fs| && fs[root].Directory? && Serves(env, fs, root)
    requires TransactionController.Serve(env, w, TransactionController.ExtensionsCall(loaded)).1.Ok?
    ensures var value := TransactionController.Serve(env, w, TransactionController.ExtensionsCall(loaded)).1.value;
            && loaded.Ok? && value.ExtensionList?
            && InOrder(value.extensions, loaded.value, picked)
            && (forall i | 0 <= i < |loaded.value| :: i in picked <==> AllLie(fs, root, loaded.value[i].uploads))
  {
    hide WellFormed, TransactionController.Serve, OrderByPath, Available, AllLie, Serves, InOrder;
    ShownByServe(env, w, loaded);
    var files := AsSet(OrderByPath(env.rows));
    picked := ShownIsFilter(loaded.value, files);
    forall i | 0 <= i < |loaded.value|
      ensures Available(loaded.value[i].uploads, files) <==> AllLie(fs, root, loaded.value[i].uploads)
    {
      AvailableIffLying(env, fs, root, loaded.value[i].uploads);
    }
  }

  lemma ReadRowsWork(env: Environment, w: World, tx: nat, n: nat)
    requires DriverWorks(env, w.clock) && IsOpen(w, tx)
    ensures ReadRows(env, w, tx, n).1.Ok?
    decreases n
  {
    if n > 0 {
      ReadRowsWork(env, Ask(env, w, tx).0, tx, n - 1);
    }
  }

  lemma ListFilesWork(env: Environment, w: World, client: BucketFsClient)
    requires DriverWorks(env, w.clock) && IsOpen(w, client.transaction)
    ensures ListFiles(env, w, client).1.Ok?
  {
    hide ListStatement, EndsTransaction, ReadRows, OrderByPath;
    var tx := client.transaction;
    var w2 := Exec(env, Ask(env, w, tx).0, tx, ListStatement(client)).0;
    ReadRowsWork(env, w2, tx, |OrderByPath(env.rows)|);
  }

  /** While the driver works, the listing succeeds whenever the extensions can be loaded, and otherwise
      reports why they cannot. */
  lemma ListingSucceeds(env: Environment, w: World, loaded: Result<seq<JsExtension>>)
    requires DriverWorks(env, w.clock) && env.config.bucketFsBasePath != ""
    ensures var r := TransactionController.Serve(env, w, TransactionController.ExtensionsCall(loaded)).1;
            (r.Ok? <==> loaded.Ok?) && (!r.Ok? ==> r == loaded.PropagateFailure())
  {
    hide CreateClient, ListFiles, Rollback, Shown;
    var w1 := TransactionController.StartTransaction(env, w).0;
    CreateClientWorks(env, w1);
    var (w2, client) := CreateClient(env, w1);
    ListFilesWork(env, w2, client.value);
  }

  /** On an unchanged tree, every required file of an extension that is shown lies there as a
      listable file of that name and, unless any size will do, of that size; and while the driver
      works, the extension resolves it. */
  lemma ShownFilesResolve(env: Environment, fs: FileSystem, root: nat, ext: JsExtension, u: BucketFsUpload, w0: World, c: Context)
    requires WellFormed(fs) && root < |fs| && fs[root].Directory? && Serves(env, fs, root)
    requires Available(ext.uploads, AsSet(OrderByPath(env.rows))) && u in ext.uploads
    requires Inside(w0, c) && DriverWorks(env, c.world.clock) && env.config.bucketFsBasePath != ""
    ensures LiesThere(fs, root, u)
    ensures ResolveFile(env, c, u.bucketFsFilename).1.Ok?
  {
    hide WellFormed, Lies, OrderByPath, FirstNamed, FindPath, Inside, ResolveFile, Available;
    AvailableIffLying(env, fs, root, ext.uploads);
    ResolveAgreesWithListing(env, w0, c, u.bucketFsFilename);
    AvailableFilesResolve(env.rows, ext.uploads, u);
    LookupIsFirst(env, u.bucketFsFilename);
  }

  // ----- Installations -----

  /** What the extensions answer one after the other, as long as they answer. */
  function Answers(env: Environment, c: Context, extensions: seq<JsExtension>): seq<Result<seq<Option<Installation>>>>
    decreases |extensions|
  {
    if extensions == [] then []
    else
      var ext := extensions[0];
      var (c1, r) := Call(env, c, FindInstallations, ext.id, "", ext.findInstallations);
      [r] + Answers(env, c1, extensions[1..])
  }

  predicate Usable(answer: Result<seq<Option<Installation>>>) {
    answer.Ok? && None !in answer.value
  }

  /** The answers one behind the other, each entry with its own extension's id. */
  function TaggedAnswers(extensions: seq<JsExtension>, answers: seq<Result<seq<Option<Installation>>>>): seq<Installation>
    requires |extensions| == |answers| && forall i | 0 <= i < |answers| :: Usable(answers[i])
  {
    if extensions == [] then []
    else
      assert Usable(answers[0]);
      WithId(extensions[0].id, answers[0].value) + TaggedAnswers(extensions[1..], answers[1..])
  }

  /** The installations are collected exactly when every extension answers with a list of objects;
      the result is then the answers in registry order, tagged with the id of the extension that
      gave them and otherwise unchanged. A single failure yields no list. */
  lemma {:induction false} CollectIsConcatenation(env: Environment, c: Context, extensions: seq<JsExtension>, found: seq<Installation>)
    ensures |Answers(env, c, extensions)| == |extensions|
    ensures Collect(env, c, extensions, found).1.Ok? <==>
              forall i | 0 <= i < |extensions| :: Usable(Answers(env, c, extensions)[i])
    ensures Collect(env, c, extensions, found).1.Ok? ==>
              Collect(env, c, extensions, found).1.value == found + TaggedAnswers(extensions, Answers(env, c, extensions))
    decreases |extensions|
  {
    hide Call, WithId;
    if extensions != [] {
      var ext, answers := extensions[0], Answers(env, c, extensions);
      var (c1, r) := Call(env, c, FindInstallations, ext.id, "", ext.findInstallations);
      var more := if Usable(r) then WithId(ext.id, r.value) else [];
      CollectIsConcatenation(env, c1, extensions[1..], found + more);
      var rest := Answers(env, c1, extensions[1..]);
      assert answers == [r] + rest && answers[1..] == rest && answers[0] == r;
      assert forall i | 0 <= i < |rest| :: answers[i + 1] == rest[i];
      if Usable(r) && forall i | 0 <= i < |rest| :: Usable(rest[i]) {
        var tail := TaggedAnswers(extensions[1..], rest);
        assert found + more + tail == found + (more + tail);
      }
    } else {
      assert found + [] == found;
    }
  }

  /** The first extension that does not answer with a list of objects decides: an error ends the listing
      with its status, a panic or a null entry with a panic. */
  lemma {:induction false} CollectFails(env: Environment, c: Context, extensions: seq<JsExtension>, found: seq<Installation>, n: nat)
    requires n < |Answers(env, c, extensions)| && !Usable(Answers(env, c, extensions)[n])
    requires forall i | 0 <= i < n :: Usable(Answers(env, c, extensions)[i])
    ensures var answer, r := Answers(env, c, extensions)[n], Collect(env, c, extensions, found).1;
            if answer.Err? then r.Err? && StatusOf(r.error) == StatusOf(answer.error) else r.Panic?
    decreases |extensions|
  {
    hide Call, WithId;
    var ext := extensions[0];
    var (c1, r) := Call(env, c, FindInstallations, ext.id, "", ext.findInstallations);
    var rest := Answers(env, c1, extensions[1..]);
    assert Answers(env, c, extensions) == [r] + rest;
    if n > 0 {
      assert Usable(Answers(env, c, extensions)[0]);
      assert forall i | 0 <= i < n - 1 :: rest[i] == Answers(env, c, extensions)[i + 1];
      CollectFails(env, c1, extensions[1..], found + WithId(ext.id, r.value), n - 1);
    } else if r.Err? {
      CauseKeepsStatus("failed to find installations for extension " + Quoted(ext.name), r.error);
    }
  }

  lemma CauseKeepsStatus(message: string, cause: Error)
    ensures StatusOf(NewApiErrorWithCause(message, cause)) == StatusOf(cause)
  {
  }

  /** The operation's context after its begin and the two metadata queries. */
  function AfterMetadata(env: Environment, w: World): Context {
    var (w1, begun) := TransactionController.StartTransaction(env, w);
    var main := if begun.Ok? then begun.value else 0;
    var w2 := Exec(env, w1, main, MetadataStatement(env, AllScripts)).0;
    Context(Exec(env, w2, main, MetadataStatement(env, AllVirtualSchemas)).0, main, None)
  }

  /** The transaction was begun and both metadata queries were answered. */
  predicate MetadataRead(env: Environment, w: World) {
    var (w1, begun) := TransactionController.StartTransaction(env, w);
    && begun.Ok?
    && var (w2, scripts) := Exec(env, w1, begun.value, MetadataStatement(env, AllScripts));
       scripts.Ok? && Exec(env, w2, begun.value, MetadataStatement(env, AllVirtualSchemas)).1.Ok?
  }

  /** The operation that lists the installations succeeds exactly if the transaction begins, both
      metadata queries are answered, all extensions can be loaded and every one of them answers with
      a list of objects, and then it returns all of these answers, tagged. */
  lemma InstalledAreAllAnswers(env: Environment, w: World, loaded: Result<seq<JsExtension>>)
    ensures var c, r := AfterMetadata(env, w), TransactionController.Serve(env, w, TransactionController.InstalledCall(loaded)).1;
            && (r.Ok? <==> MetadataRead(env, w) && loaded.Ok? && AllUsable(env, c, loaded.value))
            && (r.Ok? ==> r.value == TransactionController.InstallationList(TaggedAnswers(loaded.value, Answers(env, c, loaded.value))))
            && (MetadataRead(env, w) && !loaded.Ok? ==> r == loaded.PropagateFailure())
            && (MetadataRead(env, w) && loaded.Ok? && !r.Ok? ==> r == Collect(env, c, loaded.value, []).1.PropagateFailure())
  {
    hide TransactionController.StartTransaction, Exec, MetadataStatement, Collect, Answers, TaggedAnswers, Rollback;
    if loaded.Ok? {
      CollectIsConcatenation(env, AfterMetadata(env, w), loaded.value, []);
      assert forall found: seq<Installation> :: [] + found == found;
    }
  }

  predicate AllUsable(env: Environment, c: Context, extensions: seq<JsExtension>)
    ensures AllUsable(env, c, extensions) ==> |Answers(env, c, extensions)| == |extensions|
  {
    CollectIsConcatenation(env, c, extensions, []);
    forall i | 0 <= i < |extensions| :: Usable(Answers(env, c, extensions)[i])
  }

  /** Name and version stay, the id is the extension's. */
  lemma WithIdTags(id: string, installations: seq<Option<Installation>>, k: nat)
    requires None !in installations && k < |installations|
    ensures |WithId(id, installations)| == |installations| && installations[k].Some?
    ensures WithId(id, installations)[k] == Installation(id, installations[k].value.name, installations[k].value.version)
  {
    assert installations[k] in installations;
  }
}
