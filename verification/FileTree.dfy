/** The script that lists the files below a directory, run inside the database. */
module FileTree {
  import opened Text

  datatype Entry = Entry(name: string, inode: nat)

  /** `readable` says that the directory can be both listed and searched. A link names any inode,
      also one that leads back to the link; a target outside the file system is dangling. */
  datatype Inode =
    | Regular(size: nat)
    | Directory(entries: seq<Entry>, readable: bool)
    | Link(target: nat)
    | Special

  type FileSystem = seq<Inode>

  /** A finite tree of directories: they can be numbered so that a directory lies above its
      subdirectories. Files and links may be shared and links may form cycles. */
  predicate WellFormed(fs: FileSystem) {
    forall d | 0 <= d < |fs| && fs[d].Directory? :: WellFormedDirectory(fs, d)
  }

  predicate WellFormedDirectory(fs: FileSystem, d: nat)
    requires d < |fs| && fs[d].Directory?
  {
    var entries := fs[d].entries;
    && (forall i | 0 <= i < |entries| ::
          && entries[i].inode < |fs|
          && (fs[entries[i].inode].Directory? ==> entries[i].inode < d)
          && entries[i].name != "" && '/' !in entries[i].name)
    && (forall i, j | 0 <= i < j < |entries| :: entries[i].name != entries[j].name)
  }

  /** The kernel gives up after this many links. */
  const MAX_LINKS: nat := 40

  /** What stat sees: links are followed, a cycle or a dangling link ends in nothing. */
  function Resolve(fs: FileSystem, i: nat, links: nat): Option<nat>
    decreases links
  {
    if i >= |fs| then None
    else if fs[i].Link? then if links == 0 then None else Resolve(fs, fs[i].target, links - 1)
    else Some(i)
  }

  predicate IsDirectory(fs: FileSystem, i: nat) {
    var end := Resolve(fs, i, MAX_LINKS);
    end.Some? && end.value < |fs| && fs[end.value].Directory?
  }

  predicate HasUdfDirectory(fs: FileSystem, d: nat)
    requires d < |fs| && fs[d].Directory?
  {
    exists i :: 0 <= i < |fs[d].entries| && fs[d].entries[i].name == "exaudf" && IsDirectory(fs, fs[d].entries[i].inode)
  }

  predicate AcceptFile(fs: FileSystem, i: nat)
    requires i < |fs|
  {
    if fs[i].Directory? then !HasUdfDirectory(fs, i) else fs[i].Regular?
  }

  /** A file found by the traversal: the names below the root, and the size. */
  datatype Found = Found(path: seq<string>, size: nat)

  function ListRecursively(fs: FileSystem, d: nat, path: seq<string>): (files: seq<Found>)
    requires WellFormed(fs) && d < |fs| && fs[d].Directory?
    ensures forall i | 0 <= i < |files| :: |files[i].path| > |path|
    decreases d, |fs[d].entries| + 1
  {
    assert WellFormedDirectory(fs, d);
    if fs[d].readable then ListFrom(fs, d, 0, path) else []
  }

  /** The traversal from entry number k of the directory on. */
  function ListFrom(fs: FileSystem, d: nat, k: nat, path: seq<string>): (files: seq<Found>)
    requires WellFormed(fs) && d < |fs| && fs[d].Directory? && k <= |fs[d].entries|
    ensures forall i | 0 <= i < |files| :: |files[i].path| > |path|
    decreases d, |fs[d].entries| - k
  {
    assert WellFormedDirectory(fs, d);
    if k == |fs[d].entries| then []
    else ListEntry(fs, d, k, path) + ListFrom(fs, d, k + 1, path)
  }

  /** The part of the traversal that belongs to one entry. */
  function ListEntry(fs: FileSystem, d: nat, k: nat, path: seq<string>): (files: seq<Found>)
    requires WellFormed(fs) && d < |fs| && fs[d].Directory? && k < |fs[d].entries|
    ensures forall i | 0 <= i < |files| :: |files[i].path| > |path|
    decreases d, 0
  {
    assert WellFormedDirectory(fs, d);
    var entry := fs[d].entries[k];
    var child, childPath := entry.inode, path + [entry.name];
    if !AcceptFile(fs, child) then []
    else if fs[child].Regular? then [Found(childPath, fs[child].size)]
    else ListRecursively(fs, child, childPath)
  }

  // ----- What the traversal should find -----

  /** The inode that a path below d names when no link is followed. */
  function Walk(fs: FileSystem, d: nat, path: seq<string>): (end: Option<nat>)
    requires WellFormed(fs) && d < |fs|
    ensures end.Some? ==> end.value < |fs|
    decreases |path|
  {
    if path == [] then Some(d)
    else if !fs[d].Directory? then None
    else
      assert WellFormedDirectory(fs, d);
      match EntryNamed(fs[d].entries, path[0])
      case None => None
      case Some(k) => Walk(fs, fs[d].entries[k].inode, path[1..])
  }

  function EntryNamed(entries: seq<Entry>, name: string): (k: Option<nat>)
    ensures k.Some? ==> k.value < |entries| && entries[k.value].name == name
    ensures k.None? ==> forall i | 0 <= i < |entries| :: entries[i].name != name
  {
    if entries == [] then None
    else if entries[|entries| - 1].name == name then Some(|entries| - 1)
    else EntryNamed(entries[..|entries| - 1], name)
  }

  /** Every inode of the chain but the last is a link to the next one, and the last is a directory. */
  predicate LinksToDirectory(fs: FileSystem, chain: seq<nat>) {
    && chain != []
    && (forall k | 0 <= k < |chain| - 1 :: chain[k] < |fs| && fs[chain[k]] == Link(chain[k + 1]))
    && chain[|chain| - 1] < |fs| && fs[chain[|chain| - 1]].Directory?
  }

  /** An entry `exaudf` is a directory or leads to one over at most 40 links. */
  ghost predicate Pruned(fs: FileSystem, d: nat)
    requires d < |fs| && fs[d].Directory?
  {
    exists i, chain :: HoldsUdfs(fs, d, i, chain)
  }

  predicate HoldsUdfs(fs: FileSystem, d: nat, i: nat, chain: seq<nat>)
    requires d < |fs| && fs[d].Directory?
  {
    && i < |fs[d].entries| && fs[d].entries[i].name == "exaudf"
    && LinksToDirectory(fs, chain) && chain[0] == fs[d].entries[i].inode && |chain| <= 41
  }

  lemma {:induction false} ResolvesOverChain(fs: FileSystem, chain: seq<nat>, links: nat)
    requires LinksToDirectory(fs, chain) && |chain| <= links + 1
    ensures Resolve(fs, chain[0], links) == Some(chain[|chain| - 1])
    decreases links
  {
    if |chain| > 1 {
      ResolvesOverChain(fs, chain[1..], links - 1);
    }
  }

  lemma {:induction false} ChainOf(fs: FileSystem, i: nat, links: nat) returns (chain: seq<nat>)
    requires var end := Resolve(fs, i, links); end.Some? && end.value < |fs| && fs[end.value].Directory?
    ensures LinksToDirectory(fs, chain) && chain[0] == i && |chain| <= links + 1
    decreases links
  {
    chain := [i];
    if fs[i].Link? {
      var rest := ChainOf(fs, fs[i].target, links - 1);
      chain := [i] + rest;
    }
  }

  /** The test of the script prunes exactly these directories. */
  lemma PruningIsExact(fs: FileSystem, d: nat)
    requires d < |fs| && fs[d].Directory?
    ensures HasUdfDirectory(fs, d) <==> Pruned(fs, d)
  {
    if HasUdfDirectory(fs, d) {
      var i :| 0 <= i < |fs[d].entries| && fs[d].entries[i].name == "exaudf" && IsDirectory(fs, fs[d].entries[i].inode);
      var chain := ChainOf(fs, fs[d].entries[i].inode, MAX_LINKS);
      assert HoldsUdfs(fs, d, i, chain);
    }
    if Pruned(fs, d) {
      var i: nat, chain: seq<nat> :| HoldsUdfs(fs, d, i, chain);
      ResolvesOverChain(fs, chain, MAX_LINKS);
      assert IsDirectory(fs, fs[d].entries[i].inode);
    }
  }

  /** The directory reached by the first n names is readable and, unless it is the root, not pruned. */
  ghost predicate Open(fs: FileSystem, root: nat, path: seq<string>, n: nat)
    requires WellFormed(fs) && root < |fs| && n <= |path|
  {
    var d := Walk(fs, root, path[..n]);
    && d.Some? && fs[d.value].Directory? && fs[d.value].readable
    && (n > 0 ==> !Pruned(fs, d.value))
  }

  /** A regular file of that size lies at the path and every directory on the way is open. */
  ghost predicate Listable(fs: FileSystem, root: nat, file: Found)
    requires WellFormed(fs) && root < |fs|
  {
    && file.path != []
    && Walk(fs, root, file.path).Some?
    && fs[Walk(fs, root, file.path).value] == Regular(file.size)
    && forall n | 0 <= n < |file.path| :: Open(fs, root, file.path, n)
  }

  /** Listable, decided from the first name on. */
  lemma {:induction false} ListableStep(fs: FileSystem, d: nat, file: Found, k: nat)
    requires WellFormed(fs) && d < |fs| && fs[d].Directory? && fs[d].readable
    requires file.path != [] && EntryNamed(fs[d].entries, file.path[0]) == Some(k)
    ensures var child := fs[d].entries[k].inode;
            child < |fs| &&
            (Listable(fs, d, file) <==>
               if |file.path| == 1 then fs[child] == Regular(file.size)
               else fs[child].Directory? && !Pruned(fs, child)
                    && Listable(fs, child, Found(file.path[1..], file.size)))
  {
    assert WellFormedDirectory(fs, d);
    var path, child := file.path, fs[d].entries[k].inode;
    var rest := path[1..];
    assert Walk(fs, d, path) == Walk(fs, child, rest);
    assert Open(fs, d, path, 0);
    if |path| > 1 {
      assert rest[..0] == [] && Walk(fs, child, rest[..0]) == Some(child);
      forall n | 0 < n <= |rest|
        ensures Open(fs, d, path, n) <==> Open(fs, child, rest, n - 1) && (n == 1 ==> !Pruned(fs, child))
      {
        assert path[..n][1..] == rest[..n - 1] && path[..n][0] == path[0];
      }
      if Listable(fs, d, file) {
        assert Open(fs, d, path, 1);
        forall n | 0 <= n < |rest| ensures Open(fs, child, rest, n) {
          assert Open(fs, d, path, n + 1);
        }
        assert Listable(fs, child, Found(rest, file.size));
      }
      if fs[child].Directory? && !Pruned(fs, child) && Listable(fs, child, Found(rest, file.size)) {
        forall n | 0 < n < |path| ensures Open(fs, d, path, n) {
          assert Open(fs, child, rest, n - 1);
        }
        assert Listable(fs, d, file);
      }
    } else {
      assert rest == [];
    }
  }

  predicate Below(file: Found, prefix: seq<string>) {
    |prefix| < |file.path| && file.path[..|prefix|] == prefix
  }

  function Under(file: Found, prefix: seq<string>): Found
    requires |prefix| <= |file.path|
  {
    Found(file.path[|prefix|..], file.size)
  }

  /** One entry contributes exactly the listable files whose next name is its own. */
  lemma {:induction false} EntryExact(fs: FileSystem, d: nat, k: nat, prefix: seq<string>, file: Found)
    requires WellFormed(fs) && d < |fs| && fs[d].Directory? && fs[d].readable && k < |fs[d].entries|
    ensures file in ListEntry(fs, d, k, prefix) <==>
              Below(file, prefix) && file.path[|prefix|] == fs[d].entries[k].name && Listable(fs, d, Under(file, prefix))
    decreases d, 0
  {
    assert WellFormedDirectory(fs, d);
    var entry := fs[d].entries[k];
    var child, childPath := entry.inode, prefix + [entry.name];
    assert EntryNamed(fs[d].entries, entry.name) == Some(k);
    if Below(file, prefix) && file.path[|prefix|] == entry.name {
      ListableStep(fs, d, Under(file, prefix), k);
      assert file.path[..|prefix| + 1] == childPath;
      assert Under(file, prefix).path[1..] == file.path[|prefix| + 1..];
      if |file.path| == |prefix| + 1 {
        assert file.path == childPath;
      }
    }
    if fs[child].Directory? {
      PruningIsExact(fs, child);
    }
    hide HasUdfDirectory, Pruned;
    if AcceptFile(fs, child) && fs[child].Directory? {
      TraversalExactBelow(fs, child, childPath, file);
      if Below(file, childPath) {
        assert file.path[..|prefix|] == childPath[..|prefix|] == prefix;
        assert file.path[|prefix|] == childPath[|prefix|];
      }
    }
  }

  lemma {:induction false} FromExact(fs: FileSystem, d: nat, k: nat, prefix: seq<string>, file: Found)
    requires WellFormed(fs) && d < |fs| && fs[d].Directory? && fs[d].readable && k <= |fs[d].entries|
    ensures file in ListFrom(fs, d, k, prefix) <==>
              && Below(file, prefix) && Listable(fs, d, Under(file, prefix))
              && exists i :: k <= i < |fs[d].entries| && fs[d].entries[i].name == file.path[|prefix|]
    decreases d, |fs[d].entries| - k + 1
  {
    if k < |fs[d].entries| {
      EntryExact(fs, d, k, prefix, file);
      FromExact(fs, d, k + 1, prefix, file);
    }
  }

  lemma {:induction false} TraversalExactBelow(fs: FileSystem, d: nat, prefix: seq<string>, file: Found)
    requires WellFormed(fs) && d < |fs| && fs[d].Directory?
    ensures file in ListRecursively(fs, d, prefix) <==> Below(file, prefix) && Listable(fs, d, Under(file, prefix))
    decreases d, |fs[d].entries| + 2
  {
    if fs[d].readable {
      FromExact(fs, d, 0, prefix, file);
      if Below(file, prefix) && Listable(fs, d, Under(file, prefix)) {
        var names := Under(file, prefix).path;
        assert names[0] == file.path[|prefix|];
        assert EntryNamed(fs[d].entries, names[0]).Some?;
      }
    } else if Below(file, prefix) {
      assert !Open(fs, d, Under(file, prefix).path, 0);
    }
  }

  /** The traversal finds exactly the regular files below the root for which no directory strictly
      below the root on the way has a subdirectory `exaudf`. It terminates although links may form
      cycles, because it never descends through a link. */
  lemma TraversalExact(fs: FileSystem, root: nat, file: Found)
    requires WellFormed(fs) && root < |fs| && fs[root].Directory?
    ensures file in ListRecursively(fs, root, []) <==> Listable(fs, root, file)
  {
    TraversalExactBelow(fs, root, [], file);
    assert Under(file, []) == file;
  }

  ghost predicate DistinctPaths(files: seq<Found>) {
    forall i, j | 0 <= i < j < |files| :: files[i].path != files[j].path
  }

  lemma {:induction false} EntryOnce(fs: FileSystem, d: nat, k: nat, prefix: seq<string>)
    requires WellFormed(fs) && d < |fs| && fs[d].Directory? && fs[d].readable && k < |fs[d].entries|
    ensures DistinctPaths(ListEntry(fs, d, k, prefix))
    decreases d, 0
  {
    assert WellFormedDirectory(fs, d);
    var child := fs[d].entries[k].inode;
    if AcceptFile(fs, child) && fs[child].Directory? {
      EachFileOnce(fs, child, prefix + [fs[d].entries[k].name]);
    }
  }

  lemma {:induction false} FromOnce(fs: FileSystem, d: nat, k: nat, prefix: seq<string>)
    requires WellFormed(fs) && d < |fs| && fs[d].Directory? && fs[d].readable && k <= |fs[d].entries|
    ensures DistinctPaths(ListFrom(fs, d, k, prefix))
    decreases d, |fs[d].entries| - k + 1
  {
    assert WellFormedDirectory(fs, d);
    if k < |fs[d].entries| {
      EntryOnce(fs, d, k, prefix);
      FromOnce(fs, d, k + 1, prefix);
      var own, others := ListEntry(fs, d, k, prefix), ListFrom(fs, d, k + 1, prefix);
      forall i, j | 0 <= i < |own| && 0 <= j < |others| ensures own[i].path != others[j].path {
        EntryExact(fs, d, k, prefix, own[i]);
        FromExact(fs, d, k + 1, prefix, others[j]);
      }
    }
  }

  /** No file is found twice. */
  lemma {:induction false} EachFileOnce(fs: FileSystem, d: nat, prefix: seq<string>)
    requires WellFormed(fs) && d < |fs| && fs[d].Directory?
    ensures DistinctPaths(ListRecursively(fs, d, prefix))
    decreases d, |fs[d].entries| + 2
  {
    if fs[d].readable {
      FromOnce(fs, d, 0, prefix);
    }
  }

  // ----- The rows the script emits -----

  /** A row of the script's result. */
  datatype BfsFile = BfsFile(name: string, path: string, size: int)

  /** The names a path object keeps: neither empty nor a single dot. */
  function Kept(parts: seq<string>): seq<string> {
    if parts == [] then []
    else (if parts[0] == "" || parts[0] == "." then [] else [parts[0]]) + Kept(parts[1..])
  }

  /** What a path object prints in front of the first name: exactly two leading slashes stay two, any
      other number of them counts as one. */
  function Anchor(path: string): string {
    if path == "" || path[0] != '/' then ""
    else if |path| > 1 && path[1] == '/' && (|path| == 2 || path[2] != '/') then "//"
    else "/"
  }

  /** The names below the root as the path object prints them. */
  function AbsolutePath(root: string, names: seq<string>): string {
    Anchor(root) + Join(Kept(Split(root, '/')) + names, "/")
  }

  function Emitted(root: string, file: Found): BfsFile
    requires file.path != []
  {
    BfsFile(file.path[|file.path| - 1], AbsolutePath(root, file.path), file.size)
  }

  /** The row for each found file, in the order of the traversal. */
  function EmittedRows(fs: FileSystem, root: nat, path: string): (rows: seq<BfsFile>)
    requires WellFormed(fs) && root < |fs| && fs[root].Directory?
  {
    var files := ListRecursively(fs, root, []);
    seq(|files|, i requires 0 <= i < |files| => Emitted(path, files[i]))
  }

  class UdfContext {
    const path: string
    var emitted: seq<BfsFile>

    constructor (path: string)
      ensures this.path == path && emitted == []
    {
      this.path := path;
      emitted := [];
    }

    method Emit(row: BfsFile)
      modifies this
      ensures emitted == old(emitted) + [row]
    {
      emitted := emitted + [row];
    }
  }

  /** Emits one row per found file; `root` is the directory that the context's path names. */
  method Run(fs: FileSystem, root: nat, ctx: UdfContext) returns (failed: Option<string>)
    requires WellFormed(fs) && root < |fs| && fs[root].Directory?
    modifies ctx
    ensures failed.Some? <==> ctx.path == ""
    ensures ctx.emitted == old(ctx.emitted) + if failed.Some? then [] else EmittedRows(fs, root, ctx.path)
    ensures failed.None? ==>
              forall row :: row in ctx.emitted[|old(ctx.emitted)|..] <==> exists file :: Listable(fs, root, file) && RowOf(ctx.path, file, row)
  {
    hide Listable, RowOf, AbsolutePath, WellFormed;
    if ctx.path == "" {
      return Some("Argument 'path' not defined");
    }
    var files := ListRecursively(fs, root, []);
    ghost var rows := EmittedRows(fs, root, ctx.path);
    for i := 0 to |files|
      invariant ctx.emitted == old(ctx.emitted) + rows[..i]
    {
      TraversalExact(fs, root, files[i]);
      assert rows[..i + 1] == rows[..i] + [rows[i]];
      ctx.Emit(Emitted(ctx.path, files[i]));
    }
    assert rows[..|files|] == rows;
    RowsExact(fs, root, ctx.path);
    assert ctx.emitted[|old(ctx.emitted)|..] == rows;
    return None;
  }

  lemma {:induction false} KeptIsApart(parts: seq<string>)
    requires Apart(parts, '/')
    ensures Apart(Kept(parts), '/')
  {
    if parts != [] {
      KeptIsApart(parts[1..]);
    }
  }

  lemma {:induction false} WalkedNames(fs: FileSystem, d: nat, path: seq<string>)
    requires WellFormed(fs) && d < |fs| && Walk(fs, d, path).Some?
    ensures Apart(path, '/')
    decreases |path|
  {
    if path != [] {
      assert WellFormedDirectory(fs, d);
      var k := EntryNamed(fs[d].entries, path[0]).value;
      WalkedNames(fs, fs[d].entries[k].inode, path[1..]);
    }
  }

  /** The row gives the file's own name and size, and its path, read behind the anchor of the base path
      and split at the slashes, is the base path's names followed by the file's. */
  predicate RowOf(base: string, file: Found, row: BfsFile) {
    && file.path != [] && row.name == file.path[|file.path| - 1] && row.size == file.size
    && Anchor(base) <= row.path
    && Split(row.path[|Anchor(base)|..], '/') == Kept(Split(base, '/')) + file.path
  }

  lemma EmittedIsRow(fs: FileSystem, root: nat, base: string, file: Found)
    requires WellFormed(fs) && root < |fs| && Listable(fs, root, file)
    ensures RowOf(base, file, Emitted(base, file))
  {
    hide Anchor, Split, Open;
    WalkedNames(fs, root, file.path);
    KeptIsApart(Split(base, '/'));
    var names := Kept(Split(base, '/')) + file.path;
    SplitJoined(names, '/');
    assert Emitted(base, file).path[|Anchor(base)|..] == Join(names, "/");
  }

  /** A base path as configured: names behind single slashes, none of them empty or a dot, and then
      any number of slashes; slashes alone must not be exactly two. */
  predicate IsBase(base: string, n: nat) {
    && n <= |base| && base != "" && base[0] == '/' && (n == 0 ==> |base| != 2)
    && (forall k | n <= k < |base| :: base[k] == '/')
    && (n > 0 ==> forall i | 0 <= i < |Split(base[1..n], '/')| :: Split(base[1..n], '/')[i] !in ["", "."])
  }

  lemma {:induction false} KeptAll(parts: seq<string>)
    requires forall i | 0 <= i < |parts| :: parts[i] !in ["", "."]
    ensures Kept(parts) == parts
  {
    if parts != [] {
      KeptAll(parts[1..]);
    }
  }

  lemma {:induction false} KeptAppend(parts: seq<string>, last: string)
    ensures Kept(parts + [last]) == Kept(parts) + (if last == "" || last == "." then [] else [last])
  {
    if parts != [] {
      assert (parts + [last])[1..] == parts[1..] + [last];
      KeptAppend(parts[1..], last);
    } else {
      assert [] + [last] == [last];
    }
  }

  lemma SplitSlash(s: string)
    ensures Split(s + "/", '/') == Split(s, '/') + [""]
  {
    var parts := Split(s, '/');
    JoinAppend(parts, "", "/");
    assert s + "/" + "" == s + "/";
    SplitJoined(parts + [""], '/');
  }

  lemma SlashInFront(s: string)
    ensures Split("/" + s, '/') == [""] + Split(s, '/')
  {
    var parts := [""] + Split(s, '/');
    assert parts[1..] == Split(s, '/');
    SplitJoined(parts, '/');
  }

  /** The names of a base path are those between its slashes, however many slashes end it. */
  lemma {:induction false} NamesOfBase(base: string, n: nat)
    requires n <= |base| && (forall k | n <= k < |base| :: base[k] == '/')
    ensures Kept(Split(base, '/')) == Kept(Split(base[..n], '/'))
    decreases |base|
  {
    if n == |base| {
      assert base[..n] == base;
    } else {
      var front := base[..|base| - 1];
      assert base == front + "/" && front[..n] == base[..n];
      NamesOfBase(front, n);
      SplitSlash(front);
      KeptAppend(Split(front, '/'), "");
    }
  }

  lemma AnchorOfBase(base: string, n: nat)
    requires IsBase(base, n)
    ensures Anchor(base) == "/"
  {
    if n > 0 {
      var s := base[1..n];
      var parts := Split(s, '/');
      assert parts[0] != "" && parts[0] == s[..IndexOf(s, '/')];
      assert s[0] == base[1];
    }
  }

  lemma {:induction false} JoinBehind(parts: seq<string>, more: seq<string>, separator: string)
    requires parts != [] && more != []
    ensures Join(parts + more, separator) == Join(parts, separator) + separator + Join(more, separator)
  {
    assert (parts + more)[1..] == parts[1..] + more;
    if |parts| > 1 {
      JoinBehind(parts[1..], more, separator);
    }
  }

  lemma BaseNames(base: string, n: nat)
    requires IsBase(base, n)
    ensures Kept(Split(base, '/')) == if n == 0 then [] else Split(base[1..n], '/')
  {
    NamesOfBase(base, n);
    if n == 0 {
      assert base[..0] == "" && Kept([""]) == [];
    } else {
      var s := base[1..n];
      var parts := Split(s, '/');
      hide IndexOf, Split;
      assert base[..n] == "/" + s;
      SlashInFront(s);
      assert ([""] + parts)[1..] == parts && [] + Kept(parts) == Kept(parts);
      KeptAll(parts);
    }
  }

  lemma SplitBehind(s: string, parts: seq<string>, names: seq<string>)
    requires Split(s, '/') == parts + names && names != []
    ensures Split(Join(names, "/"), '/') == names
    ensures s == if parts == [] then Join(names, "/") else Join(parts, "/") + "/" + Join(names, "/")
  {
    var all := parts + names;
    assert Apart(all, '/') && Join(all, "/") == s;
    hide Split;
    assert forall i | 0 <= i < |names| :: all[|parts| + i] == names[i];
    SplitJoined(names, '/');
    if parts != [] {
      JoinBehind(parts, names, "/");
    } else {
      assert [] + names == names;
    }
  }

  lemma PathBehind(path: string, start: string, parts: seq<string>, names: seq<string>)
    requires path != "" && path[0] == '/' && names != []
    requires start == if parts == [] then "" else "/" + Join(parts, "/")
    requires Split(path[1..], '/') == parts + names
    ensures |start| + 1 <= |path| && path[..|start| + 1] == start + "/" && Split(path[|start| + 1..], '/') == names
  {
    hide Split, Join;
    SplitBehind(path[1..], parts, names);
    var rest := Join(names, "/");
    assert path == "/" + path[1..];
    if parts != [] {
      assert path == "/" + (Join(parts, "/") + "/" + rest) == "/" + Join(parts, "/") + "/" + rest;
    }
    assert path == start + "/" + rest;
    assert path[|start| + 1..] == rest;
  }

  /** Every row's path is the base path without its trailing slashes, a slash, and the names that lead
      from the root to the file. */
  lemma RowUnderBase(base: string, n: nat, file: Found, row: BfsFile)
    requires IsBase(base, n) && RowOf(base, file, row)
    ensures n + 1 <= |row.path| && row.path[..n + 1] == base[..n] + "/" && Split(row.path[n + 1..], '/') == file.path
  {
    hide Split, Anchor, Join, Kept;
    AnchorOfBase(base, n);
    BaseNames(base, n);
    assert row.path[0] == Anchor(base)[0];
    if n == 0 {
      PathBehind(row.path, base[..n], [], file.path);
    } else {
      assert base[..n] == "/" + base[1..n];
      PathBehind(row.path, base[..n], Split(base[1..n], '/'), file.path);
    }
  }

  /** The rows are exactly those of the listable files, and no two of them carry the same path. */
  lemma RowsExact(fs: FileSystem, root: nat, path: string)
    requires WellFormed(fs) && root < |fs| && fs[root].Directory?
    ensures forall i, j | 0 <= i < j < |EmittedRows(fs, root, path)| :: EmittedRows(fs, root, path)[i].path != EmittedRows(fs, root, path)[j].path
    ensures forall row :: row in EmittedRows(fs, root, path) <==> exists file :: Listable(fs, root, file) && RowOf(path, file, row)
  {
    hide RowOf, Emitted, Listable, ListRecursively, WellFormed;
    var files, rows := ListRecursively(fs, root, []), EmittedRows(fs, root, path);
    forall i | 0 <= i < |files| ensures Listable(fs, root, files[i]) && RowOf(path, files[i], rows[i]) {
      TraversalExact(fs, root, files[i]);
      EmittedIsRow(fs, root, path, files[i]);
    }
    EachFileOnce(fs, root, []);
    forall i, j | 0 <= i < j < |rows| ensures rows[i].path != rows[j].path {
      SamePathSameFile(path, files[i], files[j], rows[i], rows[j]);
    }
    forall file, row | Listable(fs, root, file) && RowOf(path, file, row) ensures row in rows {
      TraversalExact(fs, root, file);
      EmittedIsRow(fs, root, path, file);
      RowDetermined(path, file, row, Emitted(path, file));
      var i :| 0 <= i < |files| && files[i] == file;
      assert rows[i] == row;
    }
  }

  lemma SamePathSameFile(base: string, file: Found, file': Found, row: BfsFile, row': BfsFile)
    requires RowOf(base, file, row) && RowOf(base, file', row')
    ensures row.path == row'.path ==> file.path == file'.path
  {
    hide Split, Anchor, Kept;
    if row.path == row'.path {
      var k := |Kept(Split(base, '/'))|;
      var all := Split(row.path[|Anchor(base)|..], '/');
      assert all[k..] == file.path && all[k..] == file'.path;
    }
  }

  lemma RowDetermined(base: string, file: Found, row: BfsFile, other: BfsFile)
    requires RowOf(base, file, row) && RowOf(base, file, other)
    ensures row == other
  {
    var n := |Anchor(base)|;
    assert row.path == row.path[..n] + row.path[n..] && other.path == other.path[..n] + other.path[n..];
    assert Join(Split(row.path[n..], '/'), "/") == row.path[n..];
  }
}
