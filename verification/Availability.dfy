/** The two queries over the files in BucketFS and the filter that decides which extensions are shown. */
module Availability {
  import opened Text
  import opened FileTree

  // ----- ORDER BY FULL_PATH -----

  predicate Ordered(files: seq<BfsFile>) {
    forall i, j | 0 <= i < j < |files| :: LessEq(files[i].path, files[j].path)
  }

  /** An answer the database may give for the rows when it sorts them by full path; it is free in
      the order of rows with the same path. */
  ghost predicate IsOrdering(files: seq<BfsFile>, rows: seq<BfsFile>) {
    Ordered(files) && multiset(files) == multiset(rows)
  }

  function Insert(row: BfsFile, files: seq<BfsFile>): seq<BfsFile> {
    if files == [] || LessEq(row.path, files[0].path) then [row] + files
    else [files[0]] + Insert(row, files[1..])
  }

  lemma {:induction false} InsertKeepsAll(row: BfsFile, files: seq<BfsFile>)
    ensures multiset(Insert(row, files)) == multiset(files) + multiset{row}
  {
    hide LessEq;
    if files != [] && !LessEq(row.path, files[0].path) {
      InsertKeepsAll(row, files[1..]);
      assert files == [files[0]] + files[1..];
    }
  }

  /** Everything in the list comes behind the path. */
  predicate Behind(path: string, files: seq<BfsFile>) {
    forall i | 0 <= i < |files| :: LessEq(path, files[i].path)
  }

  lemma OrderedCons(row: BfsFile, files: seq<BfsFile>)
    ensures Ordered([row] + files) <==> Behind(row.path, files) && Ordered(files)
  {
    hide LessEq;
    var all := [row] + files;
    assert all[0] == row && forall i | 0 <= i < |files| :: all[i + 1] == files[i];
    if Ordered(all) {
      forall i | 0 <= i < |files| ensures LessEq(row.path, files[i].path) {
        assert LessEq(all[0].path, all[i + 1].path);
      }
      forall i, j | 0 <= i < j < |files| ensures LessEq(files[i].path, files[j].path) {
        assert LessEq(all[i + 1].path, all[j + 1].path);
      }
    }
    if Behind(row.path, files) && Ordered(files) {
      forall i, j | 0 <= i < j < |all| ensures LessEq(all[i].path, all[j].path) {
        assert all[j] == files[j - 1] && (i > 0 ==> all[i] == files[i - 1]);
      }
    }
  }

  lemma {:induction false} InsertBehind(path: string, row: BfsFile, files: seq<BfsFile>)
    requires Behind(path, files) && LessEq(path, row.path)
    ensures Behind(path, Insert(row, files))
  {
    hide LessEq;
    if files != [] && !LessEq(row.path, files[0].path) {
      InsertBehind(path, row, files[1..]);
    }
  }

  lemma BehindFurther(path: string, row: BfsFile, files: seq<BfsFile>)
    requires LessEq(path, row.path) && Behind(row.path, files)
    ensures Behind(path, files)
  {
    forall i | 0 <= i < |files| ensures LessEq(path, files[i].path) {
      LessEqTransitive(path, row.path, files[i].path);
    }
  }

  lemma {:induction false} InsertOrders(row: BfsFile, files: seq<BfsFile>)
    requires Ordered(files)
    ensures Ordered(Insert(row, files))
  {
    hide LessEq, Ordered, Behind;
    OrderedCons(row, files);
    if files == [] {
      assert Ordered(files) && Behind(row.path, files) by { NothingBehind(row.path); }
    } else {
      assert files == [files[0]] + files[1..];
      OrderedCons(files[0], files[1..]);
      if LessEq(row.path, files[0].path) {
        BehindFurther(row.path, files[0], files[1..]);
        BehindCons(row.path, files[0], files[1..]);
      } else {
        LessEqTotal(row.path, files[0].path);
        InsertOrders(row, files[1..]);
        InsertBehind(files[0].path, row, files[1..]);
        OrderedCons(files[0], Insert(row, files[1..]));
      }
    }
  }

  lemma NothingBehind(path: string)
    ensures Behind(path, [])
  {
  }

  lemma BehindCons(path: string, row: BfsFile, files: seq<BfsFile>)
    requires LessEq(path, row.path) && Behind(path, files)
    ensures Behind(path, [row] + files)
  {
  }

  /** One such answer. */
  function OrderByPath(rows: seq<BfsFile>): (files: seq<BfsFile>)
    ensures IsOrdering(files, rows)
  {
    if rows == [] then []
    else
      var rest := OrderByPath(rows[1..]);
      assert rows == [rows[0]] + rows[1..];
      assert Ordered(Insert(rows[0], rest)) by { InsertOrders(rows[0], rest); }
      assert multiset(Insert(rows[0], rest)) == multiset(rows) by { InsertKeepsAll(rows[0], rest); }
      Insert(rows[0], rest)
  }

  // ----- Listing and lookup -----

  /** The rows that WHERE FILE_NAME = name keeps. */
  function Named(rows: seq<BfsFile>, name: string): seq<BfsFile> {
    if rows == [] then []
    else (if rows[0].name == name then [rows[0]] else []) + Named(rows[1..], name)
  }

  /** The lookup query: filter, sort, and keep the first row. */
  function FindPath(rows: seq<BfsFile>, name: string): Option<string> {
    var matches := OrderByPath(Named(rows, name));
    if matches == [] then None else Some(matches[0].path)
  }

  /** The first entry of a listing with that name. */
  function FirstNamed(files: seq<BfsFile>, name: string): (first: Option<BfsFile>)
    ensures first.Some? ==> first.value in files && first.value.name == name
    ensures first.None? ==> forall i | 0 <= i < |files| :: files[i].name != name
  {
    if files == [] then None
    else if files[0].name == name then Some(files[0])
    else FirstNamed(files[1..], name)
  }

  lemma {:induction false} NamedKeeps(rows: seq<BfsFile>, name: string, row: BfsFile)
    ensures row in Named(rows, name) <==> row in rows && row.name == name
  {
    if rows != [] {
      NamedKeeps(rows[1..], name, row);
      assert rows == [rows[0]] + rows[1..];
    }
  }

  lemma {:induction false} FirstNamedIsLeast(files: seq<BfsFile>, name: string, other: BfsFile)
    requires Ordered(files) && other in files && other.name == name
    ensures FirstNamed(files, name).Some? && LessEq(FirstNamed(files, name).value.path, other.path)
  {
    var n :| 0 <= n < |files| && files[n] == other;
    if files[0].name == name {
      if n == 0 { LessEqTotal(other.path, other.path); }
    } else {
      assert files[1..][n - 1] == other;
      FirstNamedIsLeast(files[1..], name, other);
    }
  }

  /** Whatever order the database gives rows with equal paths, in the listing and in the lookup, the
      lookup finds a name exactly if the listing has it, and returns the path of its first entry
      there, which is the least path with that name. */
  lemma LookupAgrees(rows: seq<BfsFile>, listing: seq<BfsFile>, matches: seq<BfsFile>, name: string)
    requires IsOrdering(listing, rows) && IsOrdering(matches, Named(rows, name))
    ensures matches == [] <==> FirstNamed(listing, name).None?
    ensures matches == [] <==> forall row | row in rows :: row.name != name
    ensures matches != [] ==> matches[0].path == FirstNamed(listing, name).value.path
    ensures matches != [] ==> forall row | row in rows && row.name == name :: LessEq(matches[0].path, row.path)
  {
    assert forall row :: row in listing <==> row in multiset(listing);
    assert forall row :: row in rows <==> row in multiset(rows);
    assert forall row :: row in matches <==> row in multiset(matches);
    assert forall row :: row in Named(rows, name) <==> row in multiset(Named(rows, name));
    forall row | row in rows && row.name == name
      ensures row in matches && LessEq(matches[0].path, row.path) && FirstNamed(listing, name).Some?
    {
      NamedKeeps(rows, name, row);
      assert row in matches;
      var n :| 0 <= n < |matches| && matches[n] == row;
      LessEqTotal(row.path, row.path);
      FirstNamedIsLeast(listing, name, row);
    }
    if matches != [] {
      NamedKeeps(rows, name, matches[0]);
      assert matches[0] in matches;
      FirstNamedIsLeast(listing, name, matches[0]);
      var first := FirstNamed(listing, name).value;
      assert first in rows;
      LessEqAntisymmetric(matches[0].path, first.path);
    }
  }

  // ----- Required files -----

  datatype BucketFsUpload = BucketFsUpload(name: string, fileSize: int, bucketFsFilename: string)

  /** Name and size agree; a negative size in the requirement stands for any size. */
  predicate FileMatches(required: BucketFsUpload, existing: BfsFile) {
    if required.bucketFsFilename != existing.name then false
    else if required.fileSize < 0 then true
    else required.fileSize == existing.size
  }

  /** The file has the required name and, unless the required size is negative, the required size. */
  predicate Meets(u: BucketFsUpload, f: BfsFile) {
    f.name == u.bucketFsFilename && (u.fileSize >= 0 ==> f.size == u.fileSize)
  }

  predicate Available(uploads: seq<BucketFsUpload>, files: set<BfsFile>) {
    forall u | u in uploads :: exists f :: f in files && Meets(u, f)
  }

  method ExistsFileInBfs(files: seq<BfsFile>, required: BucketFsUpload) returns (found: bool)
    ensures found <==> exists k :: 0 <= k < |files| && files[k].name == required.bucketFsFilename
                                   && (required.fileSize < 0 || files[k].size == required.fileSize)
  {
    for i := 0 to |files|
      invariant forall k | 0 <= k < i :: !Meets(required, files[k])
    {
      if FileMatches(required, files[i]) {
        return true;
      }
    }
    return false;
  }

  function AsSet(files: seq<BfsFile>): set<BfsFile> {
    set f | f in files
  }

  method RequiredFilesAvailable(uploads: seq<BucketFsUpload>, files: seq<BfsFile>) returns (available: bool)
    ensures available <==> Available(uploads, AsSet(files))
  {
    for i := 0 to |uploads|
      invariant forall k | 0 <= k < i :: exists f :: f in AsSet(files) && Meets(uploads[k], f)
    {
      var existing := ExistsFileInBfs(files, uploads[i]);
      if !existing {
        assert uploads[i] in uploads;
        return false;
      }
      assert exists f :: f in AsSet(files) && Meets(uploads[i], f) by {
        var k :| 0 <= k < |files| && Meets(uploads[i], files[k]);
        assert files[k] in AsSet(files);
      }
    }
    return true;
  }

  /** More files never make a required file unavailable. */
  lemma AvailableMonotone(uploads: seq<BucketFsUpload>, fewer: set<BfsFile>, more: set<BfsFile>)
    requires fewer <= more && Available(uploads, fewer)
    ensures Available(uploads, more)
  {
  }

  /** When all required files are available in the listing, every one of them can be looked up. */
  lemma AvailableFilesResolve(rows: seq<BfsFile>, uploads: seq<BucketFsUpload>, u: BucketFsUpload)
    requires Available(uploads, AsSet(OrderByPath(rows))) && u in uploads
    ensures FindPath(rows, u.bucketFsFilename).Some?
  {
    var f :| f in AsSet(OrderByPath(rows)) && Meets(u, f);
    LookupAgrees(rows, OrderByPath(rows), OrderByPath(Named(rows, u.bucketFsFilename)), u.bucketFsFilename);
    assert f in multiset(OrderByPath(rows));
    assert f in rows;
  }
}
