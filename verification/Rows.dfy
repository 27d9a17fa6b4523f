/** Query results: the cursor of the database driver and the row extraction of the SQL client. */
module Rows {
  import opened Text
  import opened Errors

  datatype SqlValue = Null | Str(text: string) | Number(n: int)

  datatype Column = Column(name: string, typeName: string)

  /** What the driver will do with one cursor: the rows it delivers before the iteration ends, and
      the errors, if any, of reading the column types, of scanning the row with a given number, of
      the iteration after the last delivered row, and of closing. */
  datatype Cursor = Cursor(
    columns: seq<Column>,
    columnError: Option<string>,
    rows: seq<seq<SqlValue>>,
    scanError: map<nat, string>,
    iterationError: Option<string>,
    closeError: Option<string>)

  datatype QueryResult = QueryResult(columns: seq<Column>, rows: seq<seq<SqlValue>>)

  /** Row number k can be scanned into as many cells as there are columns. */
  predicate Scannable(cursor: Cursor, k: nat)
    requires k < |cursor.rows|
  {
    k !in cursor.scanError && |cursor.rows[k]| == |cursor.columns|
  }

  /** The query is answered only when nothing at all went wrong from opening to closing. */
  predicate Complete(cursor: Cursor) {
    && cursor.columnError.None?
    && (forall k | 0 <= k < |cursor.rows| :: Scannable(cursor, k))
    && cursor.iterationError.None?
    && cursor.closeError.None?
  }

  /** The first row that cannot be scanned, or the number of rows. */
  function FirstUnscannable(cursor: Cursor, k: nat): (n: nat)
    requires k <= |cursor.rows|
    ensures k <= n <= |cursor.rows|
    ensures forall i | k <= i < n :: Scannable(cursor, i)
    ensures n < |cursor.rows| ==> !Scannable(cursor, n)
    decreases |cursor.rows| - k
  {
    if k == |cursor.rows| || !Scannable(cursor, k) then k else FirstUnscannable(cursor, k + 1)
  }

  function ScanFailure(cursor: Cursor, k: nat): Error
    requires k < |cursor.rows| && !Scannable(cursor, k)
  {
    if k in cursor.scanError then Plain(Other(cursor.scanError[k]))
    else Plain(WrongScanWidth)
  }

  /** The outcome of a query as a function of the cursor. Closing is checked last and its error
      replaces any other one. */
  function Outcome(query: string, cursor: Cursor): Result<QueryResult> {
    var n := FirstUnscannable(cursor, 0);
    if cursor.closeError.Some? then
      Err(Wrapped(ClosingResult, Plain(Other(cursor.closeError.value))))
    else if cursor.columnError.Some? then
      Err(Wrapped(ReadingResult(query), Plain(Other(cursor.columnError.value))))
    else if n < |cursor.rows| then
      Err(Wrapped(ReadingResult(query), ScanFailure(cursor, n)))
    else if cursor.iterationError.Some? then
      Err(Wrapped(IteratingResult, Plain(Other(cursor.iterationError.value))))
    else
      Ok(QueryResult(cursor.columns, cursor.rows))
  }

  /** A query succeeds exactly when its cursor was read to the end and closed without any error,
      and then the answer holds every row in order, each as wide as the column list. */
  lemma QueryIsComplete(query: string, cursor: Cursor)
    ensures Outcome(query, cursor).Ok? <==> Complete(cursor)
    ensures !Outcome(query, cursor).Panic?
    ensures Complete(cursor) ==>
              var answer := Outcome(query, cursor).value;
              && answer.columns == cursor.columns && answer.rows == cursor.rows
              && forall row | row in answer.rows :: |row| == |answer.columns|
  {
    if Complete(cursor) {
      forall row | row in cursor.rows ensures |row| == |cursor.columns| {
        var k :| 0 <= k < |cursor.rows| && cursor.rows[k] == row;
        assert Scannable(cursor, k);
      }
    }
  }

  /** Which error is reported when several things go wrong: that of closing before any other, then that
      of the column types, then that of the first row that cannot be scanned. */
  lemma FirstErrorReported(query: string, cursor: Cursor, k: nat)
    ensures cursor.closeError.Some? ==>
              Outcome(query, cursor) == Err(Wrapped(ClosingResult, Plain(Other(cursor.closeError.value))))
    ensures cursor.closeError.None? && cursor.columnError.Some? ==>
              Outcome(query, cursor) == Err(Wrapped(ReadingResult(query), Plain(Other(cursor.columnError.value))))
    ensures cursor.closeError.None? && cursor.columnError.None?
            && k < |cursor.rows| && !Scannable(cursor, k) && (forall i | 0 <= i < k :: Scannable(cursor, i)) ==>
              Outcome(query, cursor) ==
                Err(Wrapped(ReadingResult(query),
                            Plain(if k in cursor.scanError then Other(cursor.scanError[k]) else WrongScanWidth)))
  {
  }

  /** The cell that a scan destination points to. */
  class Cell {
    var value: SqlValue

    constructor ()
      ensures value == Null
    {
      value := Null;
    }
  }

  /** An open cursor of database/sql. */
  class RowsHandle {
    const script: Cursor
    var next: nat
    var closed: bool
    var lastError: Option<string>

    constructor (script: Cursor)
      ensures this.script == script && next == 0 && !closed && lastError.None?
    {
      this.script := script;
      next, closed, lastError := 0, false, None;
    }

    /** Moves to the next row; the error that ends an iteration early is kept for Err. */
    method Next() returns (more: bool)
      requires next <= |script.rows|
      modifies this
      ensures closed == old(closed)
      ensures more <==> old(next) < |script.rows|
      ensures more ==> next == old(next) + 1 && lastError == old(lastError)
      ensures !more ==> next == old(next) && lastError == script.iterationError
    {
      more := next < |script.rows|;
      if more {
        next := next + 1;
      } else {
        lastError := script.iterationError;
      }
    }

    /** Writes the current row through the pointers in `values`. */
    method Scan(values: array<Cell>) returns (failed: Option<Error>)
      requires 0 < next <= |script.rows|
      requires forall i, j | 0 <= i < j < values.Length :: values[i] != values[j]
      requires values.Length == |script.columns|
      modifies set i | 0 <= i < values.Length :: values[i]
      ensures failed.None? <==> Scannable(script, next - 1)
      ensures failed.Some? ==> failed.value == ScanFailure(script, next - 1)
      ensures failed.None? ==> forall i | 0 <= i < values.Length :: values[i].value == script.rows[next - 1][i]
    {
      var row := script.rows[next - 1];
      if next - 1 in script.scanError {
        return Some(Plain(Other(script.scanError[next - 1])));
      }
      if |row| != values.Length {
        return Some(Plain(WrongScanWidth));
      }
      for k := 0 to |row|
        invariant forall i | 0 <= i < k :: values[i].value == row[i]
      {
        values[k].value := row[k];
      }
      failed := None;
    }

    method Close() returns (failed: Option<string>)
      modifies this
      ensures closed && next == old(next) && lastError == old(lastError) && failed == script.closeError
    {
      closed := true;
      failed := script.closeError;
    }
  }

  /** The rows as the caller sees them: one array object per row. */
  ghost predicate RowsHold(rows: seq<array<SqlValue>>, values: seq<seq<SqlValue>>)
    reads rows
  {
    |rows| == |values| && forall k | 0 <= k < |rows| :: rows[k][..] == values[k]
  }

  ghost predicate Distinct<T>(objects: seq<T>) {
    forall i, j | 0 <= i < j < |objects| :: objects[i] != objects[j]
  }

  /** Copies the scanned cells into an array of their own. */
  method CopyRow(values: array<Cell>) returns (row: array<SqlValue>)
    ensures fresh(row) && row.Length == values.Length
    ensures forall i | 0 <= i < row.Length :: row[i] == values[i].value
  {
    row := new SqlValue[values.Length](_ => Null);
    for i := 0 to values.Length
      invariant forall j | 0 <= j < i :: row[j] == values[j].value
      invariant forall j | 0 <= j < values.Length :: values[j] == old(values[j]) && values[j].value == old(values[j].value)
    {
      row[i] := values[i].value;
    }
  }

  /** Fills the buffer with pointers to new cells. */
  method FreshCells(values: array<Cell>)
    modifies values
    ensures forall i | 0 <= i < values.Length :: fresh(values[i])
    ensures forall i, j | 0 <= i < j < values.Length :: values[i] != values[j]
  {
    for i := 0 to values.Length
      invariant forall j | 0 <= j < i :: fresh(values[j])
      invariant forall j, k | 0 <= j < k < i :: values[j] != values[k]
    {
      values[i] := new Cell();
    }
  }

  method ExtractRows(handle: RowsHandle) returns (rows: seq<array<SqlValue>>, failed: Option<Error>)
    requires handle.next == 0 && handle.lastError.None?
    modifies handle
    ensures handle.closed == old(handle.closed)
    ensures var cursor := handle.script;
            var n := FirstUnscannable(cursor, 0);
            if n < |cursor.rows| then failed == Some(ScanFailure(cursor, n)) && handle.lastError.None?
            else failed.None? && handle.lastError == cursor.iterationError && RowsHold(rows, cursor.rows)
    ensures Distinct(rows) && forall r | r in rows :: fresh(r)
  {
    rows := [];
    var cell := new Cell();
    var values := new Cell[|handle.script.columns|](_ => cell);
    ghost var all := handle.script.rows;
    while true
      invariant handle.next == |rows| <= |all|
      invariant handle.lastError.None? && handle.closed == old(handle.closed)
      invariant forall i | 0 <= i < |rows| :: Scannable(handle.script, i)
      invariant FirstUnscannable(handle.script, 0) == FirstUnscannable(handle.script, |rows|)
      invariant fresh(values) && values.Length == |handle.script.columns|
      invariant forall r | r in rows :: fresh(r)
      invariant Distinct(rows) && RowsHold(rows, all[..|rows|])
      decreases |all| - |rows|
    {
      var more := handle.Next();
      if !more {
        return rows, None;
      }
      FreshCells(values);
      var scanFailed := handle.Scan(values);
      if scanFailed.Some? {
        return [], scanFailed;
      }
      var row := CopyRow(values);
      assert row[..] == all[|rows|];
      assert all[..|rows| + 1] == all[..|rows|] + [all[|rows|]];
      rows := rows + [row];
    }
  }

  /** Runs after every query that got a cursor. */
  method CloseRows(handle: RowsHandle) returns (failed: Option<Error>)
    modifies handle
    ensures handle.closed
    ensures failed == (
              if handle.script.closeError.Some? then Some(Wrapped(ClosingResult, Plain(Other(handle.script.closeError.value))))
              else if old(handle.lastError).Some? then Some(Wrapped(IteratingResult, Plain(Other(old(handle.lastError).value))))
              else None)
  {
    var closeFailed := handle.Close();
    if closeFailed.Some? {
      return Some(Wrapped(ClosingResult, Plain(Other(closeFailed.value))));
    }
    if handle.lastError.Some? {
      return Some(Wrapped(IteratingResult, Plain(Other(handle.lastError.value))));
    }
    return None;
  }

  /** Reads an opened cursor to its end and closes it on every path. The rows handed out are new
      arrays, no two of them the same, so none shares memory with the scan buffer or another row. */
  method ReadAndClose(query: string, handle: RowsHandle)
    returns (failed: Option<Error>, columns: seq<Column>, rows: seq<array<SqlValue>>)
    requires handle.next == 0 && handle.lastError.None?
    modifies handle
    ensures handle.closed
    ensures failed.None? <==> Outcome(query, handle.script).Ok?
    ensures failed.Some? ==> Outcome(query, handle.script) == Err(failed.value) && rows == []
    ensures failed.None? ==>
              && columns == Outcome(query, handle.script).value.columns
              && RowsHold(rows, Outcome(query, handle.script).value.rows)
    ensures Distinct(rows) && forall r | r in rows :: fresh(r)
  {
    columns, rows, failed := [], [], None;
    if handle.script.columnError.Some? {
      failed := Some(Wrapped(ReadingResult(query), Plain(Other(handle.script.columnError.value))));
    } else {
      columns := handle.script.columns;
      rows, failed := ExtractRows(handle);
      if failed.Some? {
        failed := Some(Wrapped(ReadingResult(query), failed.value));
        rows := [];
      }
    }
    var closeFailed := CloseRows(handle);
    if closeFailed.Some? {
      failed, rows := closeFailed, [];
    }
  }
}
