/**
 * The older ledger store: `save_to_db` appends the incoming rows that do not repeat an
 * existing row on the four key columns 날짜, 시간, 내용 and 금액, and `load_from_db`
 * reads the ledger newest first.
 */
module Database {
  import opened Wrappers
  import opened Text
  import opened Sorting
  import opened Frames

  /** A SQLite table: its column names and its rows, each a value per column by position. */
  datatype Table = Table(columns: seq<string>, rows: seq<seq<SqlValue>>)

  predicate Rectangular(t: Table) {
    forall i :: 0 <= i < |t.rows| ==> |t.rows[i]| == |t.columns|
  }

  /** The columns the duplicate test compares: date, time, description and amount. */
  const KeyColumns: seq<string> := ["날짜", "시간", "내용", "금액"]

  datatype DbError = DuplicateColumns | InsertRejected

  /**
   * SQLite takes two column names for the same column when they differ only in ASCII
   * case, so `to_sql` refuses a frame whose labels repeat in that sense.
   */
  predicate DistinctIdentifiers(cols: seq<string>) {
    forall i, j :: 0 <= i < j < |cols| ==> FoldAscii(cols[i]) != FoldAscii(cols[j])
  }

  /** Labels SQLite accepts are distinct as texts too. */
  lemma IdentifiersDistinct(cols: seq<string>)
    requires DistinctIdentifiers(cols)
    ensures Distinct(cols)
  {
  }

  /** Labels that differ only in case are distinct texts that SQLite still refuses. */
  lemma CaseVariantsClash()
    ensures Distinct(["Memo", "memo"]) && !DistinctIdentifiers(["Memo", "memo"])
  {
    var labels := ["Memo", "memo"];
    assert FoldAscii(labels[0]) == "memo" == FoldAscii(labels[1]);
    assert labels[0][0] != labels[1][0];
  }

  /** The positions of the key columns among `cols`, None when one is missing. */
  function KeyIndexes(cols: seq<string>): (r: Option<seq<nat>>)
    ensures r.None? <==> "날짜" !in cols || "시간" !in cols || "내용" !in cols || "금액" !in cols
    ensures r.Some? ==> |r.value| == |KeyColumns|
    ensures r.Some? ==> forall k :: 0 <= k < |KeyColumns| ==> r.value[k] < |cols| && cols[r.value[k]] == KeyColumns[k]
  {
    var d, t, n, a := IndexOf(cols, "날짜"), IndexOf(cols, "시간"), IndexOf(cols, "내용"), IndexOf(cols, "금액");
    if d.None? || t.None? || n.None? || a.None? then None
    else Some([d.value, t.value, n.value, a.value])
  }

  /** The value at position `i`, NULL beyond the end of the row. */
  function At(row: seq<SqlValue>, i: nat): SqlValue {
    if i < |row| then row[i] else SqlNull
  }

  /**
   * The join condition of the duplicate test:
   * every key column is equal under SQL equality.
   */
  predicate SameKey(existing: seq<SqlValue>, li: seq<nat>, incoming: seq<SqlValue>, ti: seq<nat>)
    requires |li| == |KeyColumns| && |ti| == |KeyColumns|
  {
    forall k :: 0 <= k < |KeyColumns| ==> SqlEq(At(existing, li[k]), At(incoming, ti[k]))
  }

  /** Some existing row repeats `incoming` on the key columns: the NOT EXISTS subquery is false. */
  predicate Repeated(existing: seq<seq<SqlValue>>, li: seq<nat>, incoming: seq<SqlValue>, ti: seq<nat>)
    requires |li| == |KeyColumns| && |ti| == |KeyColumns|
  {
    exists j :: 0 <= j < |existing| && SameKey(existing[j], li, incoming, ti)
  }

  function IsNew(existing: seq<seq<SqlValue>>, li: seq<nat>, ti: seq<nat>): seq<SqlValue> -> bool
    requires |li| == |KeyColumns| && |ti| == |KeyColumns|
  {
    x => !Repeated(existing, li, x, ti)
  }

  /**
   * The rows the insert-unless-present statement adds to the ledger.
   * SQLite evaluates the SELECT before it inserts, so every incoming row is compared
   * against the ledger as it was before the statement.
   */
  function Inserted(existing: seq<seq<SqlValue>>, li: seq<nat>, incoming: seq<seq<SqlValue>>, ti: seq<nat>): seq<seq<SqlValue>>
    requires |li| == |KeyColumns| && |ti| == |KeyColumns|
  {
    Filter(incoming, IsNew(existing, li, ti))
  }

  /** An incoming row is added, as often as it comes, exactly when no existing row repeats it. */
  lemma InsertedExactlyNew(existing: seq<seq<SqlValue>>, li: seq<nat>, incoming: seq<seq<SqlValue>>, ti: seq<nat>, x: seq<SqlValue>)
    requires |li| == |KeyColumns| && |ti| == |KeyColumns|
    ensures multiset(Inserted(existing, li, incoming, ti))[x] ==
      if Repeated(existing, li, x, ti) then 0 else multiset(incoming)[x]
  {
    FilterMultiset(incoming, IsNew(existing, li, ti), x);
  }

  /** A row with a NULL key value repeats nothing, so it is added on every run. */
  lemma NullKeyNeverRepeats(existing: seq<seq<SqlValue>>, li: seq<nat>, x: seq<SqlValue>, ti: seq<nat>, k: nat)
    requires |li| == |KeyColumns| && |ti| == |KeyColumns|
    requires k < |KeyColumns| && At(x, ti[k]).SqlNull?
    ensures !Repeated(existing, li, x, ti)
  {
    forall j | 0 <= j < |existing| ensures !SameKey(existing[j], li, x, ti) {
      SqlEqNeverNull(At(existing[j], li[k]), At(x, ti[k]));
    }
  }

  predicate NoNullKey(x: seq<SqlValue>, ti: seq<nat>)
    requires |ti| == |KeyColumns|
  {
    forall k :: 0 <= k < |KeyColumns| ==> !At(x, ti[k]).SqlNull?
  }

  /**
   * Running the same insert again, when the key columns sit at the same positions in
   * both tables and no incoming key value is NULL, adds nothing.
   */
  lemma RerunInsertsNothing(existing: seq<seq<SqlValue>>, incoming: seq<seq<SqlValue>>, ix: seq<nat>)
    requires |ix| == |KeyColumns|
    requires forall i :: 0 <= i < |incoming| ==> NoNullKey(incoming[i], ix)
    ensures Inserted(existing + Inserted(existing, ix, incoming, ix), ix, incoming, ix) == []
  {
    var first := Inserted(existing, ix, incoming, ix);
    var after := existing + first;
    forall i | 0 <= i < |incoming| ensures !IsNew(after, ix, ix)(incoming[i]) {
      var x := incoming[i];
      if Repeated(existing, ix, x, ix) {
        var j :| 0 <= j < |existing| && SameKey(existing[j], ix, x, ix);
        assert after[j] == existing[j];
      } else {
        InsertedExactlyNew(existing, ix, incoming, ix, x);
        assert x in multiset(incoming) by { assert incoming[i] == x; }
        assert x in first;
        var j :| 0 <= j < |first| && first[j] == x;
        assert after[|existing| + j] == x;
        assert SameKey(x, ix, x, ix) by {
          forall k | 0 <= k < |KeyColumns| ensures SqlEq(At(x, ix[k]), At(x, ix[k])) {
            SqlEqNeverNull(At(x, ix[k]), At(x, ix[k]));
          }
        }
      }
    }
    FilterNone(incoming, IsNew(after, ix, ix));
  }

  // ---------------------------------------------------------------------------
  // Reading the ledger

  /** The sort key `(날짜, 시간)` of a row, whose columns sit at `d` and `t`. */
  function SortKey(d: nat, t: nat): seq<SqlValue> -> (SqlValue, SqlValue) {
    row => (At(row, d), At(row, t))
  }

  /** `ORDER BY 날짜 DESC, 시간 DESC`: `a` may come before `b`. */
  predicate NewestFirst(a: (SqlValue, SqlValue), b: (SqlValue, SqlValue)) {
    SqlLe(b.0, a.0) && (SqlLe(a.0, b.0) ==> SqlLe(b.1, a.1))
  }

  lemma NewestFirstTotalPreorder()
    ensures TotalPreorder(NewestFirst)
  {
    forall a: (SqlValue, SqlValue), b: (SqlValue, SqlValue) ensures NewestFirst(a, b) || NewestFirst(b, a) {
      SqlLeTotal(a.0, b.0);
      SqlLeTotal(a.1, b.1);
    }
    forall a: (SqlValue, SqlValue), b: (SqlValue, SqlValue), c: (SqlValue, SqlValue)
      ensures Chain(NewestFirst, a, b, c)
    {
      if NewestFirst(a, b) && NewestFirst(b, c) {
        SqlLeTransitive(c.0, b.0, a.0);
        if SqlLe(a.0, c.0) {
          SqlLeTransitive(a.0, c.0, b.0);
          SqlLeAntisymmetric(a.0, b.0);
          SqlLeAntisymmetric(b.0, c.0);
          SqlLeTransitive(c.1, b.1, a.1);
        }
      }
    }
  }

  /** The caller's DataFrame, whose column labels `save_to_db` rewrites. */
  class DataFrameRef {
    var columns: seq<string>
    var rows: seq<seq<Cell>>

    constructor(columns: seq<string>, rows: seq<seq<Cell>>)
      ensures this.columns == columns && this.rows == rows
    {
      this.columns := columns;
      this.rows := rows;
    }

    /** Strips the whitespace around every column label, in place. */
    method StripColumns()
      modifies this
      ensures |columns| == |old(columns)|
      ensures forall i :: 0 <= i < |columns| ==> columns[i] == Strip(old(columns)[i])
      ensures rows == old(rows)
    {
      var stripped: seq<string> := [];
      var i := 0;
      while i < |columns|
        invariant 0 <= i <= |columns|
        invariant |stripped| == i
        invariant forall k :: 0 <= k < i ==> stripped[k] == Strip(columns[k])
      {
        stripped := stripped + [Strip(columns[i])];
        i := i + 1;
      }
      columns := stripped;
    }
  }

  /** The database file `money_vault.db` with its `ledger` and `temp_ledger` tables. */
  class LegacyLedger {
    var fileExists: bool
    var ledger: Option<Table>
    var temp: Option<Table>

    ghost predicate Valid()
      reads this
    {
      && (ledger.Some? ==> Rectangular(ledger.value))
      && (temp.Some? ==> Rectangular(temp.value))
    }

    constructor()
      ensures Valid() && !fileExists && ledger.None? && temp.None?
    {
      fileExists := false;
      ledger := None;
      temp := None;
    }

    /**
     * `save_to_db(df)`. The labels are stripped in place; `temp_ledger` is replaced by the
     * frame; `ledger` is created empty with those columns if it is missing; then the
     * frame's new rows are appended. When the statement is rejected (a key column is
     * missing, or the column counts differ) no row is added. Existing rows are never
     * changed or removed. With labels that repeat up to ASCII case the old `temp_ledger`
     * is dropped before its replacement is refused, so neither remains.
     */
    method SaveToDb(df: DataFrameRef) returns (err: Option<DbError>)
      requires Valid()
      requires forall i :: 0 <= i < |df.rows| ==> |df.rows[i]| == |df.columns|
      modifies this, df
      ensures Valid() && fileExists
      ensures df.rows == old(df.rows) && |df.columns| == |old(df.columns)|
      ensures forall i :: 0 <= i < |df.columns| ==> df.columns[i] == Strip(old(df.columns)[i])
      ensures err == Some(DuplicateColumns) <==> !DistinctIdentifiers(df.columns)
      ensures err == Some(DuplicateColumns) ==> ledger == old(ledger) && temp.None?
      ensures err != Some(DuplicateColumns) ==>
        && temp == Some(Table(df.columns, SqlRows(df.rows)))
        && ledger.Some?
        && ledger.value.columns == (if old(ledger).Some? then old(ledger).value.columns else df.columns)
      ensures ledger.Some? && old(ledger).Some? ==>
        |ledger.value.rows| >= |old(ledger).value.rows|
        && ledger.value.rows[..|old(ledger).value.rows|] == old(ledger).value.rows
      ensures err.None? ==>
        var before := if old(ledger).Some? then old(ledger).value.rows else [];
        && KeyIndexes(ledger.value.columns).Some? && KeyIndexes(df.columns).Some?
        && ledger.value.rows == before + Inserted(before, KeyIndexes(ledger.value.columns).value, SqlRows(df.rows), KeyIndexes(df.columns).value)
      ensures err == Some(InsertRejected) ==>
        ledger.value.rows == (if old(ledger).Some? then old(ledger).value.rows else [])
    {
      fileExists := true;
      df.StripColumns();
      SqlRowsRectangular(df.columns, df.rows);
      err := WriteTable(Table(df.columns, SqlRows(df.rows)));
    }

    /**
     * `to_sql('temp_ledger', if_exists='replace')` and the statements after it, on the
     * stripped frame as a table: refused when two labels fold to the same name.
     */
    method WriteTable(incoming: Table) returns (err: Option<DbError>)
      requires Valid() && Rectangular(incoming)
      modifies this
      ensures Valid() && fileExists == old(fileExists)
      ensures err == Some(DuplicateColumns) <==> !DistinctIdentifiers(incoming.columns)
      ensures err == Some(DuplicateColumns) ==> ledger == old(ledger) && temp.None?
      ensures err != Some(DuplicateColumns) ==>
        && temp == Some(incoming)
        && ledger.Some?
        && ledger.value.columns == (if old(ledger).Some? then old(ledger).value.columns else incoming.columns)
      ensures ledger.Some? && old(ledger).Some? ==>
        |ledger.value.rows| >= |old(ledger).value.rows|
        && ledger.value.rows[..|old(ledger).value.rows|] == old(ledger).value.rows
      ensures err.None? ==>
        var before := if old(ledger).Some? then old(ledger).value.rows else [];
        && KeyIndexes(ledger.value.columns).Some? && KeyIndexes(incoming.columns).Some?
        && ledger.value.rows == before + Inserted(before, KeyIndexes(ledger.value.columns).value, incoming.rows, KeyIndexes(incoming.columns).value)
      ensures err == Some(InsertRejected) ==>
        ledger.value.rows == (if old(ledger).Some? then old(ledger).value.rows else [])
    {
      if !DistinctIdentifiers(incoming.columns) {
        temp := None;
        return Some(DuplicateColumns);
      }
      temp := Some(incoming);
      err := InsertNew(incoming);
    }

    /**
     * The two statements after the frame is written: `ledger` is created empty with the
     * frame's columns when missing, then the rows of `incoming` no ledger row repeats
     * are appended, unless the statement is rejected.
     */
    method InsertNew(incoming: Table) returns (err: Option<DbError>)
      requires Valid() && Rectangular(incoming)
      modifies this
      ensures Valid() && fileExists == old(fileExists) && temp == old(temp)
      ensures err != Some(DuplicateColumns) && ledger.Some?
      ensures ledger.value.columns == (if old(ledger).Some? then old(ledger).value.columns else incoming.columns)
      ensures old(ledger).Some? ==>
        |ledger.value.rows| >= |old(ledger).value.rows|
        && ledger.value.rows[..|old(ledger).value.rows|] == old(ledger).value.rows
      ensures err.None? ==>
        var before := if old(ledger).Some? then old(ledger).value.rows else [];
        && KeyIndexes(ledger.value.columns).Some? && KeyIndexes(incoming.columns).Some?
        && ledger.value.rows == before + Inserted(before, KeyIndexes(ledger.value.columns).value, incoming.rows, KeyIndexes(incoming.columns).value)
      ensures err == Some(InsertRejected) ==>
        ledger.value.rows == (if old(ledger).Some? then old(ledger).value.rows else [])
    {
      if ledger.None? {
        ledger := Some(Table(incoming.columns, []));
      }
      var target := ledger.value;
      var li, ti := KeyIndexes(target.columns), KeyIndexes(incoming.columns);
      if li.None? || ti.None? || |target.columns| != |incoming.columns| {
        assert target.rows[..|target.rows|] == target.rows;
        return Some(InsertRejected);
      }
      var added := SelectNew(target.rows, li.value, incoming.rows, ti.value, |target.columns|);
      AppendRectangular(target, added);
      ledger := Some(Table(target.columns, target.rows + added));
      assert ledger.value.rows[..|target.rows|] == target.rows;
      return None;
    }

    /**
     * `load_from_db()`: None when the file is missing or the query fails (no ledger, or
     * no 날짜 or 시간 column); otherwise the ledger's rows, newest first.
     */
    method LoadFromDb() returns (r: Option<Table>)
      ensures !fileExists || ledger.None? ==> r.None?
      ensures r.None? && fileExists && ledger.Some? ==>
        "날짜" !in ledger.value.columns || "시간" !in ledger.value.columns
      ensures r.Some? ==> ledger.Some? && r.value.columns == ledger.value.columns
      ensures r.Some? ==> "날짜" in ledger.value.columns && "시간" in ledger.value.columns
      ensures r.Some? ==> multiset(r.value.rows) == multiset(ledger.value.rows)
      ensures r.Some? ==> SortedBy(r.value.rows,
        SortKey(IndexOf(ledger.value.columns, "날짜").value, IndexOf(ledger.value.columns, "시간").value), NewestFirst)
    {
      if !fileExists || ledger.None? {
        return None;
      }
      var t := ledger.value;
      var d, h := IndexOf(t.columns, "날짜"), IndexOf(t.columns, "시간");
      if d.None? || h.None? {
        return None;
      }
      var key := SortKey(d.value, h.value);
      NewestFirstTotalPreorder();
      SortByPermutes(t.rows, key, NewestFirst);
      SortBySorted(t.rows, key, NewestFirst);
      return Some(Table(t.columns, SortBy(t.rows, key, NewestFirst)));
    }
  }

  /**
   * The SELECT of the insert, row by row: the incoming rows that no existing row repeats,
   * in their order.
   */
  method SelectNew(existing: seq<seq<SqlValue>>, li: seq<nat>, incoming: seq<seq<SqlValue>>, ti: seq<nat>, width: nat)
    returns (added: seq<seq<SqlValue>>)
    requires |li| == |KeyColumns| && |ti| == |KeyColumns|
    requires forall i :: 0 <= i < |incoming| ==> |incoming[i]| == width
    ensures added == Inserted(existing, li, incoming, ti)
    ensures forall k :: 0 <= k < |added| ==> |added[k]| == width
  {
    added := [];
    var i := 0;
    while i < |incoming|
      invariant 0 <= i <= |incoming|
      invariant added == Filter(incoming[..i], IsNew(existing, li, ti))
      invariant forall k :: 0 <= k < |added| ==> |added[k]| == width
    {
      assert incoming[..i + 1][..i] == incoming[..i];
      if !Repeated(existing, li, incoming[i], ti) {
        added := added + [incoming[i]];
      }
      i := i + 1;
    }
    assert incoming[..i] == incoming;
  }

  lemma SqlRowsRectangular(columns: seq<string>, rows: seq<seq<Cell>>)
    requires forall i :: 0 <= i < |rows| ==> |rows[i]| == |columns|
    ensures Rectangular(Table(columns, SqlRows(rows)))
  {
  }

  lemma AppendRectangular(t: Table, added: seq<seq<SqlValue>>)
    requires Rectangular(t)
    requires forall k :: 0 <= k < |added| ==> |added[k]| == |t.columns|
    ensures Rectangular(Table(t.columns, t.rows + added))
  {
  }

  /** `to_sql` of the frame's rows. */
  function SqlRows(rows: seq<seq<Cell>>): (r: seq<seq<SqlValue>>)
    ensures |r| == |rows|
    ensures forall i :: 0 <= i < |rows| ==> |r[i]| == |rows[i]|
    ensures forall i, j :: 0 <= i < |rows| && 0 <= j < |rows[i]| ==> r[i][j] == ToSql(rows[i][j])
  {
    seq(|rows|, i requires 0 <= i < |rows| => seq(|rows[i]|, j requires 0 <= j < |rows[i]| => ToSql(rows[i][j])))
  }
}
