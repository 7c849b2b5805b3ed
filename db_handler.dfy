/**
 * `save_transactions`: a batch of Banksalad transactions is renamed to the table's
 * English columns, tagged with its owner, its date and time normalised to text, and then
 * stored by a range replace: this owner's rows dated within the batch's own first and
 * last date are deleted and the batch is appended.
 */
module DbHandler {
  import opened Wrappers
  import opened Text
  import opened Dates
  import opened Sorting
  import opened Frames

  const DefaultOwner: string := "공동"

  /** Banksalad's Korean column labels and the table columns they are renamed to. */
  const Mapping: seq<(string, string)> := [
    ("날짜", "date"), ("시간", "time"), ("타입", "tx_type"), ("대분류", "category_1"),
    ("소분류", "category_2"), ("내용", "description"), ("금액", "amount"),
    ("화폐", "currency"), ("결제수단", "source"), ("메모", "memo")]

  /** The columns of the `transactions` table that a save writes (id and created_at aside). */
  datatype Col =
    | DateCol | TimeCol | TxType | Category1 | Category2 | Description | Amount
    | Currency | Source | Memo | OwnerCol

  function Name(c: Col): string {
    match c
    case DateCol => "date"
    case TimeCol => "time"
    case TxType => "tx_type"
    case Category1 => "category_1"
    case Category2 => "category_2"
    case Description => "description"
    case Amount => "amount"
    case Currency => "currency"
    case Source => "source"
    case Memo => "memo"
    case OwnerCol => "owner"
  }

  /** The mapped column names and then `owner`: the only columns that are stored. */
  const ValidColumns: seq<Col> := [
    DateCol, TimeCol, TxType, Category1, Category2, Description, Amount,
    Currency, Source, Memo, OwnerCol]

  lemma ValidColumnsAreMappingValues()
    ensures |ValidColumns| == |Mapping| + 1
    ensures forall i :: 0 <= i < |Mapping| ==> Name(ValidColumns[i]) == Mapping[i].1
    ensures ValidColumns[|Mapping|] == OwnerCol
    ensures forall c: Col :: c in ValidColumns
  {
    forall c: Col ensures c in ValidColumns {
      match c
      case DateCol => assert ValidColumns[0] == c;
      case TimeCol => assert ValidColumns[1] == c;
      case TxType => assert ValidColumns[2] == c;
      case Category1 => assert ValidColumns[3] == c;
      case Category2 => assert ValidColumns[4] == c;
      case Description => assert ValidColumns[5] == c;
      case Amount => assert ValidColumns[6] == c;
      case Currency => assert ValidColumns[7] == c;
      case Source => assert ValidColumns[8] == c;
      case Memo => assert ValidColumns[9] == c;
      case OwnerCol => assert ValidColumns[10] == c;
    }
  }

  /** The stored column a label names, if any. */
  function ColOf(c: string): (r: Option<Col>)
    ensures r.Some? ==> Name(r.value) == c
  {
    if c == "date" then Some(DateCol)
    else if c == "time" then Some(TimeCol)
    else if c == "tx_type" then Some(TxType)
    else if c == "category_1" then Some(Category1)
    else if c == "category_2" then Some(Category2)
    else if c == "description" then Some(Description)
    else if c == "amount" then Some(Amount)
    else if c == "currency" then Some(Currency)
    else if c == "source" then Some(Source)
    else if c == "memo" then Some(Memo)
    else if c == "owner" then Some(OwnerCol)
    else None
  }

  function Lookup(m: seq<(string, string)>, c: string): (r: Option<string>)
    ensures r.Some? <==> exists i :: 0 <= i < |m| && m[i].0 == c
  {
    if m == [] then None
    else if m[0].0 == c then Some(m[0].1)
    else
      var r := Lookup(m[1..], c);
      assert forall i :: 1 <= i < |m| ==> m[i] == m[1..][i - 1];
      r
  }

  /** Renaming of one label: mapped labels change, others stay. */
  function Rename(c: string): string {
    Lookup(Mapping, c).GetOr(c)
  }

  function Renamed(cols: seq<string>): (r: seq<string>)
    ensures |r| == |cols|
  {
    seq(|cols|, i requires 0 <= i < |cols| => Rename(cols[i]))
  }

  /** A table row: column to stored value. */
  type Record = map<Col, SqlValue>

  /** A column of the row, NULL when the row has no such column. */
  function Get(r: Record, k: Col): SqlValue {
    if k in r then r[k] else SqlNull
  }

  datatype SaveError = DuplicateColumn | MissingColumn(name: string) | UnparseableDate(row: nat)

  /** The stored `date`: the YYYY-MM-DD text, NULL for NaT. */
  function DateValue(p: Parsed): (v: SqlValue)
    ensures p.At? ==> v == SqlText(IsoDate(p.t.date))
    ensures !p.At? ==> v.SqlNull?
  {
    if p.At? then SqlText(IsoDate(p.t.date)) else SqlNull
  }

  /** The stored `time`: the HH:MM text, and '00:00' for a missing or unparseable time. */
  function TimeValue(p: Parsed): (v: SqlValue)
    ensures v.SqlText? && |v.t| == 5 && v.t[2] == ':'
    ensures p.At? ==> v == SqlText(ClockText(p.t))
    ensures !p.At? ==> v == SqlText("00:00")
  {
    if p.At? then SqlText(ClockText(p.t)) else SqlText("00:00")
  }

  /** The stored value of column `k` of one renamed row. */
  function FieldValue(k: Col, cols: seq<string>, row: seq<Cell>, parse: Cell -> Option<Stamp>, owner: string): SqlValue
    requires |row| == |cols|
  {
    if k == OwnerCol then SqlText(owner)
    else
      match IndexOf(cols, Name(k))
      case None => SqlNull
      case Some(j) =>
        if k == DateCol then DateValue(ToDatetime(parse, row[j]))
        else if k == TimeCol then TimeValue(ToDatetime(parse, row[j]))
        else ToSql(row[j])
  }

  /** One row of `final_df`: the valid columns present after renaming, plus `owner`. */
  function RowRecord(cols: seq<string>, row: seq<Cell>, parse: Cell -> Option<Stamp>, owner: string): (r: Record)
    requires |row| == |cols|
    ensures forall k :: k in r <==> k == OwnerCol || Name(k) in cols
    ensures OwnerCol in r && r[OwnerCol] == SqlText(owner)
    ensures "time" in cols ==> TimeCol in r && r[TimeCol] == TimeValue(ToDatetime(parse, row[IndexOf(cols, "time").value]))
    ensures "date" in cols ==> DateCol in r && r[DateCol] == DateValue(ToDatetime(parse, row[IndexOf(cols, "date").value]))
    ensures forall k :: k in r && k != OwnerCol && k != DateCol && k != TimeCol ==>
      r[k] == ToSql(row[IndexOf(cols, Name(k)).value])
  {
    map k | k in ValidColumns && (k == OwnerCol || Name(k) in cols) :: FieldValue(k, cols, row, parse, owner)
  }

  /** No column that is stored occurs twice among the renamed labels. */
  predicate KeptDistinct(cols: seq<string>) {
    forall i, j :: 0 <= i < j < |cols| && ColOf(cols[i]).Some? ==> cols[i] != cols[j]
  }

  /** The first row whose date pandas cannot parse. */
  function FirstInvalidDate(dates: seq<Cell>, parse: Cell -> Option<Stamp>): (r: Option<nat>)
    ensures r.None? <==> forall i :: 0 <= i < |dates| ==> !ToDatetime(parse, dates[i]).Invalid?
    ensures r.Some? ==> r.value < |dates| && ToDatetime(parse, dates[r.value]).Invalid?
  {
    if dates == [] then None
    else if ToDatetime(parse, dates[0]).Invalid? then Some(0)
    else
      var r := FirstInvalidDate(dates[1..], parse);
      assert forall i :: 1 <= i < |dates| ==> dates[i] == dates[1..][i - 1];
      if r.None? then None else Some(r.value + 1)
  }

  /** Every date of the renamed frame is one pandas can parse (or is missing). */
  predicate DatesParse(df: Frame, parse: Cell -> Option<Stamp>)
    requires WellFormed(df)
  {
    var cols := Renamed(df.columns);
    "date" in cols
    && forall i :: 0 <= i < |df.rows| ==> !ToDatetime(parse, df.rows[i][IndexOf(cols, "date").value]).Invalid?
  }

  /** The cells of the renamed `date` column. */
  function DateCells(df: Frame): seq<Cell>
    requires WellFormed(df) && "date" in Renamed(df.columns)
  {
    Column(Frame(Renamed(df.columns), df.rows), "date").value
  }

  lemma DatesParseFirstInvalid(df: Frame, parse: Cell -> Option<Stamp>)
    requires WellFormed(df) && "date" in Renamed(df.columns)
    ensures DatesParse(df, parse) <==> FirstInvalidDate(DateCells(df), parse).None?
  {
  }

  /**
   * Lines 65-76 of `save_transactions`: the rows as they are handed to `to_sql`, or the
   * exception raised on the way (a missing `date` or `time` column is a KeyError, an
   * unparseable date a ValueError).
   */
  function Normalize(df: Frame, parse: Cell -> Option<Stamp>, owner: string): (r: Result<seq<Record>, SaveError>)
    requires WellFormed(df)
    ensures r.Success? <==> KeptDistinct(Renamed(df.columns)) && DatesParse(df, parse) && "time" in Renamed(df.columns)
    ensures r.Success? ==> |r.value| == |df.rows|
    ensures r.Success? ==> forall i :: 0 <= i < |df.rows| ==>
      r.value[i] == RowRecord(Renamed(df.columns), df.rows[i], parse, owner)
    ensures r.Success? ==> forall i :: 0 <= i < |r.value| ==> Get(r.value[i], OwnerCol) == SqlText(owner)
  {
    var cols := Renamed(df.columns);
    if !KeptDistinct(cols) then Failure(DuplicateColumn)
    else if "date" !in cols then Failure(MissingColumn("date"))
    else
      var bad := FirstInvalidDate(DateCells(df), parse);
      DatesParseFirstInvalid(df, parse);
      if bad.Some? then Failure(UnparseableDate(bad.value))
      else if "time" !in cols then Failure(MissingColumn("time"))
      else Success(RowRecords(cols, df.rows, parse, owner))
  }

  function RowRecords(cols: seq<string>, rows: seq<seq<Cell>>, parse: Cell -> Option<Stamp>, owner: string): (r: seq<Record>)
    requires forall i :: 0 <= i < |rows| ==> |rows[i]| == |cols|
    ensures |r| == |rows|
    ensures forall i :: 0 <= i < |rows| ==> r[i] == RowRecord(cols, rows[i], parse, owner)
    ensures forall i :: 0 <= i < |rows| ==> Get(r[i], OwnerCol) == SqlText(owner)
  {
    seq(|rows|, i requires 0 <= i < |rows| => RowRecord(cols, rows[i], parse, owner))
  }

  // ---------------------------------------------------------------------------
  // The range of the batch

  /** The dates of the rows that carry one, in row order. */
  function DateTexts(batch: seq<Record>): (ts: seq<string>)
    ensures |ts| <= |batch|
  {
    if batch == [] then []
    else
      var last := Get(batch[|batch| - 1], DateCol);
      DateTexts(batch[..|batch| - 1]) + (if last.SqlText? then [last.t] else [])
  }

  lemma {:induction false} DateTextsMembers(batch: seq<Record>)
    ensures forall i :: 0 <= i < |batch| && Get(batch[i], DateCol).SqlText? ==> Get(batch[i], DateCol).t in DateTexts(batch)
    ensures forall t :: t in DateTexts(batch) ==> exists i :: 0 <= i < |batch| && Get(batch[i], DateCol) == SqlText(t)
    ensures DateTexts(batch) == [] <==> forall i :: 0 <= i < |batch| ==> !Get(batch[i], DateCol).SqlText?
  {
    if batch != [] {
      var init := batch[..|batch| - 1];
      DateTextsMembers(init);
      assert forall i :: 0 <= i < |init| ==> init[i] == batch[i];
    }
  }

  /** The least text by string order (`Series.min`). */
  function MinText(ts: seq<string>): (r: string)
    requires ts != []
    ensures r in ts && forall i :: 0 <= i < |ts| ==> StrLe(r, ts[i])
  {
    if |ts| == 1 then (StrLeReflexive(ts[0]); ts[0])
    else
      var m := MinText(ts[1..]);
      MinStep(ts, m);
      if StrLe(ts[0], m) then ts[0] else m
  }

  lemma MinStep(ts: seq<string>, m: string)
    requires |ts| > 1 && m in ts[1..] && forall i :: 0 <= i < |ts| - 1 ==> StrLe(m, ts[1..][i])
    ensures var r := if StrLe(ts[0], m) then ts[0] else m; forall i :: 0 <= i < |ts| ==> StrLe(r, ts[i])
  {
    StrLeReflexive(ts[0]);
    StrLeTotal(ts[0], m);
    forall i | 1 <= i < |ts| ensures StrLe(ts[0], m) ==> StrLe(ts[0], ts[i]) {
      assert ts[i] == ts[1..][i - 1];
      if StrLe(ts[0], m) {
        StrLeTransitive(ts[0], m, ts[i]);
      }
    }
    forall i | 1 <= i < |ts| ensures StrLe(m, ts[i]) {
      assert ts[i] == ts[1..][i - 1];
    }
  }

  /** The greatest text by string order (`Series.max`). */
  function MaxText(ts: seq<string>): (r: string)
    requires ts != []
    ensures r in ts && forall i :: 0 <= i < |ts| ==> StrLe(ts[i], r)
  {
    if |ts| == 1 then (StrLeReflexive(ts[0]); ts[0])
    else
      var m := MaxText(ts[1..]);
      MaxStep(ts, m);
      if StrLe(m, ts[0]) then ts[0] else m
  }

  lemma MaxStep(ts: seq<string>, m: string)
    requires |ts| > 1 && m in ts[1..] && forall i :: 0 <= i < |ts| - 1 ==> StrLe(ts[1..][i], m)
    ensures var r := if StrLe(m, ts[0]) then ts[0] else m; forall i :: 0 <= i < |ts| ==> StrLe(ts[i], r)
  {
    StrLeReflexive(ts[0]);
    StrLeTotal(ts[0], m);
    forall i | 1 <= i < |ts| ensures StrLe(m, ts[0]) ==> StrLe(ts[i], ts[0]) {
      assert ts[i] == ts[1..][i - 1];
      if StrLe(m, ts[0]) {
        StrLeTransitive(ts[i], m, ts[0]);
      }
    }
    forall i | 1 <= i < |ts| ensures StrLe(ts[i], m) {
      assert ts[i] == ts[1..][i - 1];
    }
  }

  /**
   * The least and the greatest stored date of the batch. With no dated row both are NaN, which SQLite
   * binds as NULL, so the DELETE matches nothing: modelled as None.
   */
  function DateBounds(batch: seq<Record>): (r: Option<(string, string)>)
    ensures r.None? <==> forall i :: 0 <= i < |batch| ==> !Get(batch[i], DateCol).SqlText?
    ensures r.Some? ==> forall i :: 0 <= i < |batch| && Get(batch[i], DateCol).SqlText? ==>
      StrLe(r.value.0, Get(batch[i], DateCol).t) && StrLe(Get(batch[i], DateCol).t, r.value.1)
    ensures r.Some? ==> (exists i :: 0 <= i < |batch| && Get(batch[i], DateCol) == SqlText(r.value.0))
    ensures r.Some? ==> (exists j :: 0 <= j < |batch| && Get(batch[j], DateCol) == SqlText(r.value.1))
  {
    DateTextsMembers(batch);
    var ts := DateTexts(batch);
    if ts == [] then None
    else
      var lo, hi := MinText(ts), MaxText(ts);
      assert forall i :: 0 <= i < |batch| && Get(batch[i], DateCol).SqlText? ==>
        exists k :: 0 <= k < |ts| && ts[k] == Get(batch[i], DateCol).t;
      Some((lo, hi))
  }

  // ---------------------------------------------------------------------------
  // The range replace

  /** `date >= lo AND date <= hi` in SQLite: NULL and numbers never lie in a text range. */
  predicate InWindow(v: SqlValue, lo: string, hi: string) {
    !v.SqlNull? && SqlLe(SqlText(lo), v) && SqlLe(v, SqlText(hi))
  }

  /** The DELETE's condition `owner = ? AND date >= ? AND date <= ?`. */
  predicate Hits(r: Record, owner: string, lo: string, hi: string) {
    SqlEq(Get(r, OwnerCol), SqlText(owner)) && InWindow(Get(r, DateCol), lo, hi)
  }

  function Survives(owner: string, lo: string, hi: string): Record -> bool {
    r => !Hits(r, owner, lo, hi)
  }

  function HitBy(owner: string, lo: string, hi: string): Record -> bool {
    r => Hits(r, owner, lo, hi)
  }

  function OwnedBy(owner: string): Record -> bool {
    r => SqlEq(Get(r, OwnerCol), SqlText(owner))
  }

  function Dated(): Record -> bool {
    r => Get(r, DateCol).SqlText?
  }

  function Undated(): Record -> bool {
    r => !Get(r, DateCol).SqlText?
  }

  /** `to_sql(if_exists='append')` fills the table columns the frame lacks with NULL. */
  function Stored(r: Record): Record {
    map k | k in ValidColumns :: Get(r, k)
  }

  function StoredRows(batch: seq<Record>): (s: seq<Record>)
    ensures |s| == |batch|
    ensures forall i :: 0 <= i < |batch| ==> s[i] == Stored(batch[i])
  {
    seq(|batch|, i requires 0 <= i < |batch| => Stored(batch[i]))
  }

  /** The table after the DELETE of lines 88-89. */
  function Kept(table: seq<Record>, batch: seq<Record>, owner: string): seq<Record> {
    match DateBounds(batch)
    case None => table
    case Some((lo, hi)) => Filter(table, Survives(owner, lo, hi))
  }

  /** The table after the DELETE and the append of lines 88-92. */
  function RangeReplace(table: seq<Record>, batch: seq<Record>, owner: string): seq<Record> {
    Kept(table, batch, owner) + StoredRows(batch)
  }

  /** Rows of a batch tagged with `owner` that carry a date fall in the batch's own range. */
  lemma DatedBatchRowsHit(batch: seq<Record>, owner: string, lo: string, hi: string)
    requires DateBounds(batch) == Some((lo, hi))
    requires forall i :: 0 <= i < |batch| ==> Get(batch[i], OwnerCol) == SqlText(owner)
    ensures forall i :: 0 <= i < |batch| ==> (Hits(Stored(batch[i]), owner, lo, hi) <==> Get(batch[i], DateCol).SqlText?)
  {
    forall i | 0 <= i < |batch|
      ensures Hits(Stored(batch[i]), owner, lo, hi) <==> Get(batch[i], DateCol).SqlText?
    {
      HitRow(batch[i], owner, lo, hi);
    }
  }

  lemma HitRow(r: Record, owner: string, lo: string, hi: string)
    requires Get(r, OwnerCol) == SqlText(owner)
    requires Get(r, DateCol).SqlText? ==> StrLe(lo, Get(r, DateCol).t) && StrLe(Get(r, DateCol).t, hi)
    ensures Hits(Stored(r), owner, lo, hi) <==> Get(r, DateCol).SqlText?
  {
    assert Get(Stored(r), OwnerCol) == Get(r, OwnerCol);
    assert Get(Stored(r), DateCol) == Get(r, DateCol);
  }

  /** After the save, this owner's rows dated within the range are exactly the batch's dated rows. */
  lemma RangeHoldsExactlyBatch(table: seq<Record>, batch: seq<Record>, owner: string, lo: string, hi: string)
    requires DateBounds(batch) == Some((lo, hi))
    requires forall i :: 0 <= i < |batch| ==> Get(batch[i], OwnerCol) == SqlText(owner)
    ensures Filter(RangeReplace(table, batch, owner), HitBy(owner, lo, hi)) == Filter(StoredRows(batch), Dated())
  {
    var sb := StoredRows(batch);
    DatedBatchRowsHit(batch, owner, lo, hi);
    FilterAppend(Filter(table, Survives(owner, lo, hi)), sb, HitBy(owner, lo, hi));
    FilterFilterDisjoint(table, HitBy(owner, lo, hi), Survives(owner, lo, hi));
    FilterAgree(sb, HitBy(owner, lo, hi), Dated());
  }

  /** Rows outside the range are the old rows outside it plus the batch rows without a date. */
  lemma OutsideRangeUnchanged(table: seq<Record>, batch: seq<Record>, owner: string, lo: string, hi: string)
    requires DateBounds(batch) == Some((lo, hi))
    requires forall i :: 0 <= i < |batch| ==> Get(batch[i], OwnerCol) == SqlText(owner)
    ensures Filter(RangeReplace(table, batch, owner), Survives(owner, lo, hi))
      == Filter(table, Survives(owner, lo, hi)) + Filter(StoredRows(batch), Undated())
  {
    var sb := StoredRows(batch);
    var keep := Survives(owner, lo, hi);
    DatedBatchRowsHit(batch, owner, lo, hi);
    FilterAppend(Filter(table, keep), sb, keep);
    FilterFilterImplied(table, keep, keep);
    FilterAgree(sb, keep, Undated());
  }

  /** Rows of every other owner are left exactly as they were, in the same order. */
  lemma OtherOwnersUnchanged(table: seq<Record>, batch: seq<Record>, owner: string, other: string)
    requires other != owner
    requires forall i :: 0 <= i < |batch| ==> Get(batch[i], OwnerCol) == SqlText(owner)
    ensures Filter(RangeReplace(table, batch, owner), OwnedBy(other)) == Filter(table, OwnedBy(other))
  {
    var sb := StoredRows(batch);
    FilterNone(sb, OwnedBy(other));
    FilterAppend(table, sb, OwnedBy(other));
    match DateBounds(batch)
    case None =>
    case Some((lo, hi)) =>
      var t := Filter(table, Survives(owner, lo, hi));
      FilterAppend(t, sb, OwnedBy(other));
      FilterFilterImplied(table, OwnedBy(other), Survives(owner, lo, hi));
  }

  /**
   * Saving the same batch a second time deletes the first copy of every dated row and
   * keeps the first copy of every undated one.
   */
  lemma SaveTwice(table: seq<Record>, batch: seq<Record>, owner: string)
    requires forall i :: 0 <= i < |batch| ==> Get(batch[i], OwnerCol) == SqlText(owner)
    ensures RangeReplace(RangeReplace(table, batch, owner), batch, owner)
      == Kept(table, batch, owner) + Filter(StoredRows(batch), Undated()) + StoredRows(batch)
  {
    var sb := StoredRows(batch);
    match DateBounds(batch)
    case None =>
      FilterAll(sb, Undated());
    case Some((lo, hi)) =>
      var keep := Survives(owner, lo, hi);
      var t := Filter(table, keep);
      DatedBatchRowsHit(batch, owner, lo, hi);
      FilterAppend(t, sb, keep);
      FilterFilterImplied(table, keep, keep);
      FilterAgree(sb, keep, Undated());
  }

  /** Hence a batch whose rows all carry a date can be saved twice with the effect of once. */
  lemma SaveTwiceDated(table: seq<Record>, batch: seq<Record>, owner: string)
    requires forall i :: 0 <= i < |batch| ==> Get(batch[i], OwnerCol) == SqlText(owner)
    requires forall i :: 0 <= i < |batch| ==> Get(batch[i], DateCol).SqlText?
    ensures RangeReplace(RangeReplace(table, batch, owner), batch, owner) == RangeReplace(table, batch, owner)
  {
    SaveTwice(table, batch, owner);
    FilterNone(StoredRows(batch), Undated());
    assert Kept(table, batch, owner) + [] == Kept(table, batch, owner);
  }

  /** ... while every undated row is stored once more on each save. */
  lemma SaveTwiceUndated(table: seq<Record>, batch: seq<Record>, owner: string)
    requires forall i :: 0 <= i < |batch| ==> Get(batch[i], OwnerCol) == SqlText(owner)
    ensures |RangeReplace(RangeReplace(table, batch, owner), batch, owner)|
      == |RangeReplace(table, batch, owner)| + |Filter(StoredRows(batch), Undated())|
  {
    SaveTwice(table, batch, owner);
  }

  /** Stored dates are `YYYY-MM-DD` texts, so the text range selects exactly a date range. */
  lemma WindowIsDateRange(d: Date, lo: Date, hi: Date)
    requires ValidDate(d) && ValidDate(lo) && ValidDate(hi)
    ensures InWindow(SqlText(IsoDate(d)), IsoDate(lo), IsoDate(hi)) <==> NotAfter(lo, d) && NotAfter(d, hi)
  {
    IsoDateOrder(lo, d);
    IsoDateOrder(d, hi);
  }

  /** The `transactions` table, its rows in insertion order (the id and timestamp columns are left out). */
  class TransactionTable {
    var rows: seq<Record>

    constructor()
      ensures rows == []
    {
      rows := [];
    }

    /**
     * `save_transactions(df, owner)`. On an exception nothing is deleted or appended; on
     * success the table is the range replace of the old table by the normalised batch.
     */
    method SaveTransactions(df: Frame, parse: Cell -> Option<Stamp>, owner: string := DefaultOwner)
      returns (err: Option<SaveError>)
      requires WellFormed(df)
      modifies this
      ensures err.Some? <==> Normalize(df, parse, owner).Failure?
      ensures err.Some? ==> err.value == Normalize(df, parse, owner).error && rows == old(rows)
      ensures err.None? ==> rows == RangeReplace(old(rows), Normalize(df, parse, owner).value, owner)
    {
      var normalized := Normalize(df, parse, owner);
      if normalized.Failure? {
        return Some(normalized.error);
      }
      var batch := normalized.value;
      var bounds := DateBounds(batch);
      if bounds.Some? {
        Delete(owner, bounds.value.0, bounds.value.1);
      }
      Append(batch);
      return None;
    }

    /** `DELETE FROM transactions WHERE owner = ? AND date >= ? AND date <= ?`. */
    method Delete(owner: string, lo: string, hi: string)
      modifies this
      ensures rows == Filter(old(rows), Survives(owner, lo, hi))
    {
      var kept: seq<Record> := [];
      var i := 0;
      while i < |rows|
        invariant 0 <= i <= |rows|
        invariant kept == Filter(rows[..i], Survives(owner, lo, hi))
      {
        assert rows[..i + 1][..i] == rows[..i];
        if !Hits(rows[i], owner, lo, hi) {
          kept := kept + [rows[i]];
        }
        i := i + 1;
      }
      assert rows[..i] == rows;
      rows := kept;
    }

    /** The append of the normalised batch to the `transactions` table. */
    method Append(batch: seq<Record>)
      modifies this
      ensures rows == old(rows) + StoredRows(batch)
    {
      var j := 0;
      while j < |batch|
        invariant 0 <= j <= |batch|
        invariant rows == old(rows) + StoredRows(batch[..j])
      {
        assert StoredRows(batch[..j + 1]) == StoredRows(batch[..j]) + [Stored(batch[j])];
        rows := rows + [Stored(batch[j])];
        j := j + 1;
      }
      assert batch[..j] == batch;
    }
  }
}
