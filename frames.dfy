/**
 * The values the ingestion code moves around: cells of a pandas DataFrame, the values
 * SQLite stores, and SQLite's comparison of stored values.
 */
module Frames {
  import opened Wrappers
  import opened Text
  import opened Dates
  import opened Sorting

  /** A pandas Timestamp: a date and a time of day to the microsecond. */
  datatype Stamp = Stamp(date: Date, hour: int, minute: int, second: int, micro: int)

  predicate ValidStamp(t: Stamp) {
    && ValidDate(t.date)
    && 0 <= t.hour < 24 && 0 <= t.minute < 60 && 0 <= t.second < 60
    && 0 <= t.micro < 1000000
  }

  /** A DataFrame cell: missing (NaN, None or NaT), a number, a text or a timestamp. */
  datatype Cell = Missing | Num(n: int) | Str(s: string) | Moment(t: Stamp)

  /** A labelled table of cells, one sequence of cells per row. */
  datatype Frame = Frame(columns: seq<string>, rows: seq<seq<Cell>>)

  /** Every row has one cell per column. */
  predicate WellFormed(f: Frame) {
    forall i :: 0 <= i < |f.rows| ==> |f.rows[i]| == |f.columns|
  }

  predicate Distinct(s: seq<string>) {
    forall i, j :: 0 <= i < j < |s| ==> s[i] != s[j]
  }

  /** The position of the first occurrence of `x` in `s`. */
  function IndexOf(s: seq<string>, x: string): (r: Option<nat>)
    ensures r.None? <==> x !in s
    ensures r.Some? ==> r.value < |s| && s[r.value] == x && x !in s[..r.value]
  {
    if s == [] then None
    else if s[0] == x then Some(0)
    else
      match IndexOf(s[1..], x)
      case None => None
      case Some(i) =>
        assert s[1..][..i] == s[1..i + 1];
        Some(i + 1)
  }

  /** The cells of column `c` (its first occurrence), or None when there is no such column. */
  function Column(f: Frame, c: string): (r: Option<seq<Cell>>)
    requires WellFormed(f)
    ensures r.None? <==> c !in f.columns
    ensures r.Some? ==> |r.value| == |f.rows|
    ensures r.Some? ==> forall i :: 0 <= i < |f.rows| ==> r.value[i] == f.rows[i][IndexOf(f.columns, c).value]
  {
    match IndexOf(f.columns, c)
    case None => None
    case Some(k) => Some(seq(|f.rows|, i requires 0 <= i < |f.rows| => f.rows[i][k]))
  }

  /** `strftime('%H:%M')`. */
  function ClockText(t: Stamp): (s: string)
    ensures |s| == 5 && s[2] == ':'
  {
    Digits(if t.hour < 0 then 0 else t.hour, 2) + ":" + Digits(if t.minute < 0 then 0 else t.minute, 2)
  }

  /** `strftime('%H:%M')` gives back the hour and the minute. */
  lemma ClockTextFields(t: Stamp)
    requires ValidStamp(t)
    ensures AllDigits(ClockText(t)[..2]) && AllDigits(ClockText(t)[3..])
    ensures DigitsValue(ClockText(t)[..2]) == t.hour && DigitsValue(ClockText(t)[3..]) == t.minute
  {
    var s := ClockText(t);
    assert s[..2] == Digits(t.hour, 2) && s[3..] == Digits(t.minute, 2);
    assert Pow10(2) == 100;
    DigitsRoundTrip(t.hour, 2);
    DigitsRoundTrip(t.minute, 2);
  }

  /** The ISO text `YYYY-MM-DD HH:MM:SS[.ffffff]` under which a timestamp is written to SQLite. */
  function StampText(t: Stamp): string {
    var sec := Digits(if t.second < 0 then 0 else t.second, 2);
    IsoDate(t.date) + " " + ClockText(t) + ":" + sec
      + (if t.micro <= 0 then "" else "." + Digits(t.micro, 6))
  }

  /** What `pd.to_datetime` makes of a cell: a timestamp, NaT, or a parse failure. */
  datatype Parsed = At(t: Stamp) | NaT | Invalid

  /**
   * `pd.to_datetime` on one cell. Missing cells give NaT and timestamps stay as they are;
   * how a text or a number is parsed is pandas' business and is the parameter `parse`.
   */
  function ToDatetime(parse: Cell -> Option<Stamp>, c: Cell): Parsed {
    match c
    case Missing => NaT
    case Moment(t) => At(t)
    case _ => if parse(c).Some? then At(parse(c).value) else Invalid
  }

  /** A value SQLite stores: NULL, an integer or a text. */
  datatype SqlValue = SqlNull | SqlInt(i: int) | SqlText(t: string)

  /** How a cell is written to SQLite by `DataFrame.to_sql`. */
  function ToSql(c: Cell): (v: SqlValue)
    ensures v.SqlNull? <==> c.Missing?
  {
    match c
    case Missing => SqlNull
    case Num(n) => SqlInt(n)
    case Str(s) => SqlText(s)
    case Moment(t) => SqlText(StampText(t))
  }

  /** The rank of a storage class in SQLite's sort order: NULL, then numbers, then texts. */
  function ClassRank(v: SqlValue): int {
    match v
    case SqlNull => 0
    case SqlInt(_) => 1
    case SqlText(_) => 2
  }

  /** SQLite's ordering of values (`ORDER BY`, `min`, `<=`), texts by the BINARY collation. */
  predicate SqlLe(a: SqlValue, b: SqlValue) {
    if ClassRank(a) != ClassRank(b) then ClassRank(a) < ClassRank(b)
    else match (a, b)
      case (SqlInt(x), SqlInt(y)) => x <= y
      case (SqlText(x), SqlText(y)) => StrLe(x, y)
      case _ => true
  }

  /** The SQL condition `a = b`: never true when either side is NULL. */
  predicate SqlEq(a: SqlValue, b: SqlValue) {
    !a.SqlNull? && !b.SqlNull? && a == b
  }

  lemma SqlEqNeverNull(a: SqlValue, b: SqlValue)
    ensures a.SqlNull? || b.SqlNull? ==> !SqlEq(a, b)
    ensures !a.SqlNull? ==> SqlEq(a, a)
  {
  }

  lemma SqlLeTotal(a: SqlValue, b: SqlValue)
    ensures SqlLe(a, b) || SqlLe(b, a)
  {
    if a.SqlText? && b.SqlText? {
      StrLeTotal(a.t, b.t);
    }
  }

  lemma SqlLeTransitive(a: SqlValue, b: SqlValue, c: SqlValue)
    requires SqlLe(a, b) && SqlLe(b, c)
    ensures SqlLe(a, c)
  {
    if a.SqlText? && b.SqlText? && c.SqlText? {
      StrLeTransitive(a.t, b.t, c.t);
    }
  }

  lemma SqlLeAntisymmetric(a: SqlValue, b: SqlValue)
    requires SqlLe(a, b) && SqlLe(b, a)
    ensures a == b
  {
    if a.SqlText? && b.SqlText? {
      StrLeAntisymmetric(a.t, b.t);
    }
  }

  /** SQLite's value order is a total order. */
  lemma SqlLeTotalPreorder()
    ensures TotalPreorder(SqlLe)
  {
    forall a, b ensures SqlLe(a, b) || SqlLe(b, a) {
      SqlLeTotal(a, b);
    }
    forall a, b, c ensures Chain(SqlLe, a, b, c) {
      if SqlLe(a, b) && SqlLe(b, c) {
        SqlLeTransitive(a, b, c);
      }
    }
  }
}
