/**
 * `process_uploaded_zip`: pick the transaction sheet out of a Banksalad ZIP archive,
 * read it, coerce its 금액 (amount) column to numbers, and map every failure to a
 * message; and `format_df_for_display`: the display copy of a frame with dates as
 * `YYYY-MM-DD` and times as `HH:MM`.
 */
module FileHandler {
  import opened Wrappers
  import opened Text
  import opened Dates
  import opened Sorting
  import opened Frames

  const NoTableMessage: string := "ZIP 파일 내에 엑셀/CSV 파일이 없습니다."
  const PasswordMessage: string := "비밀번호가 틀렸거나 파일 형식이 잘못되었습니다."
  const ErrorPrefix: string := "파일 처리 중 오류 발생: "

  /** An exception out of the archive or the readers: a RuntimeError, or any other, with its text. */
  datatype Exc = RuntimeErr | OtherErr(text: string)

  /** A member name ending in .csv or .xlsx, case-sensitive. */
  predicate IsTableName(f: string) {
    EndsWith(f, ".csv") || EndsWith(f, ".xlsx")
  }

  function TableName(): string -> bool {
    f => IsTableName(f)
  }

  /** The position of the first member name with a table suffix. */
  function FirstTable(names: seq<string>): (r: Option<nat>)
    ensures r.None? <==> forall i :: 0 <= i < |names| ==> !IsTableName(names[i])
    ensures r.Some? ==> r.value < |names| && IsTableName(names[r.value])
    ensures r.Some? ==> forall j :: 0 <= j < r.value ==> !IsTableName(names[j])
  {
    if names == [] then None
    else if IsTableName(names[0]) then Some(0)
    else
      var r := FirstTable(names[1..]);
      assert forall i :: 1 <= i < |names| ==> names[i] == names[1..][i - 1];
      if r.None? then None else Some(r.value + 1)
  }

  /** `target_files[0]` is the first member, in listing order, whose name ends in .csv or .xlsx. */
  lemma {:induction false} TargetIsFirstTable(names: seq<string>)
    ensures Filter(names, TableName()) == [] <==> FirstTable(names).None?
    ensures FirstTable(names).Some? ==> Filter(names, TableName())[0] == names[FirstTable(names).value]
  {
    if names != [] {
      var init, last := names[..|names| - 1], names[|names| - 1];
      TargetIsFirstTable(init);
      assert forall i :: 0 <= i < |init| ==> init[i] == names[i];
      if FirstTable(init).Some? {
        assert FirstTable(names) == FirstTable(init) by { FirstTableAgrees(names, init); }
      } else {
        assert FirstTable(names).Some? <==> IsTableName(last) by { FirstTableAgrees(names, init); }
      }
    }
  }

  /** The first table name of a sequence is the first of its prefix, if the prefix has one. */
  lemma FirstTableAgrees(names: seq<string>, init: seq<string>)
    requires names != [] && init == names[..|names| - 1]
    ensures FirstTable(init).Some? ==> FirstTable(names) == FirstTable(init)
    ensures FirstTable(init).None? ==> (FirstTable(names).Some? <==> IsTableName(names[|names| - 1]))
    ensures FirstTable(init).None? && FirstTable(names).Some? ==> FirstTable(names).value == |names| - 1
  {
    var a, b := FirstTable(init), FirstTable(names);
    assert forall i :: 0 <= i < |init| ==> init[i] == names[i];
    if a.Some? {
      assert b.Some?;
      assert !(b.value < a.value) && !(a.value < b.value);
    }
  }

  /** The suffix test is case-sensitive: upper-case suffixes are not picked. */
  lemma SuffixIsCaseSensitive()
    ensures IsTableName("2024.csv") && IsTableName("가계부.xlsx")
    ensures !IsTableName("2024.CSV") && !IsTableName("가계부.XLSX") && !IsTableName("가계부.xls")
  {
    assert "2024.CSV"[4..] == ".CSV";
    assert "가계부.XLSX"[3..] == ".XLSX";
    assert "가계부.xls"[4..] == "xls" && "가계부.xls"[5..] == "ls";
    assert "2024.csv"[4..] == ".csv";
    assert "가계부.xlsx"[3..] == ".xlsx";
  }

  // ---------------------------------------------------------------------------
  // Amount coercion

  /** An optional sign and at least one decimal digit: the integer texts `pd.to_numeric` reads. */
  function IntegerText(s: string): (r: Option<int>)
    ensures s != [] && AllDigits(s) ==> r == Some(DigitsValue(s) as int)
    ensures |s| >= 2 && s[0] == '-' && AllDigits(s[1..]) ==> r == Some(0 - DigitsValue(s[1..]) as int)
    ensures r.Some? ==> s != [] && AllDigits(s[1..])
  {
    if s != [] && AllDigits(s) then Some(DigitsValue(s))
    else if |s| >= 2 && s[0] == '-' && AllDigits(s[1..]) then Some(0 - DigitsValue(s[1..]))
    else if |s| >= 2 && s[0] == '+' && AllDigits(s[1..]) then Some(DigitsValue(s[1..]))
    else None
  }

  /** Numeric coercion of one amount cell, with 0 for anything that does not convert. */
  function CoerceAmount(c: Cell): (r: Cell)
    ensures r.Num?
    ensures c.Num? ==> r == c
    ensures c.Str? && IntegerText(c.s).Some? ==> r == Num(IntegerText(c.s).value)
    ensures !c.Num? && !(c.Str? && IntegerText(c.s).Some?) ==> r == Num(0)
  {
    match c
    case Num(_) => c
    case Str(s) => if IntegerText(s).Some? then Num(IntegerText(s).value) else Num(0)
    case _ => Num(0)
  }

  /** The frame with every cell of column position `j` replaced by `f` of it. */
  function MapColumn(df: Frame, j: nat, f: Cell -> Cell): (r: Frame)
    ensures r.columns == df.columns && |r.rows| == |df.rows|
    ensures forall i :: 0 <= i < |df.rows| ==> |r.rows[i]| == |df.rows[i]|
    ensures forall i, k :: 0 <= i < |df.rows| && 0 <= k < |df.rows[i]| ==>
      r.rows[i][k] == if k == j then f(df.rows[i][k]) else df.rows[i][k]
  {
    Frame(df.columns, seq(|df.rows|, i requires 0 <= i < |df.rows| =>
      var row := df.rows[i];
      if j < |row| then row[j := f(row[j])] else row))
  }

  /** Lines 27-28: a 금액 column, when present, holds only numbers afterwards. */
  function CoerceAmounts(df: Frame): (r: Frame)
    ensures r.columns == df.columns && |r.rows| == |df.rows|
    ensures forall i :: 0 <= i < |df.rows| ==> |r.rows[i]| == |df.rows[i]|
    ensures "금액" in df.columns ==> forall i :: 0 <= i < |df.rows| && IndexOf(df.columns, "금액").value < |df.rows[i]| ==>
      r.rows[i][IndexOf(df.columns, "금액").value].Num?
    ensures "금액" !in df.columns ==> r == df
  {
    match IndexOf(df.columns, "금액")
    case None => df
    case Some(j) => MapColumn(df, j, c => CoerceAmount(c))
  }

  /**
   * `process_uploaded_zip(uploaded_file, password)`. `listing` is the outcome of opening
   * the archive and listing its members; `readCsv` and `readExcel` open a member with the
   * password and parse it (the second sheet of a workbook). The result is (frame, None)
   * on success and (None, message) otherwise.
   */
  function ProcessUploadedZip(listing: Result<seq<string>, Exc>, readCsv: string -> Result<Frame, Exc>,
                              readExcel: string -> Result<Frame, Exc>): (r: (Option<Frame>, Option<string>))
    ensures r.0.Some? != r.1.Some?
    ensures listing.Failure? ==> r == (None, Some(ExcMessage(listing.error)))
    ensures listing.Success? && FirstTable(listing.value).None? ==> r == (None, Some(NoTableMessage))
    ensures listing.Success? && FirstTable(listing.value).Some? ==>
      var target := listing.value[FirstTable(listing.value).value];
      var read := if EndsWith(target, ".csv") then readCsv(target) else readExcel(target);
      r == if read.Success? then (Some(CoerceAmounts(read.value)), None) else (None, Some(ExcMessage(read.error)))
  {
    match listing
    case Failure(e) => (None, Some(ExcMessage(e)))
    case Success(names) =>
      var targets := Filter(names, TableName());
      TargetIsFirstTable(names);
      if targets == [] then (None, Some(NoTableMessage))
      else
        var target := targets[0];
        var read := if EndsWith(target, ".csv") then readCsv(target) else readExcel(target);
        match read
        case Failure(e) => (None, Some(ExcMessage(e)))
        case Success(df) => (Some(CoerceAmounts(df)), None)
  }

  /** The `except` clauses: a RuntimeError (a wrong password) or any other exception. */
  function ExcMessage(e: Exc): (m: string)
    ensures m != [] && m != NoTableMessage
    ensures m == PasswordMessage <==> e.RuntimeErr?
    ensures e.OtherErr? ==> |m| >= |ErrorPrefix| && m[..|ErrorPrefix|] == ErrorPrefix
  {
    match e
    case RuntimeErr =>
      assert PasswordMessage[0] != NoTableMessage[0];
      PasswordMessage
    case OtherErr(text) =>
      var m := ErrorPrefix + text;
      assert m[0] == ErrorPrefix[0];
      assert m[..|ErrorPrefix|] == ErrorPrefix;
      m
  }

  // ---------------------------------------------------------------------------
  // The time format %H:%M:%S.%f

  /** The number of leading decimal digits. */
  function LeadingDigits(s: string): (n: nat)
    ensures n <= |s| && AllDigits(s[..n]) && (n < |s| ==> !IsDigit(s[n]))
  {
    if s == [] || !IsDigit(s[0]) then 0
    else
      var n := LeadingDigits(s[1..]);
      assert s[..n + 1] == [s[0]] + s[1..][..n];
      n + 1
  }

  /** A field of one or two digits whose value is at most `max`, as the directives %H, %M, %S read. */
  predicate DigitField(x: string, max: nat) {
    1 <= |x| <= 2 && AllDigits(x) && DigitsValue(x) <= max
  }

  /** Reads a digit field and the separator after it; yields its value and the rest. */
  function ClockField(s: string, sep: char, max: nat): Option<(nat, string)> {
    var n := LeadingDigits(s);
    if n < |s| && s[n] == sep && DigitField(s[..n], max) then Some((DigitsValue(s[..n]), s[n + 1..]))
    else None
  }

  /**
   * `pd.to_datetime(x, format='%H:%M:%S.%f')` on a text: the hour and the minute when the
   * whole text has the form, None where it is coerced to NaT.
   */
  function ParseClock(s: string): Option<(nat, nat)> {
    match ClockField(s, ':', 23)
    case None => None
    case Some((h, r1)) =>
      match ClockField(r1, ':', 59)
      case None => None
      case Some((m, r2)) =>
        match ClockField(r2, '.', 59)
        case None => None
        case Some((_, r3)) => if 1 <= |r3| <= 9 && AllDigits(r3) then Some((h, m)) else None
  }

  /** The format, field by field: hour, minute, second and one to nine fraction digits (down to nanoseconds). */
  ghost predicate ClockFields(s: string, hs: string, ms: string, ss: string, fs: string) {
    && s == hs + ":" + ms + ":" + ss + "." + fs
    && DigitField(hs, 23) && DigitField(ms, 59) && DigitField(ss, 59)
    && 1 <= |fs| <= 9 && AllDigits(fs)
  }

  ghost predicate MatchesClockFormat(s: string) {
    exists hs, ms, ss, fs :: ClockFields(s, hs, ms, ss, fs)
  }

  lemma ClockFieldOf(x: string, sep: char, rest: string, max: nat)
    requires AllDigits(x) && !IsDigit(sep)
    ensures ClockField(x + [sep] + rest, sep, max) ==
      if DigitField(x, max) then Some((DigitsValue(x), rest)) else None
  {
    var s := x + [sep] + rest;
    LeadingDigitsOf(x, sep, rest);
    assert s[..|x|] == x && s[|x|] == sep && s[|x| + 1..] == rest;
  }

  lemma {:induction false} LeadingDigitsOf(x: string, sep: char, rest: string)
    requires AllDigits(x) && !IsDigit(sep)
    ensures LeadingDigits(x + [sep] + rest) == |x|
  {
    if x != [] {
      LeadingDigitsOf(x[1..], sep, rest);
      assert (x + [sep] + rest)[1..] == x[1..] + [sep] + rest;
    }
  }

  lemma ClockFieldSplit(s: string, sep: char, max: nat)
    requires ClockField(s, sep, max).Some?
    ensures var n := LeadingDigits(s);
      && s == s[..n] + [sep] + ClockField(s, sep, max).value.1
      && DigitField(s[..n], max) && ClockField(s, sep, max).value.0 == DigitsValue(s[..n])
  {
    var n := LeadingDigits(s);
    assert s == s[..n] + [s[n]] + s[n + 1..];
  }

  /** The parser accepts exactly the texts of the form, and reads their hour and minute. */
  lemma ParseClockSound(s: string)
    requires ParseClock(s).Some?
    ensures MatchesClockFormat(s)
    ensures exists hs, ms, ss, fs :: (ClockFields(s, hs, ms, ss, fs)
      && ParseClock(s).value == (DigitsValue(hs), DigitsValue(ms)))
  {
    var r1 := ClockField(s, ':', 23).value.1;
    var r2 := ClockField(r1, ':', 59).value.1;
    var r3 := ClockField(r2, '.', 59).value.1;
    ClockFieldSplit(s, ':', 23);
    ClockFieldSplit(r1, ':', 59);
    ClockFieldSplit(r2, '.', 59);
    var hs, ms, ss := s[..LeadingDigits(s)], r1[..LeadingDigits(r1)], r2[..LeadingDigits(r2)];
    JoinFields(s, r1, r2, hs, ms, ss, r3);
    assert ClockFields(s, hs, ms, ss, r3);
  }

  /** Splits the text into its first field and the rest, three times over. */
  lemma SplitFields(s: string, hs: string, ms: string, ss: string, fs: string)
    requires s == hs + ":" + ms + ":" + ss + "." + fs
    ensures s == hs + [':'] + (ms + [':'] + (ss + ['.'] + fs))
  {
  }

  /** Reassembles the text from its three reads. */
  lemma JoinFields(s: string, r1: string, r2: string, hs: string, ms: string, ss: string, fs: string)
    requires s == hs + [':'] + r1 && r1 == ms + [':'] + r2 && r2 == ss + ['.'] + fs
    ensures s == hs + ":" + ms + ":" + ss + "." + fs
  {
  }

  lemma ParseClockComplete(s: string, hs: string, ms: string, ss: string, fs: string)
    requires ClockFields(s, hs, ms, ss, fs)
    ensures ParseClock(s) == Some((DigitsValue(hs), DigitsValue(ms)))
  {
    var r2 := ss + ['.'] + fs;
    var r1 := ms + [':'] + r2;
    SplitFields(s, hs, ms, ss, fs);
    ClockFieldOf(hs, ':', r1, 23);
    ClockFieldOf(ms, ':', r2, 59);
    ClockFieldOf(ss, '.', fs, 59);
  }

  /** `HH:MM` of an hour and a minute, as `strftime('%H:%M')` writes them. */
  function HourMinute(h: nat, m: nat): string {
    Digits(h, 2) + ":" + Digits(m, 2)
  }

  /** Lines 49-50 on one cell: a time of the form becomes `HH:MM`, anything else '-'. */
  function DisplayTime(c: Cell): (r: Cell)
    ensures r.Str?
    ensures r == Str("-") <==> !c.Moment? && !(c.Str? && ParseClock(c.s).Some?)
  {
    match c
    case Moment(t) => Str(ClockText(t))
    case Str(s) => if ParseClock(s).Some? then Str(HourMinute(ParseClock(s).value.0, ParseClock(s).value.1)) else Str("-")
    case _ => Str("-")
  }

  /** Line 45 on one cell: the date as `YYYY-MM-DD`, missing stays missing, None where pandas raises. */
  function DisplayDate(parse: Cell -> Option<Stamp>, c: Cell): Option<Cell> {
    match ToDatetime(parse, c)
    case At(t) => Some(Str(IsoDate(t.date)))
    case NaT => Some(Missing)
    case Invalid => None
  }

  function DateColumnParses(df: Frame, j: nat, parse: Cell -> Option<Stamp>): bool {
    forall i :: 0 <= i < |df.rows| && j < |df.rows[i]| ==> DisplayDate(parse, df.rows[i][j]).Some?
  }

  /**
   * `format_df_for_display(df)`: works on a copy (the argument is a value and is never
   * changed); None where `pd.to_datetime` raises on the 날짜 column.
   */
  function FormatForDisplay(df: Frame, parse: Cell -> Option<Stamp>): (r: Option<Frame>)
    ensures r.Some? ==> r.value.columns == df.columns && |r.value.rows| == |df.rows|
    ensures r.Some? ==> forall i :: 0 <= i < |df.rows| ==> |r.value.rows[i]| == |df.rows[i]|
    ensures r.None? <==> "날짜" in df.columns && !DateColumnParses(df, IndexOf(df.columns, "날짜").value, parse)
    ensures r.Some? && "날짜" in df.columns ==>
      var j := IndexOf(df.columns, "날짜").value;
      forall i :: 0 <= i < |df.rows| && j < |df.rows[i]| ==> Some(r.value.rows[i][j]) == DisplayDate(parse, df.rows[i][j])
    ensures r.Some? && "시간" in df.columns ==>
      var j := IndexOf(df.columns, "시간").value;
      forall i :: 0 <= i < |df.rows| && j < |df.rows[i]| ==> r.value.rows[i][j] == DisplayTime(df.rows[i][j])
    ensures r.Some? ==> forall i, k ::
      (0 <= i < |df.rows| && 0 <= k < |df.rows[i]| && (k >= |df.columns| || (df.columns[k] != "날짜" && df.columns[k] != "시간")))
      ==> r.value.rows[i][k] == df.rows[i][k]
  {
    var dated :=
      match IndexOf(df.columns, "날짜")
      case None => Some(df)
      case Some(j) =>
        if DateColumnParses(df, j, parse) then
          Some(MapColumn(df, j, c => if DisplayDate(parse, c).Some? then DisplayDate(parse, c).value else c))
        else None;
    match dated
    case None => None
    case Some(d) =>
      match IndexOf(d.columns, "시간")
      case None => Some(d)
      case Some(j) => Some(MapColumn(d, j, c => DisplayTime(c)))
  }
}
