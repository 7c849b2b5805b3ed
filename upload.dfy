/**
 * The upload page's ingestion logic: building the per-file items, choosing each file's
 * reconciliation range, parsing and saving one file, and the batch that processes the
 * files one after another in snapshot-date order. The helpers the page imports but whose
 * bodies are not part of this model (parsers, savers, store queries) are the fields of
 * `Env`, functions over an abstract store state `W`.
 */
module Upload {
  import opened Wrappers
  import opened Text
  import opened Dates
  import opened Sorting
  import opened Frames

  /** A handle standing for an uploaded file object or the bytes read from the docs folder. */
  type FileObj = nat

  /** One file to process. An empty `owner` stands for an owner that was not detected. */
  datatype Item = Item(file: FileObj, filename: string, owner: string, snapshotDate: string, startDate: string)

  /** What a parser returns: a transaction frame, an asset frame and an error text. */
  datatype Parsed = Parsed(tx: Option<Frame>, assets: Option<Frame>, error: Option<string>)

  /** The page's collaborators. */
  datatype Env<!W> = Env(
    hasRows: (W, string, string, string) -> bool,                 // has_transactions_in_range(owner, start, end)
    parseZip: (FileObj, string, Date, Date) -> Parsed,             // process_uploaded_zip(file, password, start_date=, end_date=)
    parseExcel: (FileObj, Date, Date) -> Parsed,                   // process_uploaded_excel(file, start_date=, end_date=)
    saveTx: (W, Frame, string, string) -> (W, int),                // save_transactions(tx_df, owner=, filename=)
    saveAssets: (W, Frame, string, string) -> (W, int),            // save_asset_snapshot(asset_df, owner=, snapshot_date=)
    snapshotOf: string -> string,                                  // extract_snapshot_date(filename)
    markProcessed: (W, string, string, string) -> W,               // mark_file_processed(filename, owner, snapshot_date)
    sync: W -> W,                                                  // sync_categories_from_transactions()
    readDoc: string -> FileObj)                                    // the bytes of DOCS_DIR/filename

  // ---------------------------------------------------------------------------
  // Items and ranges

  /**
   * `_build_item(filename, file_obj)`. `extracted` is what `extract_date_range(filename)`
   * returned and `owner` what `detect_owner_from_filename(filename)` returned. Without a
   * start date the start is 30 days before the snapshot date; None where that raises.
   */
  function BuildItem(filename: string, file: FileObj, extracted: (Option<string>, string), owner: string): (r: Option<Item>)
    ensures extracted.0.Some? ==> r == Some(Item(file, filename, owner, extracted.1, extracted.0.value))
    ensures extracted.0.None? ==>
      (r.Some? <==> ParseIsoDate(extracted.1).Some? && MinusDays(ParseIsoDate(extracted.1).value, 30).Some?)
    ensures r.Some? ==>
      (r.value.file == file && r.value.filename == filename && r.value.owner == owner
       && r.value.snapshotDate == extracted.1)
  {
    var (start, snapshot) := extracted;
    if start.Some? then Some(Item(file, filename, owner, snapshot, start.value))
    else
      match ParseIsoDate(snapshot)
      case None => None
      case Some(d) =>
        match MinusDays(d, 30)
        case None => None
        case Some(s) => Some(Item(file, filename, owner, snapshot, IsoDate(s)))
  }

  /** A defaulted start date reads back as the date 30 days before the snapshot date. */
  lemma BuildItemDefaultStart(filename: string, file: FileObj, snapshot: string, owner: string)
    requires BuildItem(filename, file, (None, snapshot), owner).Some?
    ensures var it := BuildItem(filename, file, (None, snapshot), owner).value;
      && ParseIsoDate(it.startDate).Some? && ParseIsoDate(snapshot).Some?
      && Ordinal(ParseIsoDate(it.startDate).value) == Ordinal(ParseIsoDate(snapshot).value) - 30
      && Before(ParseIsoDate(it.startDate).value, ParseIsoDate(snapshot).value)
  {
    var d := ParseIsoDate(snapshot).value;
    var s := MinusDays(d, 30).value;
    IsoDateRoundTrip(s);
    MinusDaysBefore(d, 30);
  }

  /**
   * `_resolve_date_range(owner, file_start, file_end)`: the whole file span when this
   * owner has no rows in it, otherwise the last two months up to `file_end`. None where
   * `_two_months_before` raises.
   */
  function ResolveDateRange<W>(env: Env<W>, w: W, owner: string, fileStart: Date, fileEnd: Date): (r: Option<(Date, Date)>)
    requires ValidDate(fileEnd)
    ensures r.Some? ==> r.value.1 == fileEnd
    ensures !env.hasRows(w, owner, IsoDate(fileStart), IsoDate(fileEnd)) ==> r == Some((fileStart, fileEnd))
    ensures env.hasRows(w, owner, IsoDate(fileStart), IsoDate(fileEnd)) ==>
      r == (if TwoMonthsBefore(fileEnd).Some? then Some((TwoMonthsBefore(fileEnd).value, fileEnd)) else None)
  {
    if env.hasRows(w, owner, IsoDate(fileStart), IsoDate(fileEnd)) then
      match TwoMonthsBefore(fileEnd)
      case None => None
      case Some(s) => Some((s, fileEnd))
    else Some((fileStart, fileEnd))
  }

  /** The reconciliation start is not clamped to the file's own start: it can lie before it. */
  lemma ResolvedStartNotClamped<W>(env: Env<W>, w: W, owner: string, d: Date)
    requires ValidDate(d) && env.hasRows(w, owner, IsoDate(d), IsoDate(d)) && TwoMonthsBefore(d).Some?
    ensures ResolveDateRange(env, w, owner, d, d).Some?
    ensures Before(ResolveDateRange(env, w, owner, d, d).value.0, d)
  {
  }

  // ---------------------------------------------------------------------------
  // One file

  /** `_OWNER_PASSWORDS.get(owner, '')`. */
  function Password(owner: string): string {
    var passwords := map["형준" := "0979", "윤희" := "1223"];
    if owner in passwords then passwords[owner] else ""
  }

  /**
   * `filename.lower().endswith('.zip')`. Only 'Z', 'I' and 'P' lower-case to 'z', 'i' and
   * 'p' (U+0130 lower-cases to two characters, the second of which is not a letter), so
   * the test looks at the last four characters alone.
   */
  predicate IsZipName(filename: string) {
    |filename| >= 4 && filename[|filename| - 4] == '.'
    && LowerAscii(filename[|filename| - 3]) == 'z'
    && LowerAscii(filename[|filename| - 2]) == 'i'
    && LowerAscii(filename[|filename| - 1]) == 'p'
  }

  /** `df is not None and not df.empty`: a frame with at least one row and one column. */
  predicate NonEmpty(f: Option<Frame>) {
    f.Some? && |f.value.rows| > 0 && |f.value.columns| > 0
  }

  /** `if error:`: None and the empty text are false. */
  predicate Truthy(e: Option<string>) {
    e.Some? && e.value != ""
  }

  /** The parse step of `_process_single`: a ZIP archive with the owner's password, or a workbook. */
  function ParseFile<W>(env: Env<W>, file: FileObj, filename: string, owner: string, start: Date, end: Date): Parsed {
    if IsZipName(filename) then env.parseZip(file, Password(owner), start, end)
    else env.parseExcel(file, start, end)
  }

  /**
   * `_process_single(file_obj, filename, owner, start_date, end_date)`: the store after
   * the saves and (tx_count, asset_count, error).
   */
  function ProcessSingle<W>(env: Env<W>, w: W, file: FileObj, filename: string, owner: string, start: Date, end: Date)
    : (r: (W, (int, int, Option<string>)))
    ensures var p := ParseFile(env, file, filename, owner, start, end);
      Truthy(p.error) ==> r == (w, (0, 0, p.error))
    ensures var p := ParseFile(env, file, filename, owner, start, end);
      !Truthy(p.error) ==>
        (&& r.1.2.None?
         && (!NonEmpty(p.tx) ==> r.1.0 == 0)
         && (!NonEmpty(p.assets) ==> r.1.1 == 0)
         && (!NonEmpty(p.tx) && !NonEmpty(p.assets) ==> r.0 == w))
    ensures var p := ParseFile(env, file, filename, owner, start, end);
      var afterTx := if NonEmpty(p.tx) then env.saveTx(w, p.tx.value, owner, filename).0 else w;
      !Truthy(p.error) ==>
        && r.1.0 == (if NonEmpty(p.tx) then env.saveTx(w, p.tx.value, owner, filename).1 else 0)
        && r.1.1 == (if NonEmpty(p.assets) then env.saveAssets(afterTx, p.assets.value, owner, env.snapshotOf(filename)).1 else 0)
        && r.0 == (if NonEmpty(p.assets) then env.saveAssets(afterTx, p.assets.value, owner, env.snapshotOf(filename)).0 else afterTx)
  {
    var p := ParseFile(env, file, filename, owner, start, end);
    if Truthy(p.error) then (w, (0, 0, p.error))
    else
      var (w1, txCount) := if NonEmpty(p.tx) then env.saveTx(w, p.tx.value, owner, filename) else (w, 0);
      var (w2, assetCount) :=
        if NonEmpty(p.assets) then env.saveAssets(w1, p.assets.value, owner, env.snapshotOf(filename)) else (w1, 0);
      (w2, (txCount, assetCount, None))
  }

  // ---------------------------------------------------------------------------
  // The batch

  /** One line of the results table. */
  datatype ResultRow = ResultRow(filename: string, owner: string, period: string, outcome: string)

  /** A call the batch makes on the store besides the saves. */
  datatype Event = Marked(filename: string, owner: string, snapshot: string) | Synced

  /** The batch so far: the store, the results and the events. */
  datatype Progress<!W> = Progress(w: W, rows: seq<ResultRow>, events: seq<Event>)

  function SuccessText(tx: int, assets: int): string {
    "✅ 거래 " + IntToString(tx) + "건  자산 " + IntToString(assets) + "건"
  }

  function FailureText(error: string): string {
    "❌ " + error
  }

  /** `f"{actual_start} ~ {actual_end}"`. */
  function PeriodText(start: Date, end: Date): string {
    IsoDate(start) + " ~ " + IsoDate(end)
  }

  /**
   * The range one loop iteration of `_run_batch` works on: the file's dates read back
   * and resolved against the store. None where `date.fromisoformat` or
   * `_two_months_before` raises, which ends the whole batch.
   */
  function Window<W>(env: Env<W>, w: W, it: Item): (r: Option<(Date, Date)>)
    ensures r.None? <==>
      || ParseIsoDate(it.startDate).None? || ParseIsoDate(it.snapshotDate).None?
      || ResolveDateRange(env, w, it.owner, ParseIsoDate(it.startDate).value, ParseIsoDate(it.snapshotDate).value).None?
    ensures r.Some? ==> r.value.1 == ParseIsoDate(it.snapshotDate).value
  {
    match ParseIsoDate(it.startDate)
    case None => None
    case Some(fileStart) =>
      match ParseIsoDate(it.snapshotDate)
      case None => None
      case Some(fileEnd) => ResolveDateRange(env, w, it.owner, fileStart, fileEnd)
  }

  /**
   * The rest of one loop iteration: process the file over the range, build its result
   * row, and mark it processed when it came from the docs folder and had no error.
   */
  function Process<W>(env: Env<W>, isDocs: bool, w: W, it: Item, start: Date, end: Date): (r: (W, ResultRow, seq<Event>))
    ensures r.1.filename == it.filename && r.1.owner == it.owner && r.1.period == PeriodText(start, end)
    ensures r.2 == (if isDocs && Succeeded(r.1) then [Marked(it.filename, it.owner, it.snapshotDate)] else [])
    ensures var single := ProcessSingle(env, w, FileFor(env, isDocs, it), it.filename, it.owner, start, end);
      var error := single.1.2;
      && (Succeeded(r.1) <==> !Truthy(error))
      && r.1.outcome == (if Truthy(error) then FailureText(error.value) else SuccessText(single.1.0, single.1.1))
      && r.0 == (if isDocs && !Truthy(error) then env.markProcessed(single.0, it.filename, it.owner, it.snapshotDate) else single.0)
  {
    var file := FileFor(env, isDocs, it);
    var (w1, (tx, assets, error)) := ProcessSingle(env, w, file, it.filename, it.owner, start, end);
    OutcomeTexts(tx, assets, if Truthy(error) then error.value else "");
    var period := PeriodText(start, end);
    if Truthy(error) then
      (w1, ResultRow(it.filename, it.owner, period, FailureText(error.value)), [])
    else if isDocs then
      (env.markProcessed(w1, it.filename, it.owner, it.snapshotDate),
       ResultRow(it.filename, it.owner, period, SuccessText(tx, assets)),
       [Marked(it.filename, it.owner, it.snapshotDate)])
    else
      (w1, ResultRow(it.filename, it.owner, period, SuccessText(tx, assets)), [])
  }

  /** The file a loop iteration hands to `_process_single`: read from the docs folder, or the upload. */
  function FileFor<W>(env: Env<W>, isDocs: bool, it: Item): FileObj {
    if isDocs then env.readDoc(it.filename) else it.file
  }

  /** A success text starts with ✅ and a failure text with ❌, so the two never meet. */
  lemma OutcomeTexts(tx: int, assets: int, error: string)
    ensures Succeeded(ResultRow("", "", "", SuccessText(tx, assets)))
    ensures !Succeeded(ResultRow("", "", "", FailureText(error)))
  {
    assert SuccessText(tx, assets)[0] == '✅';
    assert FailureText(error)[0] == '❌';
  }

  /** One iteration of the loop of `_run_batch`; None where it raises. */
  function Outcome<W>(env: Env<W>, isDocs: bool, w: W, it: Item): Option<(W, ResultRow, seq<Event>)> {
    match Window(env, w, it)
    case None => None
    case Some((start, end)) => Some(Process(env, isDocs, w, it, start, end))
  }

  /** A row reporting success: the outcome begins with ✅, an error row with ❌. */
  predicate Succeeded(row: ResultRow) {
    |row.outcome| > 0 && row.outcome[0] == '✅'
  }

  /** The loop of `_run_batch` over `items` in the given order, from store `w0`. */
  function Batch<W>(env: Env<W>, isDocs: bool, w0: W, items: seq<Item>): Option<Progress<W>> {
    if items == [] then Some(Progress(w0, [], []))
    else
      match Batch(env, isDocs, w0, items[..|items| - 1])
      case None => None
      case Some(p) =>
        match Outcome(env, isDocs, p.w, items[|items| - 1])
        case None => None
        case Some((w, row, ev)) => Some(Progress(w, p.rows + [row], p.events + ev))
  }

  /**
   * The batch is its prefixes run one after another: when it completes, every prefix
   * completes, and item `i` is processed against the store exactly as the first `i`
   * items left it, giving result row `i`.
   */
  lemma {:induction false} BatchPrefixes<W>(env: Env<W>, isDocs: bool, w0: W, items: seq<Item>, i: nat)
    requires Batch(env, isDocs, w0, items).Some? && i < |items|
    ensures Batch(env, isDocs, w0, items[..i]).Some?
    ensures var before := Batch(env, isDocs, w0, items[..i]).value;
      && Outcome(env, isDocs, before.w, items[i]).Some?
      && |Batch(env, isDocs, w0, items).value.rows| == |items|
      && Batch(env, isDocs, w0, items).value.rows[i] == Outcome(env, isDocs, before.w, items[i]).value.1
  {
    var p := items[..i + 1];
    BatchPrefixRows(env, isDocs, w0, items, i + 1);
    BatchLast(env, isDocs, w0, p);
    TakeOfTake(items, i + 1, i);
    assert p[i] == items[i];
    assert Batch(env, isDocs, w0, items).value.rows[i] == Batch(env, isDocs, w0, p).value.rows[i];
  }

  /** Every prefix of a completed batch completes, with the matching prefix of the rows. */
  lemma {:induction false} BatchPrefixRows<W>(env: Env<W>, isDocs: bool, w0: W, items: seq<Item>, k: nat)
    requires Batch(env, isDocs, w0, items).Some? && k <= |items|
    ensures Batch(env, isDocs, w0, items[..k]).Some?
    ensures |Batch(env, isDocs, w0, items).value.rows| == |items|
    ensures Batch(env, isDocs, w0, items[..k]).value.rows == Batch(env, isDocs, w0, items).value.rows[..k]
    decreases |items|
  {
    BatchRowCount(env, isDocs, w0, items);
    if k == |items| {
      assert items[..k] == items;
    } else {
      var init := items[..|items| - 1];
      BatchLast(env, isDocs, w0, items);
      BatchPrefixRows(env, isDocs, w0, init, k);
      TakeOfTake(items, |items| - 1, k);
      var p := Batch(env, isDocs, w0, init).value;
      PrefixOfSnoc(p.rows, Outcome(env, isDocs, p.w, items[|items| - 1]).value.1, Batch(env, isDocs, w0, items[..k]).value.rows, k);
    }
  }

  /** A prefix of `a` that stops before its end is a prefix of `a + [x]` as well. */
  lemma PrefixOfSnoc<T>(a: seq<T>, x: T, pre: seq<T>, k: nat)
    requires k <= |a| && pre == a[..k]
    ensures pre == (a + [x])[..k]
  {
  }

  /** A completed batch has as many rows as items. */
  lemma {:induction false} BatchRowCount<W>(env: Env<W>, isDocs: bool, w0: W, items: seq<Item>)
    requires Batch(env, isDocs, w0, items).Some?
    ensures |Batch(env, isDocs, w0, items).value.rows| == |items|
  {
    if items != [] {
      BatchLast(env, isDocs, w0, items);
      BatchRowCount(env, isDocs, w0, items[..|items| - 1]);
    }
  }

  /** A completed batch is its last item run after the others. */
  lemma BatchLast<W>(env: Env<W>, isDocs: bool, w0: W, items: seq<Item>)
    requires Batch(env, isDocs, w0, items).Some? && items != []
    ensures var init := items[..|items| - 1];
      && Batch(env, isDocs, w0, init).Some?
      && Outcome(env, isDocs, Batch(env, isDocs, w0, init).value.w, items[|items| - 1]).Some?
      && Batch(env, isDocs, w0, items).value.rows
        == Batch(env, isDocs, w0, init).value.rows + [Outcome(env, isDocs, Batch(env, isDocs, w0, init).value.w, items[|items| - 1]).value.1]
  {
  }

  /** A completed batch has one result row per item, in item order. */
  lemma {:induction false} BatchLength<W>(env: Env<W>, isDocs: bool, w0: W, items: seq<Item>)
    requires Batch(env, isDocs, w0, items).Some?
    ensures |Batch(env, isDocs, w0, items).value.rows| == |items|
    ensures forall i :: 0 <= i < |items| ==>
      Batch(env, isDocs, w0, items).value.rows[i].filename == items[i].filename
      && Batch(env, isDocs, w0, items).value.rows[i].owner == items[i].owner
  {
    if items != [] {
      var n := |items| - 1;
      var init := items[..n];
      BatchLength(env, isDocs, w0, init);
      var prev := Batch(env, isDocs, w0, init).value;
      var (start, end) := Window(env, prev.w, items[n]).value;
      var row := Process(env, isDocs, prev.w, items[n], start, end).1;
      var rows := Batch(env, isDocs, w0, items).value.rows;
      assert rows == prev.rows + [row];
      assert |prev.rows| == n;
      assert rows[n] == row;
      forall i | 0 <= i < |items|
        ensures rows[i].filename == items[i].filename && rows[i].owner == items[i].owner
      {
        if i < n {
          assert rows[i] == prev.rows[i] && init[i] == items[i];
        } else {
          assert i == n;
        }
      }
    }
  }

  /** Item `i` is where the batch raises: the items before it ran, and it does not. */
  predicate AbortsAt<W>(env: Env<W>, isDocs: bool, w0: W, items: seq<Item>, i: int) {
    && 0 <= i < |items|
    && Batch(env, isDocs, w0, items[..i]).Some?
    && Outcome(env, isDocs, Batch(env, isDocs, w0, items[..i]).value.w, items[i]).None?
  }

  lemma AbortsAtPrefix<W>(env: Env<W>, isDocs: bool, w0: W, items: seq<Item>, n: nat, i: int)
    requires 0 <= i < n <= |items|
    ensures AbortsAt(env, isDocs, w0, items[..n], i) == AbortsAt(env, isDocs, w0, items, i)
  {
    assert items[..n][..i] == items[..i];
    assert items[..n][i] == items[i];
  }

  /**
   * The batch ends early only on a date exception: some item whose dates cannot be read
   * or whose two-months-back start does not exist, given the store the earlier items
   * left. A parse error just yields an error row; the two saves are total here, so the
   * exceptions they can raise are not part of this model.
   */
  lemma {:induction false} BatchAbortsOnlyOnDates<W>(env: Env<W>, isDocs: bool, w0: W, items: seq<Item>)
    ensures Batch(env, isDocs, w0, items).None? <==> exists i :: AbortsAt(env, isDocs, w0, items, i)
  {
    if items != [] {
      var n := |items| - 1;
      var init := items[..n];
      BatchAbortsOnlyOnDates(env, isDocs, w0, init);
      if Batch(env, isDocs, w0, init).None? {
        var i :| AbortsAt(env, isDocs, w0, init, i);
        AbortsAtPrefix(env, isDocs, w0, items, n, i);
        assert AbortsAt(env, isDocs, w0, items, i);
      } else {
        AbortsAtLast(env, isDocs, w0, items);
        forall i | AbortsAt(env, isDocs, w0, items, i) ensures i == n {
          if i < n {
            AbortsAtPrefix(env, isDocs, w0, items, n, i);
          }
        }
      }
    }
  }

  /** Once the earlier items complete, the batch fails exactly when its last item raises. */
  lemma AbortsAtLast<W>(env: Env<W>, isDocs: bool, w0: W, items: seq<Item>)
    requires items != [] && Batch(env, isDocs, w0, items[..|items| - 1]).Some?
    ensures AbortsAt(env, isDocs, w0, items, |items| - 1) <==> Batch(env, isDocs, w0, items).None?
  {
  }

  /** At most one item is where the batch raises: the first one that does. */
  lemma AbortsAtUnique<W>(env: Env<W>, isDocs: bool, w0: W, items: seq<Item>, i: int, j: int)
    requires AbortsAt(env, isDocs, w0, items, i) && AbortsAt(env, isDocs, w0, items, j)
    ensures i == j
  {
    if i < j {
      AbortsAtEarlier(env, isDocs, w0, items, i, j);
    }
    if j < i {
      AbortsAtEarlier(env, isDocs, w0, items, j, i);
    }
  }

  /** Once item `i` raises, no later item is where the batch raises. */
  lemma AbortsAtEarlier<W>(env: Env<W>, isDocs: bool, w0: W, items: seq<Item>, i: int, j: int)
    requires i < j <= |items| && AbortsAt(env, isDocs, w0, items, i)
    ensures Batch(env, isDocs, w0, items[..j]).None?
    ensures !AbortsAt(env, isDocs, w0, items, j)
  {
    AbortsAtPrefix(env, isDocs, w0, items, j, i);
    BatchAbortsOnlyOnDates(env, isDocs, w0, items[..j]);
  }

  /** The files `_run_batch` marks processed: the successful ones, in order, and only for docs. */
  function Marks(items: seq<Item>, rows: seq<ResultRow>, isDocs: bool): seq<Event>
    requires |rows| == |items|
  {
    if items == [] || !isDocs then []
    else
      var n := |items| - 1;
      Marks(items[..n], rows[..n], isDocs)
        + (if Succeeded(rows[n]) then [Marked(items[n].filename, items[n].owner, items[n].snapshotDate)] else [])
  }

  /** A completed batch has marked exactly the files whose row reports success, when run on docs. */
  lemma {:induction false} BatchMarksSuccesses<W>(env: Env<W>, isDocs: bool, w0: W, items: seq<Item>)
    requires Batch(env, isDocs, w0, items).Some?
    ensures |Batch(env, isDocs, w0, items).value.rows| == |items|
    ensures Batch(env, isDocs, w0, items).value.events == Marks(items, Batch(env, isDocs, w0, items).value.rows, isDocs)
    ensures !isDocs ==> Batch(env, isDocs, w0, items).value.events == []
  {
    BatchLength(env, isDocs, w0, items);
    if items != [] {
      var n := |items| - 1;
      var init := items[..n];
      BatchMarksSuccesses(env, isDocs, w0, init);
      var rows := Batch(env, isDocs, w0, items).value.rows;
      assert rows[..n] == Batch(env, isDocs, w0, init).value.rows;
    }
  }

  /** `sorted(..., key=lambda x: x['snapshot_date'])`: the sort key. */
  function SnapshotKey(): Item -> string {
    (it: Item) => it.snapshotDate
  }

  lemma StrLeTotalPreorder()
    ensures TotalPreorder(StrLe)
  {
    forall a: string, b: string ensures StrLe(a, b) || StrLe(b, a) {
      StrLeTotal(a, b);
    }
    forall a: string, b: string, c: string ensures Chain(StrLe, a, b, c) {
      if StrLe(a, b) && StrLe(b, c) {
        StrLeTransitive(a, b, c);
      }
    }
  }

  /** The order `_run_batch` processes items in: ascending snapshot date, ties in input order. */
  lemma ProcessingOrder(items: seq<Item>, k: string)
    ensures SortedBy(SortBy(items, SnapshotKey(), StrLe), SnapshotKey(), StrLe)
    ensures multiset(SortBy(items, SnapshotKey(), StrLe)) == multiset(items)
    ensures Filter(SortBy(items, SnapshotKey(), StrLe), KeyIs(SnapshotKey(), k)) == Filter(items, KeyIs(SnapshotKey(), k))
  {
    StrLeTotalPreorder();
    SortBySorted(items, SnapshotKey(), StrLe);
    SortByPermutes(items, SnapshotKey(), StrLe);
    SortByStable(items, SnapshotKey(), StrLe, k);
  }

  /**
   * `_run_batch(items, is_docs)`. When no date exception escapes, `completed` holds and
   * the results are the batch's rows over the sorted items, the store has been synced
   * once after the loop, and `events` lists the marks followed by the single sync.
   */
  method RunBatch<W>(env: Env<W>, w0: W, items: seq<Item>, isDocs: bool)
    returns (completed: bool, results: seq<ResultRow>, w: W, events: seq<Event>)
    ensures var run := Batch(env, isDocs, w0, SortBy(items, SnapshotKey(), StrLe));
      completed <==> run.Some?
    ensures var run := Batch(env, isDocs, w0, SortBy(items, SnapshotKey(), StrLe));
      completed ==> results == run.value.rows && w == env.sync(run.value.w) && events == run.value.events + [Synced]
    ensures completed ==> |results| == |items|
    ensures completed ==> |events| > 0 && events[|events| - 1] == Synced && Synced !in events[..|events| - 1]
    ensures !completed ==> Synced !in events
    ensures var sorted := SortBy(items, SnapshotKey(), StrLe);
      !completed ==> exists i ::
        AbortsAt(env, isDocs, w0, sorted, i) && Batch(env, isDocs, w0, sorted[..i]) == Some(Progress(w, results, events))
  {
    var sorted := SortBy(items, SnapshotKey(), StrLe);
    var progress;
    completed, progress := RunItems(env, w0, sorted, isDocs);
    if !completed {
      return false, progress.rows, progress.w, progress.events;
    }
    BatchCompleted(env, isDocs, w0, items);
    events := progress.events + [Synced];
    assert events[..|events| - 1] == progress.events;
    return true, progress.rows, env.sync(progress.w), events;
  }

  /**
   * The loop of `_run_batch` over the items in the order given. It stops at the first item
   * that raises, with the progress made so far; otherwise the progress is the whole batch's.
   * The loop itself never syncs.
   */
  method RunItems<W>(env: Env<W>, w0: W, items: seq<Item>, isDocs: bool) returns (completed: bool, progress: Progress<W>)
    ensures completed <==> Batch(env, isDocs, w0, items).Some?
    ensures completed ==> Batch(env, isDocs, w0, items) == Some(progress)
    ensures !completed ==> exists i :: AbortsAt(env, isDocs, w0, items, i) && Batch(env, isDocs, w0, items[..i]) == Some(progress)
    ensures Synced !in progress.events
  {
    progress := Progress(w0, [], []);
    var i := 0;
    while i < |items|
      invariant 0 <= i <= |items|
      invariant Batch(env, isDocs, w0, items[..i]) == Some(progress)
      invariant Synced !in progress.events
    {
      var next := Outcome(env, isDocs, progress.w, items[i]);
      if next.None? {
        BatchStops(env, isDocs, w0, items, i);
        assert AbortsAt(env, isDocs, w0, items, i);
        return false, progress;
      }
      BatchStep(env, isDocs, w0, items, i);
      progress := Progress(next.value.0, progress.rows + [next.value.1], progress.events + next.value.2);
      i := i + 1;
    }
    assert items[..i] == items;
    return true, progress;
  }

  /** Running one more item extends the batch by that item's outcome. */
  lemma BatchStep<W>(env: Env<W>, isDocs: bool, w0: W, s: seq<Item>, i: nat)
    requires i < |s| && Batch(env, isDocs, w0, s[..i]).Some?
    requires Outcome(env, isDocs, Batch(env, isDocs, w0, s[..i]).value.w, s[i]).Some?
    ensures var p := Batch(env, isDocs, w0, s[..i]).value;
      var o := Outcome(env, isDocs, p.w, s[i]).value;
      Batch(env, isDocs, w0, s[..i + 1]) == Some(Progress(o.0, p.rows + [o.1], p.events + o.2))
  {
    TakeSnoc(s, i);
    BatchSnoc(env, isDocs, w0, s[..i], s[i]);
  }

  /** A batch whose earlier items complete and whose last item runs ends with that item's outcome. */
  lemma BatchSnoc<W>(env: Env<W>, isDocs: bool, w0: W, pre: seq<Item>, x: Item)
    requires Batch(env, isDocs, w0, pre).Some?
    requires Outcome(env, isDocs, Batch(env, isDocs, w0, pre).value.w, x).Some?
    ensures var p := Batch(env, isDocs, w0, pre).value;
      var o := Outcome(env, isDocs, p.w, x).value;
      Batch(env, isDocs, w0, pre + [x]) == Some(Progress(o.0, p.rows + [o.1], p.events + o.2))
  {
    var t := pre + [x];
    assert t[..|t| - 1] == pre;
    assert t[|t| - 1] == x;
  }

  /** An item that raises after the earlier ones ran stops the whole batch. */
  lemma BatchStops<W>(env: Env<W>, isDocs: bool, w0: W, s: seq<Item>, i: nat)
    requires i < |s| && Batch(env, isDocs, w0, s[..i]).Some?
    requires Outcome(env, isDocs, Batch(env, isDocs, w0, s[..i]).value.w, s[i]).None?
    ensures Batch(env, isDocs, w0, s).None?
  {
    assert AbortsAt(env, isDocs, w0, s, i);
    BatchAbortsOnlyOnDates(env, isDocs, w0, s);
  }

  /** A completed batch over the sorted items has one result per item. */
  lemma BatchCompleted<W>(env: Env<W>, isDocs: bool, w0: W, items: seq<Item>)
    requires Batch(env, isDocs, w0, SortBy(items, SnapshotKey(), StrLe)).Some?
    ensures |Batch(env, isDocs, w0, SortBy(items, SnapshotKey(), StrLe)).value.rows| == |items|
  {
    StrLeTotalPreorder();
    SortBySorted(items, SnapshotKey(), StrLe);
    BatchLength(env, isDocs, w0, SortBy(items, SnapshotKey(), StrLe));
  }

  // ---------------------------------------------------------------------------
  // The page's filters

  function HasOwner(): Item -> bool {
    (it: Item) => it.owner != ""
  }

  /** `[it for it in items if it['owner']]`: what reaches `_run_batch`. */
  function Processable(items: seq<Item>): (r: seq<Item>)
    ensures forall i :: 0 <= i < |r| ==> r[i].owner != ""
    ensures forall it :: it in items && it.owner != "" ==> multiset(r)[it] == multiset(items)[it]
    ensures forall it: Item :: it.owner == "" ==> it !in r
    ensures Subsequence(r, items)
  {
    FilterSatisfies(items, HasOwner());
    FilterSubsequence(items, HasOwner());
    forall it | true ensures multiset(Filter(items, HasOwner()))[it] == if it.owner != "" then multiset(items)[it] else 0 {
      FilterMultiset(items, HasOwner(), it);
    }
    Filter(items, HasOwner())
  }

  /**
   * `[it['filename'] for it in items if not it['owner']]`: the files the page warns about,
   * one name per owner-less item, in input order.
   */
  function Undetected(items: seq<Item>): (r: seq<string>)
    ensures |Processable(items)| + |r| == |items|
    ensures |r| == |Filter(items, Not(HasOwner()))|
    ensures forall i :: 0 <= i < |r| ==> r[i] == Filter(items, Not(HasOwner()))[i].filename
    ensures forall i :: 0 <= i < |r| ==> exists it :: it in items && it.owner == "" && it.filename == r[i]
    ensures forall it :: it in items && it.owner == "" ==> it.filename in r
  {
    var skipped := Filter(items, Not(HasOwner()));
    FilterPartition(items, HasOwner());
    FilterKeeps(items, Not(HasOwner()));
    var r := seq(|skipped|, i requires 0 <= i < |skipped| => skipped[i].filename);
    assert forall i :: 0 <= i < |r| ==> skipped[i] in items && skipped[i].owner == "" && skipped[i].filename == r[i];
    forall it | it in items && it.owner == "" ensures it.filename in r {
      FilterContains(items, Not(HasOwner()), it);
      var k :| 0 <= k < |skipped| && skipped[k] == it;
      assert r[k] == it.filename;
    }
    r
  }

  function NotProcessed(processed: set<string>): Item -> bool {
    (it: Item) => it.filename !in processed
  }

  /**
   * The docs pending list: the scanned files whose name is not yet recorded as processed,
   * sorted by snapshot date. Files of the same snapshot date keep their scanned order.
   */
  function PendingDocs(docs: seq<Item>, processed: set<string>): (r: seq<Item>)
    ensures forall it :: multiset(r)[it] == if it.filename in processed then 0 else multiset(docs)[it]
    ensures SortedBy(r, SnapshotKey(), StrLe)
    ensures forall k :: Subsequence(Filter(r, KeyIs(SnapshotKey(), k)), docs)
  {
    var pending := Filter(docs, NotProcessed(processed));
    forall it | true ensures multiset(pending)[it] == if it.filename in processed then 0 else multiset(docs)[it] {
      FilterMultiset(docs, NotProcessed(processed), it);
    }
    ProcessingOrder(pending, "");
    var r := SortBy(pending, SnapshotKey(), StrLe);
    forall k ensures Subsequence(Filter(r, KeyIs(SnapshotKey(), k)), docs) {
      ProcessingOrder(pending, k);
      PendingKeyOrder(docs, processed, k);
    }
    r
  }

  /** The pending files of one snapshot date, in scanned order, are picked out of the scan. */
  lemma PendingKeyOrder(docs: seq<Item>, processed: set<string>, k: string)
    ensures Subsequence(Filter(Filter(docs, NotProcessed(processed)), KeyIs(SnapshotKey(), k)), docs)
  {
    var pending := Filter(docs, NotProcessed(processed));
    FilterSubsequence(docs, NotProcessed(processed));
    FilterSubsequence(pending, KeyIs(SnapshotKey(), k));
    SubsequenceTransitive(Filter(pending, KeyIs(SnapshotKey(), k)), pending, docs);
  }
}
