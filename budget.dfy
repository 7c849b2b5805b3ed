/**
 * The budget page: the average column joined onto the budget rows, the summary metrics
 * with their deltas, and the rows written back after editing.
 */
module Budget {
  import opened Wrappers
  import opened Sorting
  import opened Sums

  /** A row of `get_budgets()`. `isFixed` is the stored 0/1 flag. */
  datatype BudgetRow = BudgetRow(sortOrder: int, category: string, monthly: int, isFixed: int)

  /** A row of the editor: the budget row with the 12-month average between amount and flag. */
  datatype DisplayRow = DisplayRow(no: int, category: string, monthly: int, avg: int, isFixed: int)

  function Abs(x: int): nat {
    if x < 0 then -x else x
  }

  /**
   * The average column for one category: the
   * magnitude of its average, 0 for a category without one.
   */
  function AvgMonthly(avgMap: map<string, int>, category: string): (r: nat)
    ensures category !in avgMap ==> r == 0
    ensures category in avgMap ==> r == Abs(avgMap[category]) && (r == avgMap[category] || r == -avgMap[category])
  {
    if category in avgMap then Abs(avgMap[category]) else 0
  }

  /** The editor rows: each budget row with its average. */
  function DisplayRows(rows: seq<BudgetRow>, avgMap: map<string, int>): (r: seq<DisplayRow>)
    ensures |r| == |rows|
    ensures forall i :: 0 <= i < |r| ==>
      r[i] == DisplayRow(rows[i].sortOrder, rows[i].category, rows[i].monthly, AvgMonthly(avgMap, rows[i].category), rows[i].isFixed)
    ensures forall i :: 0 <= i < |r| ==> r[i].avg >= 0
  {
    seq(|rows|, i requires 0 <= i < |rows| =>
      DisplayRow(rows[i].sortOrder, rows[i].category, rows[i].monthly, AvgMonthly(avgMap, rows[i].category), rows[i].isFixed))
  }

  function IsFixed(): DisplayRow -> bool {
    (r: DisplayRow) => r.isFixed == 1
  }

  function Monthly(): DisplayRow -> int {
    (r: DisplayRow) => r.monthly
  }

  function Average(): DisplayRow -> int {
    (r: DisplayRow) => r.avg
  }

  /** The three metrics, their averages, and the deltas shown only when the average total is positive. */
  datatype Summary = Summary(total: int, fixed: int, variable: int,
                             avgTotal: int, avgFixed: int, avgVariable: int,
                             deltas: Option<(int, int, int)>)

  function Summarize(rows: seq<DisplayRow>): Summary {
    var total := SumBy(rows, Monthly());
    var fixed := SumBy(Filter(rows, IsFixed()), Monthly());
    var avgTotal := SumBy(rows, Average());
    var avgFixed := SumBy(Filter(rows, IsFixed()), Average());
    Summary(total, fixed, total - fixed, avgTotal, avgFixed, avgTotal - avgFixed,
            if avgTotal > 0 then Some((total - avgTotal, fixed - avgFixed, (total - fixed) - (avgTotal - avgFixed))) else None)
  }

  /**
   * The variable figures are the sums over the rows not flagged fixed, so fixed and
   * variable together make the total, for the budgets and for the averages.
   */
  lemma VariableIsUnflaggedSum(rows: seq<DisplayRow>)
    ensures Summarize(rows).variable == SumBy(Filter(rows, Not(IsFixed())), Monthly())
    ensures Summarize(rows).avgVariable == SumBy(Filter(rows, Not(IsFixed())), Average())
    ensures Summarize(rows).fixed + Summarize(rows).variable == Summarize(rows).total
    ensures Summarize(rows).avgFixed + Summarize(rows).avgVariable == Summarize(rows).avgTotal
  {
    SumSplit(rows, IsFixed(), Monthly());
    SumSplit(rows, IsFixed(), Average());
  }

  /**
   * The averages are magnitudes, so the average figures are never negative; budgets that
   * respect the editor's minimum of 0 give the same for the budget figures.
   */
  lemma FiguresNonNegative(rows: seq<DisplayRow>)
    requires forall i :: 0 <= i < |rows| ==> rows[i].avg >= 0
    ensures 0 <= Summarize(rows).avgFixed <= Summarize(rows).avgTotal
    ensures Summarize(rows).avgVariable >= 0
    ensures (forall i :: 0 <= i < |rows| ==> rows[i].monthly >= 0) ==>
      0 <= Summarize(rows).fixed <= Summarize(rows).total && Summarize(rows).variable >= 0
  {
    SumFilterBounded(rows, IsFixed(), Average());
    if forall i :: 0 <= i < |rows| ==> rows[i].monthly >= 0 {
      SumFilterBounded(rows, IsFixed(), Monthly());
    }
  }

  /** The deltas appear exactly when the average total is positive, each figure minus its average. */
  lemma DeltasMatchAverages(rows: seq<DisplayRow>)
    ensures var s := Summarize(rows);
      && (s.deltas.Some? <==> s.avgTotal > 0)
      && (s.deltas.Some? ==> s.deltas.value == (s.total - s.avgTotal, s.fixed - s.avgFixed, s.variable - s.avgVariable))
  {
  }

  /** With the averages non-negative, as the editor rows have them, deltas appear exactly when some category has a positive average. */
  lemma DeltasWhenSomeAverage(rows: seq<DisplayRow>)
    requires forall i :: 0 <= i < |rows| ==> rows[i].avg >= 0
    ensures Summarize(rows).deltas.Some? <==> exists i :: 0 <= i < |rows| && rows[i].avg > 0
  {
    assert forall i :: 0 <= i < |rows| ==> Average()(rows[i]) == rows[i].avg;
    SumPositive(rows, Average());
  }

  /** Over the editor rows, nothing at all is shown as a delta when no category has an average. */
  lemma NoAveragesNoDeltas(rows: seq<BudgetRow>)
    ensures Summarize(DisplayRows(rows, map[])).deltas.None?
  {
    var d := DisplayRows(rows, map[]);
    SumAgree(d, Average(), Zero());
    SumZero(d);
  }

  /** One edited row as it is saved: the display labels mapped back, the average dropped. */
  function Saved(r: DisplayRow): BudgetRow {
    BudgetRow(r.no, r.category, r.monthly, r.isFixed)
  }

  function SortOrder(): BudgetRow -> int {
    (r: BudgetRow) => r.sortOrder
  }

  predicate IntLe(a: int, b: int) {
    a <= b
  }

  /** The rows the update button saves: the edited rows without the average, ordered by `No.`. */
  function SaveRows(edited: seq<DisplayRow>): seq<BudgetRow> {
    SortBy(seq(|edited|, i requires 0 <= i < |edited| => Saved(edited[i])), SortOrder(), IntLe)
  }

  /**
   * The saved rows are the edited rows, as many as there are, each without its average,
   * in ascending `sort_order`.
   */
  lemma SaveRowsSortedPermutation(edited: seq<DisplayRow>)
    ensures |SaveRows(edited)| == |edited|
    ensures multiset(SaveRows(edited)) == multiset(seq(|edited|, i requires 0 <= i < |edited| => Saved(edited[i])))
    ensures SortedBy(SaveRows(edited), SortOrder(), IntLe)
  {
    var stripped := seq(|edited|, i requires 0 <= i < |edited| => Saved(edited[i]));
    assert TotalPreorder(IntLe);
    SortByPermutes(stripped, SortOrder(), IntLe);
    SortBySorted(stripped, SortOrder(), IntLe);
  }
}
