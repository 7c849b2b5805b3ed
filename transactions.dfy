/**
 * The income/expense page: the fixed- and variable-cost metrics and the per-type totals
 * of its chart, over the rows of the analysed-transactions view.
 */
module Transactions {
  import opened Sorting
  import opened Sums

  /** The two columns of a view row the page aggregates. */
  datatype TxRow = TxRow(expenseType: string, amount: int)

  const FixedType: string := "고정 지출"
  const VariableType: string := "변동 지출"

  function OfType(t: string): TxRow -> bool {
    (r: TxRow) => r.expenseType == t
  }

  function AmountOf(): TxRow -> int {
    (r: TxRow) => r.amount
  }

  /** `df[df['expense_type'] == t]['amount'].sum()`. */
  function TypeSum(rows: seq<TxRow>, t: string): int {
    SumBy(Filter(rows, OfType(t)), AmountOf())
  }

  /** The fixed-cost metric. */
  function FixedCost(rows: seq<TxRow>): int {
    TypeSum(rows, FixedType)
  }

  /** The variable-cost metric. */
  function VariableCost(rows: seq<TxRow>): int {
    TypeSum(rows, VariableType)
  }

  /** `df.groupby('expense_type')['amount'].sum()`: one total per type that occurs. */
  function ChartData(rows: seq<TxRow>): (r: map<string, int>)
    ensures forall t :: t in r <==> exists i :: 0 <= i < |rows| && rows[i].expenseType == t
    ensures forall t :: t in r ==> r[t] == TypeSum(rows, t)
  {
    map t | t in (set i | 0 <= i < |rows| :: rows[i].expenseType) :: TypeSum(rows, t)
  }

  /** A type's total is the sum over all rows of the amounts of that type. */
  lemma {:induction false} TypeSumByRow(rows: seq<TxRow>, t: string)
    ensures TypeSum(rows, t) == (if rows == [] then 0 else
      TypeSum(rows[..|rows| - 1], t) + (if rows[|rows| - 1].expenseType == t then rows[|rows| - 1].amount else 0))
  {
    SumFilter(rows, OfType(t), AmountOf());
    if rows != [] {
      SumFilter(rows[..|rows| - 1], OfType(t), AmountOf());
    }
  }

  /** A row of any type but the two leaves both metrics as they were. */
  lemma OtherTypesIgnored(rows: seq<TxRow>, r: TxRow)
    requires r.expenseType != FixedType && r.expenseType != VariableType
    ensures FixedCost(rows + [r]) == FixedCost(rows)
    ensures VariableCost(rows + [r]) == VariableCost(rows)
  {
    TypeSumByRow(rows + [r], FixedType);
    TypeSumByRow(rows + [r], VariableType);
    assert (rows + [r])[..|rows|] == rows;
  }

  /** The chart's bars for the two types are the two metrics, whenever such rows exist. */
  lemma ChartMatchesMetrics(rows: seq<TxRow>)
    ensures FixedType in ChartData(rows) ==> ChartData(rows)[FixedType] == FixedCost(rows)
    ensures VariableType in ChartData(rows) ==> ChartData(rows)[VariableType] == VariableCost(rows)
    ensures FixedType !in ChartData(rows) ==> FixedCost(rows) == 0
    ensures VariableType !in ChartData(rows) ==> VariableCost(rows) == 0
  {
    if FixedType !in ChartData(rows) {
      FilterNone(rows, OfType(FixedType));
    }
    if VariableType !in ChartData(rows) {
      FilterNone(rows, OfType(VariableType));
    }
  }

  /** No row is counted in both metrics, so together they are the sum over the rows of either type. */
  lemma MetricsDisjoint(rows: seq<TxRow>)
    ensures FixedCost(rows) + VariableCost(rows) ==
      SumBy(rows, Plus(Masked(OfType(FixedType), AmountOf()), Masked(OfType(VariableType), AmountOf())))
  {
    SumFilter(rows, OfType(FixedType), AmountOf());
    SumFilter(rows, OfType(VariableType), AmountOf());
    SumPlus(rows, Masked(OfType(FixedType), AmountOf()), Masked(OfType(VariableType), AmountOf()));
  }
}
