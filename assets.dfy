/**
 * The assets page: the updated-date caption, the owner tabs, and the asset, debt, cash
 * and net-worth metrics over all rows of the latest snapshot and per owner.
 */
module Assets {
  import opened Wrappers
  import opened Text
  import opened Sorting
  import opened Sums

  /** A row of `get_latest_assets()`. `snapshotDate` is None for a missing value. */
  datatype AssetRow = AssetRow(owner: string, snapshotDate: Option<string>, balanceType: string,
                               assetType: string, accountName: string, amount: int)

  const AllTab: string := "전체"
  const Honorific: string := "님"

  // ---------------------------------------------------------------------------
  // The caption

  /**
   * The first word of the first row's snapshot date, empty when that is missing or empty. None where
   * Python raises: a non-empty value made only of whitespace.
   */
  function UpdatedDate(rows: seq<AssetRow>): (r: Option<string>)
    requires rows != []
    ensures rows[0].snapshotDate.None? || rows[0].snapshotDate == Some("") ==> r == Some("")
    ensures rows[0].snapshotDate.Some? && rows[0].snapshotDate.value != "" ==> r == FirstToken(rows[0].snapshotDate.value)
  {
    match rows[0].snapshotDate
    case None => Some("")
    case Some(s) => if s == "" then Some("") else FirstToken(s)
  }

  // ---------------------------------------------------------------------------
  // Metrics

  function BalanceIs(t: string): AssetRow -> bool {
    (r: AssetRow) => r.balanceType == t
  }

  function AssetTypeIs(t: string): AssetRow -> bool {
    (r: AssetRow) => r.assetType == t
  }

  function AccountIs(t: string): AssetRow -> bool {
    (r: AssetRow) => r.accountName == t
  }

  function OwnedBy(o: string): AssetRow -> bool {
    (r: AssetRow) => r.owner == o
  }

  function Amount(): AssetRow -> int {
    (r: AssetRow) => r.amount
  }

  /** The total amount of the rows that satisfy `p`. */
  function SumWhere(rows: seq<AssetRow>, p: AssetRow -> bool): int {
    SumBy(Filter(rows, p), Amount())
  }

  datatype Metrics = Metrics(asset: int, debt: int, cash: int, net: int)

  /** The four metrics of a tab over its rows. */
  function MetricsOf(rows: seq<AssetRow>): Metrics {
    var asset := SumWhere(rows, BalanceIs("자산"));
    var debt := SumWhere(rows, BalanceIs("부채"));
    var cash := SumWhere(rows, AssetTypeIs("현금 자산")) + SumWhere(rows, AccountIs("예비 계좌 (네이버)"))
      + SumWhere(rows, AccountIs("자유입출금 자산"));
    Metrics(asset, debt, cash, asset - debt)
  }

  /** A row's signed contribution to net worth: + for an asset, - for a debt, 0 otherwise. */
  function Signed(): AssetRow -> int {
    (r: AssetRow) => if r.balanceType == "자산" then r.amount else if r.balanceType == "부채" then -r.amount else 0
  }

  /** Net worth is the sum of the signed amounts, so rows of any other balance type count for nothing. */
  lemma NetWorthIsSignedSum(rows: seq<AssetRow>)
    ensures MetricsOf(rows).net == SumBy(rows, Signed())
  {
    var isAsset, isDebt := Masked(BalanceIs("자산"), Amount()), Masked(BalanceIs("부채"), Amount());
    SumFilter(rows, BalanceIs("자산"), Amount());
    SumFilter(rows, BalanceIs("부채"), Amount());
    SumMinus(rows, isAsset, isDebt);
    SumAgree(rows, Minus(isAsset, isDebt), Signed());
  }

  /** A row whose balance type is neither '자산' nor '부채' changes neither total. */
  lemma OtherBalanceIgnored(rows: seq<AssetRow>, r: AssetRow)
    requires r.balanceType != "자산" && r.balanceType != "부채"
    ensures MetricsOf(rows + [r]).asset == MetricsOf(rows).asset
    ensures MetricsOf(rows + [r]).debt == MetricsOf(rows).debt
  {
    FilterAppend(rows, [r], BalanceIs("자산"));
    FilterAppend(rows, [r], BalanceIs("부채"));
    FilterSingleton(r, BalanceIs("자산"));
    FilterSingleton(r, BalanceIs("부채"));
    assert Filter(rows, BalanceIs("자산")) + [] == Filter(rows, BalanceIs("자산"));
    assert Filter(rows, BalanceIs("부채")) + [] == Filter(rows, BalanceIs("부채"));
  }

  /** How many of the three cash filters a row matches. */
  function CashHits(r: AssetRow): (n: nat)
    ensures n <= 3
  {
    (if r.assetType == "현금 자산" then 1 else 0) + (if r.accountName == "예비 계좌 (네이버)" then 1 else 0)
      + (if r.accountName == "자유입출금 자산" then 1 else 0)
  }

  function CashWeighted(): AssetRow -> int {
    (r: AssetRow) => r.amount * CashHits(r)
  }

  /** Cash counts each row once per cash filter it matches. */
  lemma CashCountsEachMatch(rows: seq<AssetRow>)
    ensures MetricsOf(rows).cash == SumBy(rows, CashWeighted())
  {
    var a, b, c := Masked(AssetTypeIs("현금 자산"), Amount()), Masked(AccountIs("예비 계좌 (네이버)"), Amount()),
      Masked(AccountIs("자유입출금 자산"), Amount());
    SumFilter(rows, AssetTypeIs("현금 자산"), Amount());
    SumFilter(rows, AccountIs("예비 계좌 (네이버)"), Amount());
    SumFilter(rows, AccountIs("자유입출금 자산"), Amount());
    SumPlus(rows, a, b);
    SumPlus(rows, Plus(a, b), c);
    forall i | 0 <= i < |rows| ensures Plus(Plus(a, b), c)(rows[i]) == CashWeighted()(rows[i]) {
      CashWeightedRow(rows[i]);
    }
    SumAgree(rows, Plus(Plus(a, b), c), CashWeighted());
  }

  /** One row's share of the cash metric: its amount once per cash filter it matches. */
  lemma CashWeightedRow(r: AssetRow)
    ensures Plus(Plus(Masked(AssetTypeIs("현금 자산"), Amount()), Masked(AccountIs("예비 계좌 (네이버)"), Amount())),
      Masked(AccountIs("자유입출금 자산"), Amount()))(r) == CashWeighted()(r)
  {
    var x := if r.assetType == "현금 자산" then r.amount else 0;
    var y := if r.accountName == "예비 계좌 (네이버)" then r.amount else 0;
    var z := if r.accountName == "자유입출금 자산" then r.amount else 0;
    var h := CashHits(r);
    assert h == (if r.assetType == "현금 자산" then 1 else 0) + (if r.accountName == "예비 계좌 (네이버)" then 1 else 0)
      + (if r.accountName == "자유입출금 자산" then 1 else 0);
    assert r.amount * h == x + y + z;
  }

  /** A cash-type row on the free-deposit account counts twice. */
  lemma CashDoubleCount(r: AssetRow)
    requires r.assetType == "현금 자산" && r.accountName == "자유입출금 자산"
    ensures MetricsOf([r]).cash == 2 * r.amount
  {
    CashCountsEachMatch([r]);
    assert [r][..0] == [];
  }

  // ---------------------------------------------------------------------------
  // Owner tabs

  /**
   * The distinct owners: each owner once, in order of first appearance.
   */
  function Owners(rows: seq<AssetRow>): (r: seq<string>)
    ensures forall o :: o in r <==> exists i :: 0 <= i < |rows| && rows[i].owner == o
    ensures forall i, j :: 0 <= i < j < |r| ==> r[i] != r[j]
  {
    if rows == [] then []
    else
      var init := rows[..|rows| - 1];
      var u := Owners(init);
      assert forall i :: 0 <= i < |init| ==> init[i] == rows[i];
      if rows[|rows| - 1].owner in u then u else u + [rows[|rows| - 1].owner]
  }

  lemma {:induction false} DistinctCount(s: seq<string>, x: string)
    requires forall i, j :: 0 <= i < j < |s| ==> s[i] != s[j]
    ensures multiset(s)[x] == if x in s then 1 else 0
  {
    if s != [] {
      var init := s[..|s| - 1];
      DistinctCount(init, x);
      assert s == init + [s[|s| - 1]];
    }
  }

  /** The owners in tab order: ascending by string order. */
  function SortedOwners(rows: seq<AssetRow>): seq<string> {
    SortBy(Owners(rows), (o: string) => o, StrLe)
  }

  /** The tab labels: the all-owners tab, then each sorted owner followed by the honorific. */
  function TabNames(rows: seq<AssetRow>): (r: seq<string>)
    ensures |r| == |SortedOwners(rows)| + 1 && r[0] == AllTab
    ensures forall i :: 0 <= i < |SortedOwners(rows)| ==> r[i + 1] == SortedOwners(rows)[i] + Honorific
  {
    var owners := SortedOwners(rows);
    [AllTab] + seq(|owners|, i requires 0 <= i < |owners| => owners[i] + Honorific)
  }

  /** The tab owners are the row owners, each exactly once, in ascending order. */
  lemma SortedOwnersFacts(rows: seq<AssetRow>)
    ensures forall o :: multiset(SortedOwners(rows))[o] == if exists i :: 0 <= i < |rows| && rows[i].owner == o then 1 else 0
    ensures SortedBy(SortedOwners(rows), (o: string) => o, StrLe)
  {
    SortByPermutes(Owners(rows), (o: string) => o, StrLe);
    forall o ensures multiset(Owners(rows))[o] == if o in Owners(rows) then 1 else 0 {
      DistinctCount(Owners(rows), o);
    }
    assert TotalPreorder(StrLe) by {
      forall a: string, b: string ensures StrLe(a, b) || StrLe(b, a) {
        StrLeTotal(a, b);
      }
      forall a: string, b: string, c: string ensures Chain(StrLe, a, b, c) {
        if StrLe(a, b) && StrLe(b, c) {
          StrLeTransitive(a, b, c);
        }
      }
    }
    SortBySorted(Owners(rows), (o: string) => o, StrLe);
  }

  /** The owner read back from a tab label as the page does it: every '님' goes, not only the appended one. */
  function TabOwnerAsWritten(tab: string): string {
    RemoveChar(tab, '님')
  }

  /** The owner of a tab: the name without the one '님' the tab list appended. */
  function TabOwner(tab: string): (o: string)
    ensures EndsWith(tab, Honorific) ==> o + Honorific == tab
  {
    if EndsWith(tab, Honorific) then tab[..|tab| - 1] else tab
  }

  /** Taking the suffix off recovers every owner. */
  lemma TabOwnerRecovers(o: string)
    ensures TabOwner(o + Honorific) == o
  {
    assert (o + Honorific)[..|o|] == o;
  }

  /** The source's replacement recovers the owner when the name has no '님' of its own. */
  lemma TabOwnerAsWrittenRecovers(o: string)
    requires '님' !in o
    ensures TabOwnerAsWritten(o + Honorific) == o
  {
    RemoveCharAppend(o, Honorific, '님');
    RemoveCharAbsent(o, '님');
    assert Honorific[1..] == [];
  }

  /**
   * An owner named "하님" gets the tab "하님님", which the source reads back as owner "하":
   * the tab of an asset worth 100 shows 0.
   */
  lemma TabOwnerAsWrittenLoses(r: AssetRow)
    requires r.owner == "하님" && r.balanceType == "자산" && r.amount == 100
    ensures TabOwnerAsWritten(r.owner + Honorific) == "하"
    ensures MetricsOf(Filter([r], OwnedBy(TabOwnerAsWritten(r.owner + Honorific)))).asset == 0
    ensures MetricsOf(Filter([r], OwnedBy(TabOwner(r.owner + Honorific)))).asset == 100
  {
    assert r.owner + Honorific == "하님님";
    assert "하님님"[1..] == "님님" && "님님"[1..] == "님" && "님"[1..] == [];
    TabOwnerRecovers(r.owner);
    FilterSingleton(r, OwnedBy("하"));
    FilterSingleton(r, OwnedBy("하님"));
    FilterSingleton(r, BalanceIs("자산"));
    assert [r][..0] == [];
  }

  /** The rows a tab shows: all rows for the first tab, the owner's rows for the others. */
  function TabRows(rows: seq<AssetRow>, tab: string): seq<AssetRow> {
    if tab == AllTab then rows else Filter(rows, OwnedBy(TabOwner(tab)))
  }

  /** The metrics a tab shows. */
  function TabMetrics(rows: seq<AssetRow>, tab: string): Metrics {
    MetricsOf(TabRows(rows, tab))
  }

  /** An owner's total of the field `f`. */
  function OwnerTotals(rows: seq<AssetRow>, f: AssetRow -> int): string -> int {
    (o: string) => SumBy(Filter(rows, OwnedBy(o)), f)
  }

  function Indicator(x: string, v: int): string -> int {
    (o: string) => if o == x then v else 0
  }

  lemma {:induction false} SumIndicator(owners: seq<string>, x: string, v: int)
    ensures SumBy(owners, Indicator(x, v)) == multiset(owners)[x] * v
  {
    if owners != [] {
      var init := owners[..|owners| - 1];
      SumIndicator(init, x, v);
      assert owners == init + [owners[|owners| - 1]];
    }
  }

  /**
   * Summed over a list holding every row's owner exactly once, the owners' totals of a
   * field make its total over all rows.
   */
  lemma {:induction false} OwnerSplit(rows: seq<AssetRow>, owners: seq<string>, f: AssetRow -> int)
    requires forall i :: 0 <= i < |rows| ==> multiset(owners)[rows[i].owner] == 1
    ensures SumBy(owners, OwnerTotals(rows, f)) == SumBy(rows, f)
  {
    if rows == [] {
      NoRowsNoTotals(owners, f);
    } else {
      var init, r := rows[..|rows| - 1], rows[|rows| - 1];
      assert rows == init + [r];
      assert forall i :: 0 <= i < |init| ==> init[i] == rows[i];
      OwnerSplit(init, owners, f);
      OwnerSplitStep(rows, init, r, owners, f);
    }
  }

  lemma NoRowsNoTotals(owners: seq<string>, f: AssetRow -> int)
    ensures SumBy(owners, OwnerTotals([], f)) == 0
  {
    SumAgree(owners, OwnerTotals([], f), Zero());
    SumZero(owners);
  }

  lemma OwnerSplitStep(rows: seq<AssetRow>, init: seq<AssetRow>, r: AssetRow, owners: seq<string>, f: AssetRow -> int)
    requires rows == init + [r] && multiset(owners)[r.owner] == 1
    requires SumBy(owners, OwnerTotals(init, f)) == SumBy(init, f)
    ensures SumBy(owners, OwnerTotals(rows, f)) == SumBy(rows, f)
  {
    var g, h := OwnerTotals(init, f), Indicator(r.owner, f(r));
    forall i | 0 <= i < |owners|
      ensures OwnerTotals(rows, f)(owners[i]) == Plus(g, h)(owners[i])
    {
      OwnerStep(rows, init, r, owners[i], f);
    }
    SumAgree(owners, OwnerTotals(rows, f), Plus(g, h));
    SumPlus(owners, g, h);
    SumIndicator(owners, r.owner, f(r));
    assert rows[..|rows| - 1] == init;
  }

  /** One more row adds its field to its own owner's total only. */
  lemma OwnerStep(rows: seq<AssetRow>, init: seq<AssetRow>, r: AssetRow, o: string, f: AssetRow -> int)
    requires rows == init + [r]
    ensures OwnerTotals(rows, f)(o) == Plus(OwnerTotals(init, f), Indicator(r.owner, f(r)))(o)
  {
    FilterAppend(init, [r], OwnedBy(o));
    FilterSingleton(r, OwnedBy(o));
    SumAppend(Filter(init, OwnedBy(o)), Filter([r], OwnedBy(o)), f);
    assert [r][..0] == [];
  }

  /** The tab owners, read back from the tab names after the first. */
  function TabOwners(rows: seq<AssetRow>): seq<string> {
    var tabs := TabNames(rows);
    seq(|tabs| - 1, i requires 0 <= i < |tabs| - 1 => TabOwner(tabs[i + 1]))
  }

  /** An owner tab's total of the balance type `t`: its asset metric for '자산', its debt metric for '부채'. */
  function TabBalance(rows: seq<AssetRow>, t: string): string -> int {
    (o: string) => SumWhere(TabRows(rows, o + Honorific), BalanceIs(t))
  }

  /** No owner tab is the first tab. */
  lemma OwnerTabNotAll(o: string)
    ensures o + Honorific != AllTab
  {
    var tab := o + Honorific;
    assert tab[|tab| - 1] == '님';
    assert AllTab[|AllTab| - 1] == '체';
  }

  /**
   * The owner tabs partition the first tab: their asset totals, and their debt totals,
   * add up to the overall ones.
   */
  lemma OwnerTabsAddUp(rows: seq<AssetRow>)
    ensures TabOwners(rows) == SortedOwners(rows)
    ensures forall o :: TabBalance(rows, "자산")(o) == TabMetrics(rows, o + Honorific).asset
    ensures forall o :: TabBalance(rows, "부채")(o) == TabMetrics(rows, o + Honorific).debt
    ensures SumBy(TabOwners(rows), TabBalance(rows, "자산")) == TabMetrics(rows, AllTab).asset
    ensures SumBy(TabOwners(rows), TabBalance(rows, "부채")) == TabMetrics(rows, AllTab).debt
  {
    TabOwnersSorted(rows);
    forall o ensures TabBalance(rows, "자산")(o) == TabMetrics(rows, o + Honorific).asset
      && TabBalance(rows, "부채")(o) == TabMetrics(rows, o + Honorific).debt {
      TabBalanceIsMetric(rows, o);
    }
    SortedOwnersFacts(rows);
    OwnerTabsAddUpField(rows, SortedOwners(rows), "자산");
    OwnerTabsAddUpField(rows, SortedOwners(rows), "부채");
  }

  lemma TabOwnersSorted(rows: seq<AssetRow>)
    ensures TabOwners(rows) == SortedOwners(rows)
  {
    var owners := SortedOwners(rows);
    forall i | 0 <= i < |owners| ensures TabOwners(rows)[i] == owners[i] {
      TabOwnerRecovers(owners[i]);
    }
  }

  lemma TabBalanceIsMetric(rows: seq<AssetRow>, o: string)
    ensures TabBalance(rows, "자산")(o) == TabMetrics(rows, o + Honorific).asset
    ensures TabBalance(rows, "부채")(o) == TabMetrics(rows, o + Honorific).debt
  {
    OwnerTabNotAll(o);
    var tr := TabRows(rows, o + Honorific);
    assert TabMetrics(rows, o + Honorific) == MetricsOf(tr);
  }

  lemma OwnerTabsAddUpField(rows: seq<AssetRow>, owners: seq<string>, t: string)
    requires forall o :: multiset(owners)[o] == if exists i :: 0 <= i < |rows| && rows[i].owner == o then 1 else 0
    ensures SumBy(owners, TabBalance(rows, t)) == SumWhere(rows, BalanceIs(t))
  {
    var f := Masked(BalanceIs(t), Amount());
    forall i | 0 <= i < |owners| ensures TabBalance(rows, t)(owners[i]) == OwnerTotals(rows, f)(owners[i]) {
      OwnerTabNotAll(owners[i]);
      TabOwnerRecovers(owners[i]);
      SumFilter(Filter(rows, OwnedBy(owners[i])), BalanceIs(t), Amount());
    }
    SumAgree(owners, TabBalance(rows, t), OwnerTotals(rows, f));
    forall i | 0 <= i < |rows| ensures multiset(owners)[rows[i].owner] == 1 {
    }
    OwnerSplit(rows, owners, f);
    SumFilter(rows, BalanceIs(t), Amount());
  }
}
