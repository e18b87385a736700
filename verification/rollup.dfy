/**
 * The category roll-up of `clean_data`: group the rows by (Category,
 * Sub-Category), sum total_sales and total_profit per group, compute each
 * group's share of all sales and its profit/sales ratio, and left-merge those
 * two columns back onto every row of the group.
 *
 * Neither division is guarded in the program, so a zero divisor yields
 * pandas' inf or NaN; the model writes such a cell as `None`.
 */
module CategoryRollup {
  import opened Wrappers
  import opened Seqs
  import opened Sums
  import opened Tables

  /** Sum of the total_sales column. */
  function SalesTotal(rows: seq<Row>): real {
    Sum(SalesColumn(rows))
  }

  /** The column total grows by the last row's total_sales. */
  lemma SalesTotalSnoc(rows: seq<Row>)
    requires |rows| >= 1
    ensures SalesTotal(rows) == SalesTotal(rows[..|rows| - 1]) + rows[|rows| - 1].totalSales
  {
    assert SalesColumn(rows)[..|rows| - 1] == SalesColumn(rows[..|rows| - 1]);
  }

  /** Sum of total_sales over the rows of category group `k`. */
  function GroupSales(rows: seq<Row>, k: CategoryKey): real {
    if |rows| == 0 then 0.0
    else
      var n := |rows| - 1;
      GroupSales(rows[..n], k) + (if CategoryOf(rows[n]) == k then rows[n].totalSales else 0.0)
  }

  /** Sum of total_profit over the rows of category group `k`. */
  function GroupProfit(rows: seq<Row>, k: CategoryKey): real {
    if |rows| == 0 then 0.0
    else
      var n := |rows| - 1;
      GroupProfit(rows[..n], k) + (if CategoryOf(rows[n]) == k then rows[n].totalProfit else 0.0)
  }

  /** The (Category, Sub-Category) key of every row, in order. */
  function CategoryColumn(rows: seq<Row>): (keys: seq<CategoryKey>)
    ensures |keys| == |rows|
    ensures forall i :: 0 <= i < |rows| ==> keys[i] == CategoryOf(rows[i])
  {
    seq(|rows|, i requires 0 <= i < |rows| => CategoryOf(rows[i]))
  }

  /** The roll-up groups: the distinct (Category, Sub-Category) keys of the rows. */
  function CategoryKeys(rows: seq<Row>): (ks: seq<CategoryKey>)
    ensures Distinct(ks)
    ensures forall i :: 0 <= i < |rows| ==> CategoryOf(rows[i]) in ks
    ensures forall k :: k in ks ==> exists i :: 0 <= i < |rows| && CategoryOf(rows[i]) == k
  {
    var keys := CategoryColumn(rows);
    assert forall i :: 0 <= i < |rows| ==> keys[i] == CategoryOf(rows[i]);
    Dedup(keys)
  }

  /** Sum of the groups' summed sales: the denominator of `category_sales_pct`. */
  function SumOverGroups(rows: seq<Row>, ks: seq<CategoryKey>): real {
    if |ks| == 0 then 0.0
    else SumOverGroups(rows, ks[..|ks| - 1]) + GroupSales(rows, ks[|ks| - 1])
  }

  /** `a / b`, or `None` where pandas would produce inf or NaN. */
  function UnguardedDiv(a: real, b: real): (r: Option<real>)
    ensures r.Some? <==> b != 0.0
    ensures r.Some? ==> r.value * b == a
  {
    if b == 0.0 then None else Some(a / b)
  }

  /** One row of `category_agg`. */
  datatype CategoryGroup = CategoryGroup(
    key: CategoryKey,
    totalSales: real,
    totalProfit: real,
    salesPct: Option<real>,
    profitRatio: Option<real>)

  function MakeGroup(rows: seq<Row>, k: CategoryKey, grand: real): CategoryGroup {
    var sales := GroupSales(rows, k);
    var profit := GroupProfit(rows, k);
    CategoryGroup(k, sales, profit, UnguardedDiv(sales, grand), UnguardedDiv(profit, sales))
  }

  function BuildGroups(rows: seq<Row>, ks: seq<CategoryKey>, grand: real): (gs: seq<CategoryGroup>)
    ensures |gs| == |ks|
    ensures forall i :: 0 <= i < |ks| ==> gs[i] == MakeGroup(rows, ks[i], grand)
  {
    if |ks| == 0 then []
    else
      var n := |ks| - 1;
      BuildGroups(rows, ks[..n], grand) + [MakeGroup(rows, ks[n], grand)]
  }

  /** `category_agg`, with its two derived columns. */
  function Rollup(rows: seq<Row>): seq<CategoryGroup> {
    var ks := CategoryKeys(rows);
    BuildGroups(rows, ks, SumOverGroups(rows, ks))
  }

  /** The group a left merge on (Category, Sub-Category) pairs with a row of key `k`, if any. */
  function Lookup(groups: seq<CategoryGroup>, k: CategoryKey): (g: Option<CategoryGroup>)
    ensures g.Some? ==> g.value in groups && g.value.key == k
    ensures g.None? ==> forall i :: 0 <= i < |groups| ==> groups[i].key != k
  {
    if |groups| == 0 then None
    else if groups[0].key == k then Some(groups[0])
    else Lookup(groups[1..], k)
  }

  /**
   * The two cells the left merge adds to a row of key `k`: the group's share
   * and ratio, or NaN (`None`) when no group matches.
   */
  function MergedCells(groups: seq<CategoryGroup>, k: CategoryKey): (Option<real>, Option<real>) {
    match Lookup(groups, k)
    case Some(g) => (g.salesPct, g.profitRatio)
    case None => (None, None)
  }

  /** Sum of the group shares, counting a non-finite share as 0. */
  function ShareTotal(groups: seq<CategoryGroup>): real {
    if |groups| == 0 then 0.0
    else ShareTotal(groups[..|groups| - 1]) + groups[|groups| - 1].salesPct.GetOr(0.0)
  }

  // ---------------------------------------------------------------------------
  // Regrouping a sum

  lemma {:induction false} SumOverGroupsOfNothing(ks: seq<CategoryKey>)
    ensures SumOverGroups([], ks) == 0.0
  {
    if |ks| > 0 {
      SumOverGroupsOfNothing(ks[..|ks| - 1]);
    }
  }

  /** Appending a row adds its sales to the sum over groups exactly when its group is listed. */
  lemma {:induction false} SumOverGroupsSnoc(rows: seq<Row>, r: Row, ks: seq<CategoryKey>)
    requires Distinct(ks)
    ensures SumOverGroups(rows + [r], ks) ==
              SumOverGroups(rows, ks) + (if CategoryOf(r) in ks then r.totalSales else 0.0)
  {
    if |ks| > 0 {
      var n := |ks| - 1;
      assert ks == ks[..n] + [ks[n]];
      assert (rows + [r])[..|rows|] == rows;
      SumOverGroupsSnoc(rows, r, ks[..n]);
      assert CategoryOf(r) in ks <==> CategoryOf(r) in ks[..n] || CategoryOf(r) == ks[n];
      assert ks[n] !in ks[..n];
    }
  }

  /**
   * Summing the per-group sales over a duplicate-free list of groups that
   * covers every row gives the total of the whole column.
   */
  lemma {:induction false} SumOverGroupsIsTotal(rows: seq<Row>, ks: seq<CategoryKey>)
    requires Distinct(ks)
    requires forall i :: 0 <= i < |rows| ==> CategoryOf(rows[i]) in ks
    ensures SumOverGroups(rows, ks) == SalesTotal(rows)
  {
    if |rows| == 0 {
      SumOverGroupsOfNothing(ks);
    } else {
      var n := |rows| - 1;
      assert rows == rows[..n] + [rows[n]];
      SumOverGroupsIsTotal(rows[..n], ks);
      SumOverGroupsSnoc(rows[..n], rows[n], ks);
      SalesTotalSnoc(rows);
    }
  }

  /** The denominator of `category_sales_pct` is the total of the whole total_sales column. */
  lemma GrandTotalIsColumnTotal(rows: seq<Row>)
    ensures SumOverGroups(rows, CategoryKeys(rows)) == SalesTotal(rows)
  {
    SumOverGroupsIsTotal(rows, CategoryKeys(rows));
  }

  lemma DivAdd(a: real, b: real, d: real)
    requires d != 0.0
    ensures a / d + b / d == (a + b) / d
  {
  }

  lemma {:induction false} ShareTotalOfGroups(rows: seq<Row>, ks: seq<CategoryKey>, grand: real)
    requires grand != 0.0
    ensures ShareTotal(BuildGroups(rows, ks, grand)) == SumOverGroups(rows, ks) / grand
  {
    if |ks| > 0 {
      var n := |ks| - 1;
      var gs := BuildGroups(rows, ks, grand);
      assert gs[..n] == BuildGroups(rows, ks[..n], grand);
      ShareTotalOfGroups(rows, ks[..n], grand);
      var last := GroupSales(rows, ks[n]);
      assert gs[n].salesPct.GetOr(0.0) == last / grand;
      DivAdd(SumOverGroups(rows, ks[..n]), last, grand);
    }
  }

  /** The roll-up's groups are built against the column total. */
  lemma RollupGroups(rows: seq<Row>)
    ensures Rollup(rows) == BuildGroups(rows, CategoryKeys(rows), SalesTotal(rows))
  {
    GrandTotalIsColumnTotal(rows);
  }

  /** The keys of `category_agg` are the distinct keys the rows' keys reduce to, in order. */
  lemma RollupKeyAt(rows: seq<Row>, j: nat)
    requires j < |Rollup(rows)|
    ensures j < |CategoryKeys(rows)| && Rollup(rows)[j].key == CategoryKeys(rows)[j]
  {
    RollupGroups(rows);
  }

  /** `category_agg` has one group per key: no two groups share a (Category, Sub-Category). */
  lemma RollupKeysDistinct(rows: seq<Row>, a: nat, b: nat)
    requires a < b < |Rollup(rows)|
    ensures Rollup(rows)[a].key != Rollup(rows)[b].key
  {
    RollupKeyAt(rows, a);
    RollupKeyAt(rows, b);
  }

  /** Every row's (Category, Sub-Category) has a group in `category_agg`. */
  lemma RollupCoversRow(rows: seq<Row>, i: nat)
    requires i < |rows|
    ensures exists j :: 0 <= j < |Rollup(rows)| && Rollup(rows)[j].key == CategoryOf(rows[i])
  {
    var ks := CategoryKeys(rows);
    var j :| 0 <= j < |ks| && ks[j] == CategoryOf(rows[i]);
    RollupGroups(rows);
    RollupKeyAt(rows, j);
  }

  /** Every group of `category_agg` comes from some row with its key. */
  lemma RollupGroupFromRow(rows: seq<Row>, j: nat)
    requires j < |Rollup(rows)|
    ensures exists i :: 0 <= i < |rows| && CategoryOf(rows[i]) == Rollup(rows)[j].key
  {
    RollupKeyAt(rows, j);
    assert CategoryKeys(rows)[j] in CategoryKeys(rows);
  }

  /**
   * Each group of `category_agg` holds the sums of total_sales and
   * total_profit over its rows, its share of the whole total_sales column,
   * and its profit/sales ratio; each quotient is `None` exactly when its
   * divisor is 0.
   */
  lemma RollupGroupCells(rows: seq<Row>, j: nat)
    requires j < |Rollup(rows)|
    ensures var g := Rollup(rows)[j];
      && g.totalSales == GroupSales(rows, g.key)
      && g.totalProfit == GroupProfit(rows, g.key)
      && g.salesPct == UnguardedDiv(g.totalSales, SalesTotal(rows))
      && g.profitRatio == UnguardedDiv(g.totalProfit, g.totalSales)
  {
    RollupGroups(rows);
  }

  /**
   * When the total of total_sales is non-zero, the category_sales_pct values
   * of the groups sum to 1.
   */
  lemma SharesSumToOne(rows: seq<Row>)
    requires SalesTotal(rows) != 0.0
    ensures ShareTotal(Rollup(rows)) == 1.0
  {
    var total := SalesTotal(rows);
    RollupGroups(rows);
    GrandTotalIsColumnTotal(rows);
    ShareTotalOfGroups(rows, CategoryKeys(rows), total);
    DivSelf(total);
  }

  lemma DivSelf(x: real)
    requires x != 0.0
    ensures x / x == 1.0
  {
  }

  /** A group's category_sales_pct is a number exactly when the total of total_sales is non-zero. */
  lemma SharesDefined(rows: seq<Row>, i: nat)
    requires i < |Rollup(rows)|
    ensures Rollup(rows)[i].salesPct.Some? <==> SalesTotal(rows) != 0.0
  {
    RollupGroups(rows);
  }

  // ---------------------------------------------------------------------------
  // The left merge

  lemma {:induction false} LookupDistinct(groups: seq<CategoryGroup>, i: nat)
    requires i < |groups|
    requires forall a, b :: 0 <= a < b < |groups| ==> groups[a].key != groups[b].key
    ensures Lookup(groups, groups[i].key) == Some(groups[i])
  {
    if i > 0 {
      assert groups[0].key != groups[i].key;
      assert groups[1..][i - 1] == groups[i];
      LookupDistinct(groups[1..], i - 1);
    }
  }

  /**
   * Every row finds its group in the roll-up, and the two cells the merge
   * adds are that group's: its share of the whole total_sales column, and its
   * summed profit over its summed sales; each is non-finite (`None`) exactly
   * when its divisor is zero.
   */
  lemma MergedCellsOfRow(rows: seq<Row>, i: nat)
    requires i < |rows|
    ensures MergedCells(Rollup(rows), CategoryOf(rows[i])) ==
              (UnguardedDiv(GroupSales(rows, CategoryOf(rows[i])), SalesTotal(rows)),
               UnguardedDiv(GroupProfit(rows, CategoryOf(rows[i])), GroupSales(rows, CategoryOf(rows[i]))))
  {
    var ks := CategoryKeys(rows);
    var gs := Rollup(rows);
    var k := CategoryOf(rows[i]);
    var j :| 0 <= j < |ks| && ks[j] == k;
    assert gs[j].key == k;
    LookupDistinct(gs, j);
    GrandTotalIsColumnTotal(rows);
  }
}
