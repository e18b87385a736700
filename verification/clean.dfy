/**
 * `clean_data`: fill NULL numeric cells with 0, then add the derived
 * columns: the high-value flag, three guarded ratios, the per-customer dense
 * rank of total_sales, and the two category roll-up columns merged back onto
 * every row. The output keeps the input's rows, in the input's order.
 */
module Clean {
  import opened Seqs
  import opened Tables
  import opened Quantile
  import opened DenseRank
  import opened CategoryRollup

  /** A ratio whose zero divisor is replaced by 1 before dividing. */
  function GuardedDiv(num: real, den: real): (r: real)
    ensures den != 0.0 ==> r * den == num
    ensures den == 0.0 ==> r == num
  {
    num / (if den == 0.0 then 1.0 else den)
  }

  /** The rows after `fillna(0)`. */
  function Filled(rows: seq<SummaryRow>): (fs: seq<Row>)
    ensures |fs| == |rows|
    ensures forall i :: 0 <= i < |rows| ==> fs[i] == FillNa(rows[i])
  {
    seq(|rows|, i requires 0 <= i < |rows| => FillNa(rows[i]))
  }

  /** The high-value threshold: the 0.9 quantile of the total_sales column. */
  function HighValueThreshold(rows: seq<Row>): real
    requires |rows| >= 1
  {
    LinearQuantile(SalesColumn(rows), HighValueQuantile)
  }

  /** The derived cells of row `i`. */
  function Enrich(rows: seq<Row>, i: nat, threshold: real, groups: seq<CategoryGroup>): CleanRow
    requires i < |rows|
  {
    var r := rows[i];
    var cells := MergedCells(groups, CategoryOf(r));
    CleanRow(
      r,
      r.totalSales > threshold,
      GuardedDiv(r.totalProfit, r.totalSales),
      GuardedDiv(r.totalSales, r.totalOrders as real),
      DenseRankOf(rows, i),
      GuardedDiv(r.totalSales, r.totalProfit),
      cells.0,
      cells.1)
  }

  /** `clean_data`: the enriched table; the row count, row order and existing columns are kept. */
  function CleanData(rows: seq<SummaryRow>): (out: seq<CleanRow>)
    ensures |out| == |rows|
    ensures forall i :: 0 <= i < |rows| ==> out[i].row == FillNa(rows[i])
  {
    var fs := Filled(rows);
    if |fs| == 0 then []
    else EnrichAll(fs, HighValueThreshold(fs), Rollup(fs))
  }

  /** Every row of `rows` with its derived cells, in order. */
  function EnrichAll(rows: seq<Row>, threshold: real, groups: seq<CategoryGroup>): (out: seq<CleanRow>)
    ensures |out| == |rows|
    ensures forall i :: 0 <= i < |rows| ==> out[i] == Enrich(rows, i, threshold, groups)
    ensures forall i :: 0 <= i < |rows| ==> out[i].row == rows[i]
  {
    seq(|rows|, i requires 0 <= i < |rows| => Enrich(rows, i, threshold, groups))
  }

  lemma CleanDataRow(rows: seq<SummaryRow>, i: nat)
    requires i < |rows|
    ensures CleanData(rows)[i] ==
              Enrich(Filled(rows), i, HighValueThreshold(Filled(rows)), Rollup(Filled(rows)))
  {
  }

  // ---------------------------------------------------------------------------
  // The guarded ratios

  /**
   * profit_margin, avg_order_value and sales_to_profit_ratio never divide by
   * zero: each is numerator / divisor when the divisor is non-zero, and the
   * numerator itself when the divisor is 0.
   */
  lemma RatiosGuarded(rows: seq<SummaryRow>, i: nat)
    requires i < |rows|
    ensures var c := CleanData(rows)[i]; var r := c.row;
      && (r.totalSales != 0.0 ==> c.profitMargin == r.totalProfit / r.totalSales)
      && (r.totalSales == 0.0 ==> c.profitMargin == r.totalProfit)
      && (r.totalOrders != 0 ==> c.avgOrderValue == r.totalSales / r.totalOrders as real)
      && (r.totalOrders == 0 ==> c.avgOrderValue == r.totalSales)
      && (r.totalProfit != 0.0 ==> c.salesToProfitRatio == r.totalSales / r.totalProfit)
      && (r.totalProfit == 0.0 ==> c.salesToProfitRatio == r.totalSales)
  {
    CleanDataRow(rows, i);
  }

  // ---------------------------------------------------------------------------
  // What the output carries, column by column
  //
  // The properties below are stated for any output table that carries the
  // filled rows and the derived column in question; `CleanDataCarries` shows
  // that the output of `CleanData` does.

  /** The output rows carry the filled rows, position by position. */
  predicate CarriesRows(out: seq<CleanRow>, fs: seq<Row>) {
    |out| == |fs| && forall k :: 0 <= k < |fs| ==> out[k].row == fs[k]
  }

  /** Exactly the rows whose total_sales lies strictly above `t` are flagged. */
  predicate FlagsAbove(out: seq<CleanRow>, t: real) {
    forall k :: 0 <= k < |out| ==> (out[k].highValueCustomer <==> out[k].row.totalSales > t)
  }

  /** The output's rank column is the dense rank column of the filled rows. */
  predicate CarriesRanks(out: seq<CleanRow>, fs: seq<Row>) {
    |out| == |fs| && forall k :: 0 <= k < |fs| ==> out[k].productRankPerCustomer == DenseRankOf(fs, k)
  }

  /** Each output row holds the roll-up cells merged for its (Category, Sub-Category). */
  predicate CarriesRollup(out: seq<CleanRow>, fs: seq<Row>) {
    |out| == |fs| &&
    forall k :: 0 <= k < |fs| ==>
      (out[k].categorySalesPct, out[k].categoryProfitRatio) == MergedCells(Rollup(fs), CategoryOf(fs[k]))
  }

  /**
   * The output of `clean_data` carries the filled rows, flags the rows above
   * the 0.9 quantile of total_sales, and holds the dense rank column and the
   * merged roll-up cells.
   */
  lemma CleanDataCarries(rows: seq<SummaryRow>)
    ensures CarriesRows(CleanData(rows), Filled(rows))
    ensures |rows| >= 1 ==> FlagsAbove(CleanData(rows), HighValueThreshold(Filled(rows)))
    ensures CarriesRanks(CleanData(rows), Filled(rows))
    ensures CarriesRollup(CleanData(rows), Filled(rows))
  {
    var fs := Filled(rows);
    var out := CleanData(rows);
    forall k | 0 <= k < |rows|
      ensures out[k].row == fs[k]
      ensures |rows| >= 1 ==> (out[k].highValueCustomer <==> out[k].row.totalSales > HighValueThreshold(fs))
      ensures out[k].productRankPerCustomer == DenseRankOf(fs, k)
      ensures (out[k].categorySalesPct, out[k].categoryProfitRatio) == MergedCells(Rollup(fs), CategoryOf(fs[k]))
    {
      CleanDataRow(rows, k);
    }
  }

  // ---------------------------------------------------------------------------
  // The high-value flag

  /** A row is flagged exactly when its total_sales is strictly above the 0.9 quantile of the column. */
  lemma HighValueIsAboveThreshold(rows: seq<SummaryRow>, i: nat)
    requires i < |rows|
    ensures CleanData(rows)[i].highValueCustomer <==>
              FillNa(rows[i]).totalSales > HighValueThreshold(Filled(rows))
  {
    CleanDataRow(rows, i);
  }

  /** The flag is monotone in total_sales: a row selling at least as much as a flagged row is flagged. */
  lemma HighValueMonotone(out: seq<CleanRow>, t: real, i: nat, j: nat)
    requires FlagsAbove(out, t)
    requires i < |out| && j < |out|
    requires out[i].highValueCustomer
    requires out[j].row.totalSales >= out[i].row.totalSales
    ensures out[j].highValueCustomer
  {
  }

  /** A row holding the column's minimum total_sales is never flagged. */
  lemma MinimumNotHighValue(out: seq<CleanRow>, fs: seq<Row>, i: nat)
    requires CarriesRows(out, fs) && |fs| >= 1
    requires FlagsAbove(out, HighValueThreshold(fs))
    requires i < |out|
    requires forall j :: 0 <= j < |out| ==> out[i].row.totalSales <= out[j].row.totalSales
    ensures !out[i].highValueCustomer
  {
    var col := SalesColumn(fs);
    forall j | 0 <= j < |col|
      ensures col[i] <= col[j]
    {
      assert out[j].row == fs[j];
    }
    MinimumNotAbove(col, HighValueQuantile, i);
    assert out[i].row == fs[i];
  }

  function IsHighValue(c: CleanRow): bool {
    c.highValueCustomer
  }

  /**
   * At most n - 1 - floor(0.9 * (n - 1)) of the n rows are flagged (about a
   * tenth of them).
   */
  lemma FewHighValue(out: seq<CleanRow>, fs: seq<Row>)
    requires CarriesRows(out, fs) && |fs| >= 1
    requires FlagsAbove(out, HighValueThreshold(fs))
    ensures CountIf(out, IsHighValue) <= |fs| - 1 - LowIndex(|fs|, HighValueQuantile)
  {
    var t := HighValueThreshold(fs);
    var col := SalesColumn(fs);
    forall k | 0 <= k < |out|
      ensures IsHighValue(out[k]) == Above(t)(col[k])
    {
      assert out[k].row == fs[k];
    }
    CountIfAligned(out, IsHighValue, col, Above(t));
    FewAbove(col, HighValueQuantile);
  }

  // ---------------------------------------------------------------------------
  // The per-customer rank

  /** The distinct total_sales values of customer `c` in the output. */
  function OutCustomerSales(out: seq<CleanRow>, c: string): set<real> {
    set i | 0 <= i < |out| && out[i].row.customerId == c :: out[i].row.totalSales
  }

  lemma CarriedCustomerSales(out: seq<CleanRow>, fs: seq<Row>, c: string)
    requires CarriesRows(out, fs)
    ensures OutCustomerSales(out, c) == CustomerSales(fs, c)
  {
    forall v | v in OutCustomerSales(out, c)
      ensures v in CustomerSales(fs, c)
    {
      var k :| 0 <= k < |out| && out[k].row.customerId == c && out[k].row.totalSales == v;
      assert out[k].row == fs[k];
    }
    forall v | v in CustomerSales(fs, c)
      ensures v in OutCustomerSales(out, c)
    {
      var k :| 0 <= k < |fs| && fs[k].customerId == c && fs[k].totalSales == v;
      assert out[k].row == fs[k];
    }
  }

  /**
   * product_rank_per_customer is a dense descending rank of total_sales
   * within each Customer ID: equal totals share a rank, a strictly larger
   * total has a strictly smaller rank and conversely, and every rank lies in
   * 1 .. k for k the customer's number of distinct totals.
   */
  lemma RankPerCustomer(out: seq<CleanRow>, fs: seq<Row>, i: nat, j: nat)
    requires CarriesRows(out, fs) && CarriesRanks(out, fs)
    requires i < |out| && j < |out|
    requires out[i].row.customerId == out[j].row.customerId
    ensures out[i].row.totalSales == out[j].row.totalSales ==>
              out[i].productRankPerCustomer == out[j].productRankPerCustomer
    ensures out[i].row.totalSales > out[j].row.totalSales <==>
              out[i].productRankPerCustomer < out[j].productRankPerCustomer
    ensures 1 <= out[i].productRankPerCustomer <= |OutCustomerSales(out, out[i].row.customerId)|
  {
    assert out[i].row == fs[i] && out[j].row == fs[j];
    DenseRankOrder(fs, i, j);
    CarriedCustomerSales(out, fs, fs[i].customerId);
  }

  /** Rank 1 goes to exactly the rows holding their customer's largest total_sales. */
  lemma RankOneIsCustomerMaximum(out: seq<CleanRow>, fs: seq<Row>, i: nat)
    requires CarriesRows(out, fs) && CarriesRanks(out, fs)
    requires i < |out|
    ensures out[i].productRankPerCustomer == 1 <==>
              forall k :: 0 <= k < |out| && out[k].row.customerId == out[i].row.customerId ==>
                            out[k].row.totalSales <= out[i].row.totalSales
  {
    DenseRankOrder(fs, i, i);
    assert forall k :: 0 <= k < |out| ==> out[k].row == fs[k];
  }

  /** The ranks customer `c`'s rows receive in the output. */
  function OutCustomerRanks(out: seq<CleanRow>, c: string): set<nat> {
    set i | 0 <= i < |out| && out[i].row.customerId == c :: out[i].productRankPerCustomer
  }

  lemma CarriedCustomerRanks(out: seq<CleanRow>, fs: seq<Row>, c: string)
    requires CarriesRows(out, fs) && CarriesRanks(out, fs)
    ensures OutCustomerRanks(out, c) == CustomerRanks(fs, c)
  {
    forall r | r in OutCustomerRanks(out, c)
      ensures r in CustomerRanks(fs, c)
    {
      var k :| 0 <= k < |out| && out[k].row.customerId == c && out[k].productRankPerCustomer == r;
      assert out[k].row == fs[k];
    }
    forall r | r in CustomerRanks(fs, c)
      ensures r in OutCustomerRanks(out, c)
    {
      var k :| 0 <= k < |fs| && fs[k].customerId == c && DenseRankOf(fs, k) == r;
      assert out[k].row == fs[k];
    }
  }

  /** The ranks of one customer's rows are exactly 1 .. k, for k its number of distinct totals. */
  lemma RanksAreDense(out: seq<CleanRow>, fs: seq<Row>, c: string)
    requires CarriesRows(out, fs) && CarriesRanks(out, fs)
    ensures OutCustomerRanks(out, c) == RankRange(|OutCustomerSales(out, c)|)
  {
    CarriedCustomerSales(out, fs, c);
    CarriedCustomerRanks(out, fs, c);
    CustomerRanksDense(fs, c);
  }

  // ---------------------------------------------------------------------------
  // The merged roll-up columns

  /**
   * Each row receives its (Category, Sub-Category) group's roll-up:
   * category_sales_pct is the group's summed total_sales over the whole
   * column's total, and category_profit_ratio the group's summed
   * total_profit over its summed total_sales; each is non-finite exactly
   * when its divisor is 0.
   */
  lemma RollupCellsOfRow(out: seq<CleanRow>, fs: seq<Row>, i: nat)
    requires CarriesRows(out, fs) && CarriesRollup(out, fs)
    requires i < |out|
    ensures var k := CategoryOf(out[i].row);
      && out[i].categorySalesPct == UnguardedDiv(GroupSales(fs, k), SalesTotal(fs))
      && out[i].categoryProfitRatio == UnguardedDiv(GroupProfit(fs, k), GroupSales(fs, k))
  {
    assert out[i].row == fs[i];
    MergedCellsOfRow(fs, i);
  }

  /** Rows of the same (Category, Sub-Category) receive the same two roll-up cells. */
  lemma RollupCellsShared(out: seq<CleanRow>, fs: seq<Row>, i: nat, j: nat)
    requires CarriesRows(out, fs) && CarriesRollup(out, fs)
    requires i < |out| && j < |out|
    requires CategoryOf(out[i].row) == CategoryOf(out[j].row)
    ensures out[i].categorySalesPct == out[j].categorySalesPct
    ensures out[i].categoryProfitRatio == out[j].categoryProfitRatio
  {
    assert out[i].row == fs[i] && out[j].row == fs[j];
  }
}
