/**
 * The summary query followed by `clean_data`: facts that span both steps.
 */
module Pipeline {
  import opened Wrappers
  import opened Seqs
  import opened Sums
  import opened Tables
  import opened SalesQuery
  import opened Clean

  /**
   * After `fillna(0)`, a summary row's totals are the plain sums of its
   * group's Sales and Profit cells with NULL read as 0; a group whose cells
   * are all NULL has SQL total NULL, which becomes 0.
   */
  lemma FilledTotalsAreSums(orders: seq<Order>, cs: seq<Customer>, ps: seq<Product>, rows: seq<SummaryRow>,
                            r: SummaryRow)
    requires IsSalesSummary(orders, cs, ps, rows)
    requires r in rows
    ensures FillNa(r).totalSales == Sum(NullsAsZero(SalesCells(GroupOrders(orders, RowKey(r)))))
    ensures FillNa(r).totalProfit == Sum(NullsAsZero(ProfitCells(GroupOrders(orders, RowKey(r)))))
  {
    SummaryRowTotals(orders, cs, ps, rows, r);
  }

  /**
   * When no Order ID is NULL every summary row counts at least one order, so
   * the zero-divisor guard of avg_order_value is never taken: the cell is
   * total_sales / total_orders.
   */
  lemma AverageOrderValueUnguarded(orders: seq<Order>, cs: seq<Customer>, ps: seq<Product>,
                                   rows: seq<SummaryRow>, i: nat)
    requires IsSalesSummary(orders, cs, ps, rows)
    requires forall j :: 0 <= j < |orders| ==> orders[j].orderId.Some?
    requires i < |rows|
    ensures rows[i].totalOrders >= 1
    ensures CleanData(rows)[i].avgOrderValue == FillNa(rows[i]).totalSales / rows[i].totalOrders as real
  {
    SummaryRowTotals(orders, cs, ps, rows, rows[i]);
    RatiosGuarded(rows, i);
  }

  const ScenarioOrders := [
    Order(Some("O1"), "C1", "P1", Some(100.0), Some(20.0)),
    Order(Some("O2"), "C1", "P1", Some(50.0), Some(10.0))]
  const ScenarioCustomers := [Customer("C1", "Alice")]
  const ScenarioProducts := [Product("P1", "Widget", "Tools", "Hand")]

  /**
   * Two orders of one customer for one product: one summary row with totals
   * 150 and 30 over 2 orders, margin 0.2, average order 75, rank 1, the whole
   * of its category's sales and a category profit ratio of 0.2; a single row
   * is its own 0.9 quantile, so it is not flagged.
   */
  lemma TwoOrderScenario()
    ensures CreateSalesSummary(ScenarioOrders, ScenarioCustomers, ScenarioProducts) ==
              [SummaryRow("C1", "Alice", "P1", "Widget", "Tools", "Hand", Some(150.0), Some(30.0), 2)]
    ensures CleanData(CreateSalesSummary(ScenarioOrders, ScenarioCustomers, ScenarioProducts)) ==
              [CleanRow(Row("C1", "Alice", "P1", "Widget", "Tools", "Hand", 150.0, 30.0, 2),
                        false, 0.2, 75.0, 1, 5.0, Some(1.0), Some(0.2))]
  {
    ScenarioQuery();
    ScenarioCleanData();
  }

  lemma ScenarioCleanData()
    ensures CleanData([SummaryRow("C1", "Alice", "P1", "Widget", "Tools", "Hand", Some(150.0), Some(30.0), 2)]) ==
              [CleanRow(Row("C1", "Alice", "P1", "Widget", "Tools", "Hand", 150.0, 30.0, 2),
                        false, 0.2, 75.0, 1, 5.0, Some(1.0), Some(0.2))]
  {
    var row := SummaryRow("C1", "Alice", "P1", "Widget", "Tools", "Hand", Some(150.0), Some(30.0), 2);
    var filled := Row("C1", "Alice", "P1", "Widget", "Tools", "Hand", 150.0, 30.0, 2);
    var expected := CleanRow(filled, false, 0.2, 75.0, 1, 5.0, Some(1.0), Some(0.2));
    var fs := Filled([row]);
    assert fs == [filled];
    ScenarioClean(fs);
    CleanDataRow([row], 0);
    var out := CleanData([row]);
    assert |out| == 1 && out[0] == expected;
    assert out == [expected];
  }

  lemma ScenarioKeys()
    ensures GroupKeys(ScenarioOrders) == [("C1", "P1")]
  {
    var k := ("C1", "P1");
    var keys := KeyColumn(ScenarioOrders);
    assert keys == [k, k];
    assert keys[..1] == [k];
    assert keys[..1][..0] == [];
    assert Dedup(keys[..1][..0]) == [];
    assert Dedup(keys[..1]) == [k];
  }

  lemma ScenarioGroupOrders()
    ensures GroupOrders(ScenarioOrders, ("C1", "P1")) == ScenarioOrders
  {
    var orders := ScenarioOrders;
    var k := ("C1", "P1");
    var first := orders[..1];
    assert first[..0] == [];
    GroupOrdersEmpty(k);
    GroupOrdersSnoc(first, k);
    GroupOrdersSnoc(orders, k);
    assert orders == [orders[0]] + [orders[1]];
  }

  lemma ScenarioSums()
    ensures SqlSum(SalesCells(ScenarioOrders)) == Some(150.0)
    ensures SqlSum(ProfitCells(ScenarioOrders)) == Some(30.0)
    ensures CountIf(ScenarioOrders, HasOrderId) == 2
  {
    var orders := ScenarioOrders;
    var sales := SalesCells(orders);
    assert sales == [Some(100.0), Some(50.0)];
    assert sales[..1] == [Some(100.0)];
    assert sales[..1][..0] == [];
    assert SqlSum(sales[..1]) == Some(100.0);
    var profit := ProfitCells(orders);
    assert profit == [Some(20.0), Some(10.0)];
    assert profit[..1] == [Some(20.0)];
    assert profit[..1][..0] == [];
    assert SqlSum(profit[..1]) == Some(20.0);
    assert orders[..1] == [orders[0]];
    assert orders[..1][..0] == [];
    assert CountIf(orders[..1], HasOrderId) == 1;
  }

  /** The scenario's orders form one group with totals 150 and 30 over 2 orders. */
  lemma ScenarioGroups()
    ensures GroupKeys(ScenarioOrders) == [("C1", "P1")]
    ensures Aggregate(ScenarioOrders, ("C1", "P1")) == Agg(("C1", "P1"), Some(150.0), Some(30.0), 2)
  {
    ScenarioKeys();
    ScenarioGroupOrders();
    ScenarioSums();
  }

  /** The scenario's query result is its one joined row. */
  lemma ScenarioQuery()
    ensures CreateSalesSummary(ScenarioOrders, ScenarioCustomers, ScenarioProducts) ==
              [SummaryRow("C1", "Alice", "P1", "Widget", "Tools", "Hand", Some(150.0), Some(30.0), 2)]
  {
    var orders, cs, ps := ScenarioOrders, ScenarioCustomers, ScenarioProducts;
    var k := ("C1", "P1");
    ScenarioGroups();
    var agg := Agg(k, Some(150.0), Some(30.0), 2);
    var row := SummaryRow("C1", "Alice", "P1", "Widget", "Tools", "Hand", Some(150.0), Some(30.0), 2);
    assert ps[..0] == [] && cs[..0] == [];
    assert JoinProducts(agg, cs[0], ps) == [row];
    assert JoinCustomers(agg, cs, ps) == [row];
    assert [k][..0] == [];
    assert JoinGroups(orders, [k], cs, ps) == [row];
    assert Joined(orders, cs, ps) == [row];
    assert [row][..0] == [];
    assert Sorting.SortBySalesDesc([row]) == [row];
  }

  /** The derived cells of the scenario's single filled row. */
  lemma ScenarioClean(fs: seq<Tables.Row>)
    requires fs == [Tables.Row("C1", "Alice", "P1", "Widget", "Tools", "Hand", 150.0, 30.0, 2)]
    ensures Enrich(fs, 0, HighValueThreshold(fs), CategoryRollup.Rollup(fs)) ==
              CleanRow(fs[0], false, 0.2, 75.0, 1, 5.0, Some(1.0), Some(0.2))
  {
    // the 0.9 quantile of one value is that value
    var col := SalesColumn(fs);
    assert col == [150.0];
    assert Sorting.SortAsc(col) == [150.0];
    assert Quantile.Position(1, Quantile.HighValueQuantile) == 0.0;
    assert Quantile.LowIndex(1, Quantile.HighValueQuantile) == 0;
    assert HighValueThreshold(fs) == 150.0;
    // a customer's only total ranks first
    var vals := DenseRank.CustomerSales(fs, "C1");
    assert vals == {150.0};
    assert (set w | w in vals && w > 150.0) == {};
    assert DenseRank.DenseRankOf(fs, 0) == 1;
    // the single (Category, Sub-Category) group holds all sales
    var ck := ("Tools", "Hand");
    var ckeys := CategoryRollup.CategoryColumn(fs);
    assert ckeys == [ck];
    assert ckeys[..0] == [];
    assert Dedup(ckeys[..0]) == [];
    assert CategoryRollup.CategoryKeys(fs) == [ck];
    assert CategoryRollup.GroupSales(fs, ck) == 150.0;
    assert CategoryRollup.GroupProfit(fs, ck) == 30.0;
    assert [ck][..0] == [];
    assert CategoryRollup.SumOverGroups(fs, [ck]) == 150.0;
    var g := CategoryRollup.CategoryGroup(ck, 150.0, 30.0, Some(1.0), Some(0.2));
    assert CategoryRollup.Rollup(fs) == [g];
    assert CategoryRollup.MergedCells([g], ck) == (Some(1.0), Some(0.2));
  }
}
