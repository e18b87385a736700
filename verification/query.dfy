/**
 * The summary query of `create_sales_summary`:
 *
 *   aggregate `orders` per (Customer ID, Product ID) with SUM(Sales),
 *   SUM(Profit) and COUNT(Order ID), inner-join the groups to `customers`
 *   and `products`, and order the result by total_sales descending.
 *
 * The query's result is specified by `IsSalesSummary` (a sorted permutation
 * of the join; the order among equal totals is left open, as in SQL), and
 * `CreateSalesSummary` is one result that meets it.
 */
module SalesQuery {
  import opened Wrappers
  import opened Seqs
  import opened Sums
  import opened Tables
  import opened Sorting

  /** Some order belongs to the group `k`. */
  predicate HasOrders(orders: seq<Order>, k: Key) {
    exists i :: 0 <= i < |orders| && KeyOf(orders[i]) == k
  }

  /** The (Customer ID, Product ID) key of every order, in order. */
  function KeyColumn(orders: seq<Order>): (keys: seq<Key>)
    ensures |keys| == |orders|
    ensures forall i :: 0 <= i < |orders| ==> keys[i] == KeyOf(orders[i])
  {
    seq(|orders|, i requires 0 <= i < |orders| => KeyOf(orders[i]))
  }

  /** The groups of the aggregation by (Customer ID, Product ID), in order of first appearance. */
  function GroupKeys(orders: seq<Order>): (ks: seq<Key>)
    ensures Distinct(ks)
    ensures forall k :: k in ks <==> HasOrders(orders, k)
  {
    var keys := KeyColumn(orders);
    assert forall k :: k in keys <==> HasOrders(orders, k) by {
      forall k | HasOrders(orders, k)
        ensures k in keys
      {
        var i :| 0 <= i < |orders| && KeyOf(orders[i]) == k;
        assert keys[i] == k;
      }
    }
    Dedup(keys)
  }

  /** The orders of group `k`: as a multiset, exactly the orders of `orders` whose key is `k`. */
  function GroupOrders(orders: seq<Order>, k: Key): (g: seq<Order>)
    ensures forall o :: multiset(g)[o] == if KeyOf(o) == k then multiset(orders)[o] else 0
  {
    if |orders| == 0 then []
    else
      var n := |orders| - 1;
      assert orders == orders[..n] + [orders[n]];
      var init := GroupOrders(orders[..n], k);
      if KeyOf(orders[n]) == k then init + [orders[n]] else init
  }

  lemma GroupOrdersEmpty(k: Key)
    ensures GroupOrders([], k) == []
  {
  }

  /** The group of a non-empty sequence: the group of all but the last order, then the last one if it has the key. */
  lemma GroupOrdersSnoc(orders: seq<Order>, k: Key)
    requires |orders| >= 1
    ensures var n := |orders| - 1;
      GroupOrders(orders, k) == GroupOrders(orders[..n], k) + (if KeyOf(orders[n]) == k then [orders[n]] else [])
  {
  }

  function SalesCells(g: seq<Order>): seq<Option<real>> {
    seq(|g|, i requires 0 <= i < |g| => g[i].sales)
  }

  function ProfitCells(g: seq<Order>): seq<Option<real>> {
    seq(|g|, i requires 0 <= i < |g| => g[i].profit)
  }

  /** COUNT("Order ID") counts the orders whose id is not NULL. */
  function HasOrderId(o: Order): bool {
    o.orderId.Some?
  }

  /** A row of the `agg_orders` common table expression. */
  datatype Agg = Agg(key: Key, totalSales: Option<real>, totalProfit: Option<real>, totalOrders: nat)

  function Aggregate(orders: seq<Order>, k: Key): Agg {
    var g := GroupOrders(orders, k);
    Agg(k, SqlSum(SalesCells(g)), SqlSum(ProfitCells(g)), CountIf(g, HasOrderId))
  }

  /** The selected columns of one joined (group, customer, product) triple. */
  function MakeRow(a: Agg, c: Customer, p: Product): SummaryRow {
    SummaryRow(a.key.0, c.customerName, a.key.1, p.productName, p.category, p.subCategory,
               a.totalSales, a.totalProfit, a.totalOrders)
  }

  /** The inner join of one group and one of its customers to the products with the group's Product ID. */
  function JoinProducts(a: Agg, c: Customer, ps: seq<Product>): seq<SummaryRow> {
    if |ps| == 0 then []
    else
      var n := |ps| - 1;
      JoinProducts(a, c, ps[..n]) + (if ps[n].productId == a.key.1 then [MakeRow(a, c, ps[n])] else [])
  }

  /** The inner join of one group to the customers with its Customer ID, each followed by the product join. */
  function JoinCustomers(a: Agg, cs: seq<Customer>, ps: seq<Product>): seq<SummaryRow> {
    if |cs| == 0 then []
    else
      var n := |cs| - 1;
      JoinCustomers(a, cs[..n], ps) + (if cs[n].customerId == a.key.0 then JoinProducts(a, cs[n], ps) else [])
  }

  /** The join for the groups `ks`, in the order of `ks`. */
  function JoinGroups(orders: seq<Order>, ks: seq<Key>, cs: seq<Customer>, ps: seq<Product>): seq<SummaryRow> {
    if |ks| == 0 then []
    else
      var n := |ks| - 1;
      JoinGroups(orders, ks[..n], cs, ps) + JoinCustomers(Aggregate(orders, ks[n]), cs, ps)
  }

  /** The unordered result of the query: every group joined to its customers and products. */
  function Joined(orders: seq<Order>, cs: seq<Customer>, ps: seq<Product>): seq<SummaryRow> {
    JoinGroups(orders, GroupKeys(orders), cs, ps)
  }

  /** `rows` is a result the query may return: the join's rows, ordered by total_sales descending. */
  predicate IsSalesSummary(orders: seq<Order>, cs: seq<Customer>, ps: seq<Product>, rows: seq<SummaryRow>) {
    && SortedBySalesDesc(rows)
    && multiset(rows) == multiset(Joined(orders, cs, ps))
  }

  /** `create_sales_summary`: one of the results the query may return. */
  function CreateSalesSummary(orders: seq<Order>, cs: seq<Customer>, ps: seq<Product>): (rows: seq<SummaryRow>)
    ensures IsSalesSummary(orders, cs, ps, rows)
  {
    SortBySalesDesc(Joined(orders, cs, ps))
  }

  /**
   * The query's result is determined up to the order of rows with equal
   * totals: any two results hold the same rows and the same total_sales
   * value at every position.
   */
  lemma SummarySalesDetermined(orders: seq<Order>, cs: seq<Customer>, ps: seq<Product>,
                               r1: seq<SummaryRow>, r2: seq<SummaryRow>)
    requires IsSalesSummary(orders, cs, ps, r1) && IsSalesSummary(orders, cs, ps, r2)
    ensures multiset(r1) == multiset(r2)
    ensures |r1| == |r2|
    ensures forall i :: 0 <= i < |r1| ==> r1[i].totalSales == r2[i].totalSales
  {
    SortedSalesDetermined(r1, r2);
  }

  // ---------------------------------------------------------------------------
  // Grouping and aggregation

  /** An order is in group `k` exactly when it is an order with key `k`. */
  lemma GroupOrdersMembers(orders: seq<Order>, k: Key, o: Order)
    ensures o in GroupOrders(orders, k) <==> o in orders && KeyOf(o) == k
  {
    var g := GroupOrders(orders, k);
    assert o in g <==> multiset(g)[o] > 0;
    assert o in orders <==> multiset(orders)[o] > 0;
  }

  /** A group is non-empty exactly when some order carries its pair. */
  lemma GroupNonEmpty(orders: seq<Order>, k: Key)
    ensures HasOrders(orders, k) <==> |GroupOrders(orders, k)| >= 1
  {
    var g := GroupOrders(orders, k);
    if HasOrders(orders, k) {
      var i :| 0 <= i < |orders| && KeyOf(orders[i]) == k;
      GroupOrdersMembers(orders, k, orders[i]);
    }
    if |g| >= 1 {
      GroupOrdersMembers(orders, k, g[0]);
      var i :| 0 <= i < |orders| && orders[i] == g[0];
    }
  }

  /**
   * COUNT("Order ID") never exceeds the group's size, and equals it when no
   * order id is NULL.
   */
  lemma {:induction false} AggregateCount(orders: seq<Order>, k: Key)
    ensures Aggregate(orders, k).totalOrders <= |GroupOrders(orders, k)|
    ensures (forall i :: 0 <= i < |orders| ==> orders[i].orderId.Some?) ==>
              Aggregate(orders, k).totalOrders == |GroupOrders(orders, k)|
  {
    var g := GroupOrders(orders, k);
    CountIfBounds(g, HasOrderId);
    if forall i :: 0 <= i < |orders| ==> orders[i].orderId.Some? {
      forall j | 0 <= j < |g|
        ensures HasOrderId(g[j])
      {
        GroupOrdersMembers(orders, k, g[j]);
      }
    }
  }

  /** Some order of group `k` has a non-NULL Sales cell. */
  predicate SomeSales(orders: seq<Order>, k: Key) {
    exists i :: 0 <= i < |orders| && KeyOf(orders[i]) == k && orders[i].sales.Some?
  }

  /** Some order of group `k` has a non-NULL Profit cell. */
  predicate SomeProfit(orders: seq<Order>, k: Key) {
    exists i :: 0 <= i < |orders| && KeyOf(orders[i]) == k && orders[i].profit.Some?
  }

  lemma SalesPresent(orders: seq<Order>, k: Key)
    ensures AnyPresent(SalesCells(GroupOrders(orders, k))) <==> SomeSales(orders, k)
  {
    var g := GroupOrders(orders, k);
    if AnyPresent(SalesCells(g)) {
      var j :| 0 <= j < |g| && SalesCells(g)[j].Some?;
      GroupOrdersMembers(orders, k, g[j]);
      var i :| 0 <= i < |orders| && orders[i] == g[j];
    }
    if SomeSales(orders, k) {
      var i :| 0 <= i < |orders| && KeyOf(orders[i]) == k && orders[i].sales.Some?;
      GroupOrdersMembers(orders, k, orders[i]);
      var j :| 0 <= j < |g| && g[j] == orders[i];
      assert SalesCells(g)[j].Some?;
    }
  }

  lemma ProfitPresent(orders: seq<Order>, k: Key)
    ensures AnyPresent(ProfitCells(GroupOrders(orders, k))) <==> SomeProfit(orders, k)
  {
    var g := GroupOrders(orders, k);
    if AnyPresent(ProfitCells(g)) {
      var j :| 0 <= j < |g| && ProfitCells(g)[j].Some?;
      GroupOrdersMembers(orders, k, g[j]);
      var i :| 0 <= i < |orders| && orders[i] == g[j];
    }
    if SomeProfit(orders, k) {
      var i :| 0 <= i < |orders| && KeyOf(orders[i]) == k && orders[i].profit.Some?;
      GroupOrdersMembers(orders, k, orders[i]);
      var j :| 0 <= j < |g| && g[j] == orders[i];
      assert ProfitCells(g)[j].Some?;
    }
  }

  /**
   * A row of the aggregation carries its pair; its total_sales is NULL
   * exactly when every order of the pair has a NULL Sales cell, and likewise
   * for total_profit (in particular both are NULL for a pair with no order).
   */
  lemma AggregateNulls(orders: seq<Order>, k: Key)
    ensures Aggregate(orders, k).key == k
    ensures Aggregate(orders, k).totalSales.None? <==> !SomeSales(orders, k)
    ensures Aggregate(orders, k).totalProfit.None? <==> !SomeProfit(orders, k)
  {
    SalesPresent(orders, k);
    ProfitPresent(orders, k);
  }

  // ---------------------------------------------------------------------------
  // Join membership

  /** `r` is the row the join makes of group `a`, customer `c` and product `p`, whose id matches the group's. */
  predicate Joins(a: Agg, c: Customer, p: Product, r: SummaryRow) {
    p.productId == a.key.1 && r == MakeRow(a, c, p)
  }

  /** `r` is the join of group `a` and customer `c` with some product of `ps`. */
  predicate JoinsProduct(a: Agg, c: Customer, ps: seq<Product>, r: SummaryRow) {
    exists j :: 0 <= j < |ps| && Joins(a, c, ps[j], r)
  }

  /** `r` is the join of group `a` with some customer of `cs` and some product of `ps`. */
  predicate JoinsSome(a: Agg, cs: seq<Customer>, ps: seq<Product>, r: SummaryRow) {
    exists i, j :: 0 <= i < |cs| && 0 <= j < |ps| && cs[i].customerId == a.key.0 && Joins(a, cs[i], ps[j], r)
  }

  /** A match among all products is a match among all but the last, or with the last one. */
  lemma JoinsProductSnoc(a: Agg, c: Customer, ps: seq<Product>, r: SummaryRow)
    requires |ps| >= 1
    ensures var n := |ps| - 1;
      JoinsProduct(a, c, ps, r) <==> JoinsProduct(a, c, ps[..n], r) || Joins(a, c, ps[n], r)
  {
    var n := |ps| - 1;
    if JoinsProduct(a, c, ps[..n], r) {
      var j :| 0 <= j < n && Joins(a, c, ps[..n][j], r);
      assert ps[..n][j] == ps[j];
    }
    if JoinsProduct(a, c, ps, r) {
      var j :| 0 <= j < |ps| && Joins(a, c, ps[j], r);
      if j < n {
        assert ps[..n][j] == ps[j];
      }
    }
  }

  lemma {:induction false} JoinProductsMembers(a: Agg, c: Customer, ps: seq<Product>, r: SummaryRow)
    ensures r in JoinProducts(a, c, ps) <==> JoinsProduct(a, c, ps, r)
  {
    if |ps| > 0 {
      var n := |ps| - 1;
      JoinProductsMembers(a, c, ps[..n], r);
      JoinsProductSnoc(a, c, ps, r);
    }
  }

  /** A match among all customers is a match among all but the last, or with the last one. */
  lemma JoinsSomeSnoc(a: Agg, cs: seq<Customer>, ps: seq<Product>, r: SummaryRow)
    requires |cs| >= 1
    ensures var n := |cs| - 1;
      JoinsSome(a, cs, ps, r) <==>
        JoinsSome(a, cs[..n], ps, r) || (cs[n].customerId == a.key.0 && JoinsProduct(a, cs[n], ps, r))
  {
    var n := |cs| - 1;
    if JoinsSome(a, cs[..n], ps, r) {
      var i, j :| 0 <= i < n && 0 <= j < |ps| && cs[..n][i].customerId == a.key.0 && Joins(a, cs[..n][i], ps[j], r);
      assert cs[..n][i] == cs[i];
    }
    if cs[n].customerId == a.key.0 && JoinsProduct(a, cs[n], ps, r) {
      var j :| 0 <= j < |ps| && Joins(a, cs[n], ps[j], r);
      assert 0 <= n < |cs| && cs[n].customerId == a.key.0 && Joins(a, cs[n], ps[j], r);
    }
    if JoinsSome(a, cs, ps, r) {
      var i, j :| 0 <= i < |cs| && 0 <= j < |ps| && cs[i].customerId == a.key.0 && Joins(a, cs[i], ps[j], r);
      if i < n {
        assert cs[..n][i] == cs[i];
      }
    }
  }

  lemma {:induction false} JoinCustomersMembers(a: Agg, cs: seq<Customer>, ps: seq<Product>, r: SummaryRow)
    ensures r in JoinCustomers(a, cs, ps) <==> JoinsSome(a, cs, ps, r)
  {
    if |cs| > 0 {
      var n := |cs| - 1;
      JoinCustomersMembers(a, cs[..n], ps, r);
      JoinProductsMembers(a, cs[n], ps, r);
      JoinsSomeSnoc(a, cs, ps, r);
    }
  }

  lemma AggregateKey(orders: seq<Order>, k: Key)
    ensures Aggregate(orders, k).key == k
  {
  }

  /** A row is in the join of the groups `ks` exactly when its key is among them and it joins that key's group. */
  lemma {:induction false} JoinGroupsMembers(orders: seq<Order>, ks: seq<Key>, cs: seq<Customer>, ps: seq<Product>,
                                             r: SummaryRow)
    ensures r in JoinGroups(orders, ks, cs, ps) <==>
              RowKey(r) in ks && JoinsSome(Aggregate(orders, RowKey(r)), cs, ps, r)
  {
    if |ks| > 0 {
      var n := |ks| - 1;
      JoinGroupsMembers(orders, ks[..n], cs, ps, r);
      JoinCustomersMembers(Aggregate(orders, ks[n]), cs, ps, r);
      AggregateKey(orders, ks[n]);
      assert RowKey(r) in ks <==> RowKey(r) in ks[..n] || RowKey(r) == ks[n] by {
        assert ks == ks[..n] + [ks[n]];
      }
    }
  }

  /** Joining a group keyed by `r`'s own key, spelled with `r`'s ids. */
  lemma JoinsSomeOwnKey(a: Agg, cs: seq<Customer>, ps: seq<Product>, r: SummaryRow)
    requires a.key == RowKey(r)
    ensures JoinsSome(a, cs, ps, r) <==>
              exists i, j :: 0 <= i < |cs| && 0 <= j < |ps| && cs[i].customerId == r.customerId &&
                             ps[j].productId == r.productId && r == MakeRow(a, cs[i], ps[j])
  {
  }

  /**
   * A row is in the query's result exactly when its (Customer ID, Product ID)
   * pair occurs in `orders`, it carries that group's aggregates, and it takes
   * its name from a customer with that id and its product columns from a
   * product with that id. Pairs that miss either join yield no row.
   */
  lemma SummaryMembers(orders: seq<Order>, cs: seq<Customer>, ps: seq<Product>, rows: seq<SummaryRow>,
                       r: SummaryRow)
    requires IsSalesSummary(orders, cs, ps, rows)
    ensures r in rows <==>
              HasOrders(orders, RowKey(r)) &&
              exists i, j :: 0 <= i < |cs| && 0 <= j < |ps| && cs[i].customerId == r.customerId &&
                             ps[j].productId == r.productId &&
                             r == MakeRow(Aggregate(orders, RowKey(r)), cs[i], ps[j])
  {
    assert r in rows <==> r in multiset(rows);
    JoinGroupsMembers(orders, GroupKeys(orders), cs, ps, r);
    AggregateKey(orders, RowKey(r));
    JoinsSomeOwnKey(Aggregate(orders, RowKey(r)), cs, ps, r);
  }

  /**
   * The cells of every result row: its totals are the SQL SUMs of its group's
   * Sales and Profit cells, and its order count is the group's size when no
   * order id is NULL, so at least 1.
   */
  lemma SummaryRowTotals(orders: seq<Order>, cs: seq<Customer>, ps: seq<Product>, rows: seq<SummaryRow>,
                         r: SummaryRow)
    requires IsSalesSummary(orders, cs, ps, rows)
    requires r in rows
    ensures r.totalSales == SqlSum(SalesCells(GroupOrders(orders, RowKey(r))))
    ensures r.totalProfit == SqlSum(ProfitCells(GroupOrders(orders, RowKey(r))))
    ensures r.totalOrders == CountIf(GroupOrders(orders, RowKey(r)), HasOrderId)
    ensures (forall i :: 0 <= i < |orders| ==> orders[i].orderId.Some?) ==>
              r.totalOrders == |GroupOrders(orders, RowKey(r))| >= 1
  {
    SummaryMembers(orders, cs, ps, rows, r);
    AggregateCount(orders, RowKey(r));
    GroupNonEmpty(orders, RowKey(r));
  }

  // ---------------------------------------------------------------------------
  // Join multiplicity

  function KeyIs(k: Key): SummaryRow -> bool {
    (r: SummaryRow) => RowKey(r) == k
  }

  /** Number of result rows for the pair `k`. */
  function CountKey(rows: seq<SummaryRow>, k: Key): nat {
    CountIf(rows, KeyIs(k))
  }

  function CustomerIdIs(id: string): Customer -> bool {
    (c: Customer) => c.customerId == id
  }

  function ProductIdIs(id: string): Product -> bool {
    (p: Product) => p.productId == id
  }

  lemma {:induction false} JoinProductsCount(a: Agg, c: Customer, ps: seq<Product>, k: Key)
    ensures CountKey(JoinProducts(a, c, ps), k) == if a.key == k then CountIf(ps, ProductIdIs(k.1)) else 0
  {
    if |ps| > 0 {
      var n := |ps| - 1;
      var tail := if ps[n].productId == a.key.1 then [MakeRow(a, c, ps[n])] else [];
      JoinProductsCount(a, c, ps[..n], k);
      CountIfAppend(JoinProducts(a, c, ps[..n]), tail, KeyIs(k));
      if |tail| == 1 {
        assert tail[..0] == [];
      }
    }
  }

  lemma MulSucc(a: nat, b: nat)
    ensures (a + 1) * b == a * b + b
  {
  }

  lemma {:induction false} JoinCustomersCount(a: Agg, cs: seq<Customer>, ps: seq<Product>, k: Key)
    ensures CountKey(JoinCustomers(a, cs, ps), k) ==
              if a.key == k then CountIf(cs, CustomerIdIs(k.0)) * CountIf(ps, ProductIdIs(k.1)) else 0
  {
    if |cs| > 0 {
      var n := |cs| - 1;
      var init := JoinCustomers(a, cs[..n], ps);
      var tail := if cs[n].customerId == a.key.0 then JoinProducts(a, cs[n], ps) else [];
      assert JoinCustomers(a, cs, ps) == init + tail;
      JoinCustomersCount(a, cs[..n], ps, k);
      JoinProductsCount(a, cs[n], ps, k);
      CountIfAppend(init, tail, KeyIs(k));
      var before := CountIf(cs[..n], CustomerIdIs(k.0));
      var pc := CountIf(ps, ProductIdIs(k.1));
      if a.key == k {
        if cs[n].customerId == k.0 {
          assert CountIf(cs, CustomerIdIs(k.0)) == before + 1;
          assert CountKey(tail, k) == pc;
          MulSucc(before, pc);
        } else {
          assert CountIf(cs, CustomerIdIs(k.0)) == before;
          assert CountKey(tail, k) == 0;
        }
      } else {
        assert CountKey(tail, k) == 0;
      }
    }
  }

  lemma {:induction false} JoinGroupsCount(orders: seq<Order>, ks: seq<Key>, cs: seq<Customer>, ps: seq<Product>,
                                           k: Key)
    requires Distinct(ks)
    ensures CountKey(JoinGroups(orders, ks, cs, ps), k) ==
              if k in ks then CountIf(cs, CustomerIdIs(k.0)) * CountIf(ps, ProductIdIs(k.1)) else 0
  {
    if |ks| > 0 {
      var n := |ks| - 1;
      assert ks == ks[..n] + [ks[n]];
      JoinGroupsCount(orders, ks[..n], cs, ps, k);
      JoinCustomersCount(Aggregate(orders, ks[n]), cs, ps, k);
      CountIfAppend(JoinGroups(orders, ks[..n], cs, ps), JoinCustomers(Aggregate(orders, ks[n]), cs, ps), KeyIs(k));
      assert ks[n] !in ks[..n];
    }
  }

  /**
   * The inner joins' multiplicity: the pair `k` has as many result rows as
   * there are customers with its Customer ID times products with its Product
   * ID when it occurs in `orders`, and none otherwise.
   */
  lemma SummaryMultiplicity(orders: seq<Order>, cs: seq<Customer>, ps: seq<Product>, rows: seq<SummaryRow>,
                            k: Key)
    requires IsSalesSummary(orders, cs, ps, rows)
    ensures CountKey(rows, k) ==
              if HasOrders(orders, k) then CountIf(cs, CustomerIdIs(k.0)) * CountIf(ps, ProductIdIs(k.1)) else 0
  {
    CountIfPermutation(rows, Joined(orders, cs, ps), KeyIs(k));
    JoinGroupsCount(orders, GroupKeys(orders), cs, ps, k);
  }

  /** Customer ID is a key of `customers`. */
  predicate UniqueCustomerIds(cs: seq<Customer>) {
    forall i, j :: 0 <= i < j < |cs| ==> cs[i].customerId != cs[j].customerId
  }

  /** Product ID is a key of `products`. */
  predicate UniqueProductIds(ps: seq<Product>) {
    forall i, j :: 0 <= i < j < |ps| ==> ps[i].productId != ps[j].productId
  }

  predicate HasCustomer(cs: seq<Customer>, id: string) {
    exists i :: 0 <= i < |cs| && cs[i].customerId == id
  }

  predicate HasProduct(ps: seq<Product>, id: string) {
    exists j :: 0 <= j < |ps| && ps[j].productId == id
  }

  lemma {:induction false} UniqueCustomerCount(cs: seq<Customer>, id: string)
    requires UniqueCustomerIds(cs)
    ensures CountIf(cs, CustomerIdIs(id)) == if HasCustomer(cs, id) then 1 else 0
  {
    if |cs| > 0 {
      var n := |cs| - 1;
      UniqueCustomerCount(cs[..n], id);
      if HasCustomer(cs[..n], id) {
        var i :| 0 <= i < n && cs[..n][i].customerId == id;
        assert cs[i].customerId == id;
      }
      if HasCustomer(cs, id) && cs[n].customerId != id {
        var i :| 0 <= i < |cs| && cs[i].customerId == id;
        assert cs[..n][i].customerId == id;
      }
    }
  }

  lemma {:induction false} UniqueProductCount(ps: seq<Product>, id: string)
    requires UniqueProductIds(ps)
    ensures CountIf(ps, ProductIdIs(id)) == if HasProduct(ps, id) then 1 else 0
  {
    if |ps| > 0 {
      var n := |ps| - 1;
      UniqueProductCount(ps[..n], id);
      if HasProduct(ps[..n], id) {
        var j :| 0 <= j < n && ps[..n][j].productId == id;
        assert ps[j].productId == id;
      }
      if HasProduct(ps, id) && ps[n].productId != id {
        var j :| 0 <= j < |ps| && ps[j].productId == id;
        assert ps[..n][j].productId == id;
      }
    }
  }

  /**
   * With Customer ID and Product ID keys of their tables, the result holds
   * exactly one row per (Customer ID, Product ID) pair of `orders` whose
   * customer and product both exist, and no row for any other pair.
   */
  lemma SummaryOneRowPerPair(orders: seq<Order>, cs: seq<Customer>, ps: seq<Product>, rows: seq<SummaryRow>,
                             k: Key)
    requires UniqueCustomerIds(cs) && UniqueProductIds(ps)
    requires IsSalesSummary(orders, cs, ps, rows)
    ensures CountKey(rows, k) == if HasOrders(orders, k) && HasCustomer(cs, k.0) && HasProduct(ps, k.1) then 1 else 0
  {
    SummaryMultiplicity(orders, cs, ps, rows, k);
    UniqueCustomerCount(cs, k.0);
    UniqueProductCount(ps, k.1);
  }
}
