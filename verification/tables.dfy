/**
 * The relational tables of the pipeline: the three base tables the summary
 * query reads (`orders`, `customers`, `products`), the query's result row,
 * and the enriched row that the cleaning step produces.
 */
module Tables {
  import opened Wrappers

  /** One row of `orders`. Numeric cells and the order id may be NULL. */
  datatype Order = Order(
    orderId: Option<string>,
    customerId: string,
    productId: string,
    sales: Option<real>,
    profit: Option<real>)

  /** One row of `customers`. */
  datatype Customer = Customer(customerId: string, customerName: string)

  /** One row of `products`. */
  datatype Product = Product(productId: string, productName: string, category: string, subCategory: string)

  /** The grouping key of the summary query: (Customer ID, Product ID). */
  type Key = (string, string)

  /** The roll-up key of the cleaning step: (Category, Sub-Category). */
  type CategoryKey = (string, string)

  function KeyOf(o: Order): Key {
    (o.customerId, o.productId)
  }

  /**
   * One row of the summary query. The two totals are SQL SUMs and so may be
   * NULL; `totalOrders` is an SQL COUNT and never is.
   */
  datatype SummaryRow = SummaryRow(
    customerId: string,
    customerName: string,
    productId: string,
    productName: string,
    category: string,
    subCategory: string,
    totalSales: Option<real>,
    totalProfit: Option<real>,
    totalOrders: nat)

  function RowKey(r: SummaryRow): Key {
    (r.customerId, r.productId)
  }

  /** A summary row after `fillna(0)`: every numeric cell is a number. */
  datatype Row = Row(
    customerId: string,
    customerName: string,
    productId: string,
    productName: string,
    category: string,
    subCategory: string,
    totalSales: real,
    totalProfit: real,
    totalOrders: nat)

  function CategoryOf(r: Row): CategoryKey {
    (r.category, r.subCategory)
  }

  /** The total_sales column of a filled table. */
  function SalesColumn(rows: seq<Row>): (col: seq<real>)
    ensures |col| == |rows|
    ensures forall i :: 0 <= i < |rows| ==> col[i] == rows[i].totalSales
  {
    seq(|rows|, i requires 0 <= i < |rows| => rows[i].totalSales)
  }

  /**
   * A row of the cleaned summary table: the filled input row followed by the
   * derived columns. The two roll-up cells are `None` where pandas holds a
   * non-finite value (a division by zero) or a missing merge partner.
   */
  datatype CleanRow = CleanRow(
    row: Row,
    highValueCustomer: bool,
    profitMargin: real,
    avgOrderValue: real,
    productRankPerCustomer: nat,
    salesToProfitRatio: real,
    categorySalesPct: Option<real>,
    categoryProfitRatio: Option<real>)

  /** `fillna(0)` on one summary row: a NULL total becomes 0, everything else is kept. */
  function FillNa(r: SummaryRow): (f: Row)
    ensures r.totalSales.Some? ==> f.totalSales == r.totalSales.value
    ensures r.totalSales.None? ==> f.totalSales == 0.0
    ensures r.totalProfit.Some? ==> f.totalProfit == r.totalProfit.value
    ensures r.totalProfit.None? ==> f.totalProfit == 0.0
    ensures f.totalOrders == r.totalOrders && CategoryOf(f) == (r.category, r.subCategory)
    ensures (f.customerId, f.productId) == RowKey(r)
    ensures f.customerName == r.customerName && f.productName == r.productName
  {
    Row(r.customerId, r.customerName, r.productId, r.productName, r.category, r.subCategory,
        r.totalSales.GetOr(0.0), r.totalProfit.GetOr(0.0), r.totalOrders)
  }
}
