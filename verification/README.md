# Sales summary: a Dafny model

This project models the analytic core of a customer/product sales pipeline.
The pipeline's summary step runs one SQL query over the `orders`,
`customers` and `products` tables. It then enriches the result with derived
columns and a category roll-up. Both parts are written here as pure functions
over sequences of records, with amounts as `real`s, and the properties the
program promises are proved about them.

- **The summary query** (`create_sales_summary`, module `SalesQuery`):
  - orders are grouped by (Customer ID, Product ID) with SQL `SUM(Sales)`,
    `SUM(Profit)` and `COUNT("Order ID")`;
  - each group is inner-joined to `customers` and to `products`;
  - the result is ordered by `total_sales` descending.
  `IsSalesSummary` says which results the query may return: any ordering of
  the joined rows that is sorted by total sales (SQLite puts NULL totals
  last). The order among equal totals is left open, as it is in SQL.
  `CreateSalesSummary` is one such result.
- **The cleaning step** (`clean_data`, module `Clean`): the step works as follows.
  1. NULL numeric cells become 0.
  2. A row is flagged high-value when its total sales are strictly above the
     0.9 quantile of the column. The quantile uses pandas' linear
     interpolation (module `Quantile`).
  3. Three ratios are computed, each with a zero divisor replaced by 1.
  4. A dense descending rank of total sales is computed within each customer
     (module `DenseRank`).
  5. A (Category, Sub-Category) roll-up gives each group its share of all
     sales and its profit/sales ratio. Both are left-merged back onto the
     rows (module `CategoryRollup`).
  The flag, rank and roll-up properties are proved for any table that carries
  the filled rows and the column in question. `Clean.CleanDataCarries` shows
  that the output of `CleanData` is such a table.
- `Pipeline` holds facts that span both steps, among them a worked
  two-order example.

Supporting modules: `Wrappers` (a nullable cell), `Seqs` (de-duplication and
counting), `Sums` (column sums and SQL `SUM`), `Tables` (the records) and
`Sorting` (the two orderings).

Four behaviours of the code that are easy to miss, and that the model keeps:

- `COUNT("Order ID")` skips NULL ids, so `total_orders` can be 0. The model
  keeps that, and proves `total_orders >= 1` only when no order id is NULL.
- The query raises no error on an empty join. It returns an empty table, and
  so does the model.
- The shares of the category roll-up sum to 1 whenever the total of
  `total_sales` is non-zero. They need not be non-negative.
- The two roll-up divisions have no zero guard. pandas then produces inf or
  NaN rather than an error. The model writes such a cell as `None`, and it
  proves when the cell is a number instead of assuming it is.

## Model

| member | source | states |
|---|---|---|
| `Sums.SqlSum` | customer-product-sales-analytics-pipeline/scripts/get_sales_summary.py:21-22 | SQL SUM skips NULL cells: the result is NULL exactly when no cell is non-NULL, and otherwise it is the column's sum with NULL read as 0 |
| `SalesQuery.AggregateNulls` | customer-product-sales-analytics-pipeline/scripts/get_sales_summary.py:17-26 | a row of `agg_orders` carries its (Customer ID, Product ID); its total_sales is NULL exactly when every order of the pair has a NULL Sales cell, and likewise total_profit |
| `SalesQuery.GroupKeys` | customer-product-sales-analytics-pipeline/scripts/get_sales_summary.py:25 | the groups are duplicate-free and are exactly the (Customer ID, Product ID) pairs that occur in `orders` |
| `SalesQuery.GroupOrders` | customer-product-sales-analytics-pipeline/scripts/get_sales_summary.py:24-25 | as a multiset, a group holds exactly the orders with its key, each as often as in `orders` |
| `SalesQuery.AggregateCount` | customer-product-sales-analytics-pipeline/scripts/get_sales_summary.py:23-25 | COUNT("Order ID") is at most the group's size, and equals it when no order id is NULL |
| `SalesQuery.GroupNonEmpty` | customer-product-sales-analytics-pipeline/scripts/get_sales_summary.py:24-25 | a group is non-empty exactly when its pair occurs in `orders` |
| `SalesQuery.CreateSalesSummary` | customer-product-sales-analytics-pipeline/scripts/get_sales_summary.py:16-41 | the result is a permutation of the joined groups, ordered by total_sales descending with NULL last |
| `SalesQuery.SummarySalesDetermined` | customer-product-sales-analytics-pipeline/scripts/get_sales_summary.py:16-40 | any two results the query may return hold the same rows and the same total_sales at every position, so only rows with equal totals can be ordered differently |
| `SalesQuery.SummaryMembers` | customer-product-sales-analytics-pipeline/scripts/get_sales_summary.py:27-39 | a row is in the result iff its pair occurs in `orders`, it carries that group's aggregates, and a customer and a product with its ids supply its name, product name, category and sub-category |
| `SalesQuery.SummaryRowTotals` | customer-product-sales-analytics-pipeline/scripts/get_sales_summary.py:21-23 | each row's totals are the SQL sums of its group's Sales and Profit; its order count is the group's COUNT, equal to the group's size and at least 1 when no order id is NULL |
| `SalesQuery.SummaryMultiplicity` | customer-product-sales-analytics-pipeline/scripts/get_sales_summary.py:37-39 | for any result: a pair that occurs in `orders` has (#customers with its id) x (#products with its id) rows; any other pair has none |
| `SalesQuery.SummaryOneRowPerPair` | customer-product-sales-analytics-pipeline/scripts/get_sales_summary.py:17-39 | with unique customer and product ids: exactly one row per ordered pair whose customer and product exist; pairs that miss either join are dropped |
| `Sorting.SortBySalesDesc` | customer-product-sales-analytics-pipeline/scripts/get_sales_summary.py:40 | the output is sorted by total_sales descending, with NULL last, and is a permutation of the input |
| `Sorting.SortBySalesDescStable` | customer-product-sales-analytics-pipeline/scripts/get_sales_summary.py:40 | the sort is stable: for every total_sales value, the rows holding it come out in the order they went in |
| `Sorting.SortAsc` | customer-product-sales-analytics-pipeline/scripts/get_sales_summary.py:49 | the column the quantile interpolates over is sorted ascending and is a permutation of the input |
| `Quantile.LowIndex` | customer-product-sales-analytics-pipeline/scripts/get_sales_summary.py:49 | the lower interpolation index is floor(q*(n-1)), a valid index |
| `Quantile.QuantileBetweenNeighbours` | customer-product-sales-analytics-pipeline/scripts/get_sales_summary.py:49 | with h = q(n-1), the quantile lies between the sorted column's values at floor(h) and at the next position (the last one when floor(h) = n-1), and equals the value at floor(h) when h is a whole number |
| `Quantile.MinimumNotAbove` | customer-product-sales-analytics-pipeline/scripts/get_sales_summary.py:49 | the quantile is at least the column minimum |
| `Quantile.SortedFewAbove` | customer-product-sales-analytics-pipeline/scripts/get_sales_summary.py:49-50 | in an ascending column, a threshold at or above the value at position lo leaves at most n-1-lo values strictly above it |
| `Quantile.FewAbove` | customer-product-sales-analytics-pipeline/scripts/get_sales_summary.py:49-50 | at most n-1-floor(q*(n-1)) values lie strictly above the quantile |
| `DenseRank.RankInImage` | customer-product-sales-analytics-pipeline/scripts/get_sales_summary.py:53 | the dense ranks of k distinct values are exactly 1..k |
| `DenseRank.DenseRankOrder` | customer-product-sales-analytics-pipeline/scripts/get_sales_summary.py:53 | within a customer: equal sales share a rank; higher sales get a smaller rank, and conversely; ranks lie in 1..k; rank 1 goes exactly to the customer's maximum |
| `DenseRank.CustomerRanksDense` | customer-product-sales-analytics-pipeline/scripts/get_sales_summary.py:53 | the ranks a customer's rows receive are exactly 1..k, for k the number of that customer's distinct sales values |
| `CategoryRollup.RollupKeysDistinct` | customer-product-sales-analytics-pipeline/scripts/get_sales_summary.py:57 | no two groups of `category_agg` share a (Category, Sub-Category) |
| `CategoryRollup.RollupCoversRow` | customer-product-sales-analytics-pipeline/scripts/get_sales_summary.py:57 | every row's (Category, Sub-Category) has a group in `category_agg` |
| `CategoryRollup.RollupGroupFromRow` | customer-product-sales-analytics-pipeline/scripts/get_sales_summary.py:57 | every group of `category_agg` has the key of some row |
| `CategoryRollup.RollupGroupCells` | customer-product-sales-analytics-pipeline/scripts/get_sales_summary.py:57-59 | each group holds the sums of total_sales and total_profit over its rows, its sales over the whole column's total and its profit over its sales, each quotient `None` exactly when its divisor is 0 |
| `CategoryRollup.CategoryKeys` | customer-product-sales-analytics-pipeline/scripts/get_sales_summary.py:57 | the roll-up groups are duplicate-free, cover every row's (Category, Sub-Category), and each comes from some row |
| `CategoryRollup.UnguardedDiv` | customer-product-sales-analytics-pipeline/scripts/get_sales_summary.py:58-59 | an unguarded division is a number exactly when the divisor is non-zero, and then quotient times divisor is the dividend |
| `CategoryRollup.SumOverGroupsIsTotal` | customer-product-sales-analytics-pipeline/scripts/get_sales_summary.py:57-58 | summing the per-group sales over distinct groups that cover all rows gives the column total |
| `CategoryRollup.GrandTotalIsColumnTotal` | customer-product-sales-analytics-pipeline/scripts/get_sales_summary.py:58 | the denominator of category_sales_pct (the sum of the groups' sales) is the total of the total_sales column |
| `CategoryRollup.SharesSumToOne` | customer-product-sales-analytics-pipeline/scripts/get_sales_summary.py:58 | when the total of total_sales is non-zero, the groups' category_sales_pct values sum to 1 |
| `CategoryRollup.SharesDefined` | customer-product-sales-analytics-pipeline/scripts/get_sales_summary.py:58 | a group's category_sales_pct is a number exactly when the total of total_sales is non-zero |
| `CategoryRollup.Lookup` | customer-product-sales-analytics-pipeline/scripts/get_sales_summary.py:61-62 | the merge partner found has the row's key, and no partner is found only when no group has that key |
| `CategoryRollup.MergedCellsOfRow` | customer-product-sales-analytics-pipeline/scripts/get_sales_summary.py:57-62 | every row finds its group; the merged cells are the group's sales over the column total and the group's profit over the group's sales, each non-finite exactly when its divisor is 0 |
| `Tables.FillNa` | customer-product-sales-analytics-pipeline/scripts/get_sales_summary.py:47 | a NULL total_sales or total_profit becomes 0, a present one keeps its value, and the keys, names, category and order count are unchanged |
| `Clean.GuardedDiv` | customer-product-sales-analytics-pipeline/scripts/get_sales_summary.py:51-54 | with a non-zero divisor the quotient times the divisor is the numerator; with divisor 0 the result is the numerator |
| `Clean.CleanData` | customer-product-sales-analytics-pipeline/scripts/get_sales_summary.py:45-64 | the output has the input's length and row order, and each row carries the input row with NULL totals read as 0 |
| `Clean.CleanDataCarries` | customer-product-sales-analytics-pipeline/scripts/get_sales_summary.py:45-64 | the output carries the filled rows, flags exactly the rows strictly above the 0.9 quantile of total_sales, holds the dense rank column, and holds each row's merged roll-up cells |
| `Clean.RatiosGuarded` | customer-product-sales-analytics-pipeline/scripts/get_sales_summary.py:51-54 | profit_margin, avg_order_value and sales_to_profit_ratio are numerator/divisor for a non-zero divisor and the numerator for a zero one |
| `Clean.HighValueIsAboveThreshold` | customer-product-sales-analytics-pipeline/scripts/get_sales_summary.py:49-50 | a row is flagged iff its total_sales is strictly above the column's 0.9 quantile |
| `Clean.HighValueMonotone` | customer-product-sales-analytics-pipeline/scripts/get_sales_summary.py:50 | in a table flagged above a threshold, a row with total_sales at least that of a flagged row is flagged |
| `Clean.MinimumNotHighValue` | customer-product-sales-analytics-pipeline/scripts/get_sales_summary.py:49-50 | in a table flagged above the 0.9 quantile of its total_sales, a row holding the column minimum is not flagged |
| `Clean.FewHighValue` | customer-product-sales-analytics-pipeline/scripts/get_sales_summary.py:49-50 | in a table flagged above the 0.9 quantile of its total_sales, at most n-1-floor(0.9(n-1)) of the n rows are flagged |
| `Clean.RankPerCustomer` | customer-product-sales-analytics-pipeline/scripts/get_sales_summary.py:53 | in a table holding the dense rank column, within a Customer ID: equal sales share a rank, strictly higher sales iff strictly smaller rank, and every rank lies in 1..k |
| `Clean.RankOneIsCustomerMaximum` | customer-product-sales-analytics-pipeline/scripts/get_sales_summary.py:53 | in a table holding the dense rank column, rank 1 goes exactly to the rows holding their customer's largest total_sales |
| `Clean.RanksAreDense` | customer-product-sales-analytics-pipeline/scripts/get_sales_summary.py:53 | in a table holding the dense rank column, the set of a customer's ranks is exactly {1..k}, for k its number of distinct sales values |
| `Clean.RollupCellsOfRow` | customer-product-sales-analytics-pipeline/scripts/get_sales_summary.py:57-62 | in a table holding the merged roll-up cells, category_sales_pct is the row's group's sales over all sales, and category_profit_ratio the group's profit over its sales; each is non-finite exactly when its divisor is 0 |
| `Clean.RollupCellsShared` | customer-product-sales-analytics-pipeline/scripts/get_sales_summary.py:61-62 | in a table holding the merged roll-up cells, rows with the same (Category, Sub-Category) receive the same two roll-up cells |
| `Pipeline.FilledTotalsAreSums` | customer-product-sales-analytics-pipeline/scripts/get_sales_summary.py:21-22 | after fillna(0), a row's totals are the sums of its group's Sales and Profit with NULL read as 0; an all-NULL group becomes 0 |
| `Pipeline.AverageOrderValueUnguarded` | customer-product-sales-analytics-pipeline/scripts/get_sales_summary.py:23 | with no NULL order id every row counts at least one order, so avg_order_value is exactly total_sales/total_orders |
| `Pipeline.TwoOrderScenario` | customer-product-sales-analytics-pipeline/scripts/get_sales_summary.py:14-64 | two orders of one customer for one product give one row with totals 150 and 30 over 2 orders, margin 0.2, average 75, rank 1, share 1.0 and ratio 0.2, and the row is not flagged |

## Left out

- `ingestion_db.py` is left out. It covers directory scanning, `;`-separated latin-1 CSV parsing with bad lines skipped, header trimming, and `to_sql` table replacement. It is I/O over libraries that are not modelled.
- The SQLite connection, `pd.read_sql_query`, the `__main__` orchestration, logging and the `head()` previews are left out. The model gives the query's meaning, not its execution.
- IEEE floating point is not modelled: amounts are exact `real`s. A non-finite cell (inf or NaN) is `None`, without distinguishing inf from NaN.
- NULL Customer ID or Product ID keys are not modelled: keys are non-NULL strings. A NULL key matches nothing in the inner joins, so its group would have no row anyway.
- Text columns are non-NULL strings. `fillna(0)` on text cells and column type coercion are not modelled.
- SQLite's integer-versus-real sums and the dtypes of the result are not modelled.
- pandas returns ranks as floats; here they are `nat`.
- pandas returns NaN for the quantile of an empty column. `Quantile.LinearQuantile` requires a non-empty column. `Clean.CleanData` returns the empty table for an empty input, as the program does: nothing is flagged because no row exists.
- The row order of the SQL join and of `GROUP BY` is not modelled. `IsSalesSummary` accepts every order among rows with equal total_sales. `CreateSalesSummary` fixes one order: groups in first-appearance order, then a stable sort (`Sorting.SortBySalesDescStable`: rows with equal totals keep their join order). `SalesQuery.SummarySalesDetermined` shows that every allowed result has the same total_sales column.
- `clean_data` also updates its argument in place: `fillna(0, inplace=True)` at line 47 and the column assignments at lines 50-54 write into the caller's frame, and only the merge at line 61 rebinds it. `Clean.CleanData` is a pure function of its input, so this side effect is not modelled. The script never reads the caller's frame again, so no output depends on it.
- The row order of `category_agg` is not modelled. pandas sorts it by key, and the model lists groups in first-appearance order. The left merge looks groups up by key, so this order does not show in the output.
- `CategoryRollup.Lookup` takes the first group with a matching key. A left merge would repeat a row once per matching group, but the roll-up's keys are distinct, so exactly one group matches.
