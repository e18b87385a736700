/**
 * The two orderings the pipeline relies on: ascending order of a numeric
 * column (pandas sorts the column before interpolating a quantile) and the
 * summary query's `ORDER BY total_sales DESC`.
 */
module Sorting {
  import opened Wrappers
  import opened Tables
  import opened Seqs

  predicate SortedAsc(s: seq<real>) {
    forall i, j :: 0 <= i < j < |s| ==> s[i] <= s[j]
  }

  function InsertAsc(x: real, s: seq<real>): (r: seq<real>)
    requires SortedAsc(s)
    ensures SortedAsc(r)
    ensures multiset(r) == multiset(s) + multiset{x}
  {
    if |s| == 0 then [x]
    else if x <= s[0] then [x] + s
    else
      var tail := InsertAsc(x, s[1..]);
      assert s == [s[0]] + s[1..];
      assert forall k :: 0 <= k < |tail| ==> s[0] <= tail[k] by {
        var rest := s[1..] + [x];
        forall k | 0 <= k < |rest|
          ensures s[0] <= rest[k]
        {
          if k < |s| - 1 {
            assert rest[k] == s[k + 1];
          }
        }
        LowerBoundKept(s[0], rest, tail);
      }
      SortedAscCons(s[0], tail);
      [s[0]] + tail
  }

  /** A lower bound of every element survives any rearrangement. */
  lemma LowerBoundKept(lo: real, u: seq<real>, t: seq<real>)
    requires multiset(t) == multiset(u)
    requires forall k :: 0 <= k < |u| ==> lo <= u[k]
    ensures forall k :: 0 <= k < |t| ==> lo <= t[k]
  {
    forall k | 0 <= k < |t|
      ensures lo <= t[k]
    {
      assert t[k] in multiset(u);
      assert t[k] in u;
    }
  }

  lemma SortedAscCons(h: real, t: seq<real>)
    requires SortedAsc(t)
    requires forall k :: 0 <= k < |t| ==> h <= t[k]
    ensures SortedAsc([h] + t)
  {
    var r := [h] + t;
    forall i, j | 0 <= i < j < |r|
      ensures r[i] <= r[j]
    {
      assert r[j] == t[j - 1];
      if i > 0 {
        assert r[i] == t[i - 1];
      }
    }
  }

  /** The column in ascending order: a sorted permutation of the input. */
  function SortAsc(s: seq<real>): (r: seq<real>)
    ensures SortedAsc(r)
    ensures multiset(r) == multiset(s)
    ensures |r| == |s|
  {
    if |s| == 0 then []
    else
      var n := |s| - 1;
      assert s == s[..n] + [s[n]];
      var r := InsertAsc(s[n], SortAsc(s[..n]));
      assert |r| == |multiset(r)| == |multiset(s)| == |s|;
      r
  }

  /**
   * `a` may precede `b` under `ORDER BY total_sales DESC`: SQLite orders NULL
   * below every number, so NULL totals come last.
   */
  predicate SalesFirst(a: Option<real>, b: Option<real>) {
    b.None? || (a.Some? && a.value >= b.value)
  }

  predicate SortedBySalesDesc(rows: seq<SummaryRow>) {
    forall i, j :: 0 <= i < j < |rows| ==> SalesFirst(rows[i].totalSales, rows[j].totalSales)
  }

  /** `a` must precede `b`: a number above `b`, or any number when `b` is NULL. */
  predicate SalesAbove(a: Option<real>, b: Option<real>) {
    a.Some? && (b.None? || a.value > b.value)
  }

  /** A total that does not strictly precede `b` may follow it. */
  lemma NotAboveFollows(a: Option<real>, b: Option<real>)
    requires !SalesAbove(a, b)
    ensures SalesFirst(b, a)
  {
  }

  /** `r` ahead of a sorted table whose rows it may precede gives a sorted table. */
  lemma SortedCons(r: SummaryRow, rows: seq<SummaryRow>)
    requires SortedBySalesDesc(rows)
    requires forall k :: 0 <= k < |rows| ==> SalesFirst(r.totalSales, rows[k].totalSales)
    ensures SortedBySalesDesc([r] + rows)
  {
    var t := [r] + rows;
    forall p, q | 0 <= p < q < |t|
      ensures SalesFirst(t[p].totalSales, t[q].totalSales)
    {
      assert t[q] == rows[q - 1];
      if p > 0 {
        assert t[p] == rows[p - 1];
      }
    }
  }

  /**
   * Inserts `x` into a sorted table after every row it does not strictly
   * precede, so that `x` follows the rows with an equal total.
   */
  function InsertBySales(x: SummaryRow, rows: seq<SummaryRow>): (r: seq<SummaryRow>)
    requires SortedBySalesDesc(rows)
    ensures SortedBySalesDesc(r)
    ensures multiset(r) == multiset(rows) + multiset{x}
  {
    if |rows| == 0 then [x]
    else if SalesAbove(x.totalSales, rows[0].totalSales) then
      SortedCons(x, rows);
      [x] + rows
    else
      var tail := InsertBySales(x, rows[1..]);
      assert rows == [rows[0]] + rows[1..];
      NotAboveFollows(x.totalSales, rows[0].totalSales);
      assert forall k :: 0 <= k < |tail| ==> SalesFirst(rows[0].totalSales, tail[k].totalSales) by {
        var rest := rows[1..] + [x];
        forall k | 0 <= k < |rest|
          ensures SalesFirst(rows[0].totalSales, rest[k].totalSales)
        {
          if k < |rows| - 1 {
            assert rest[k] == rows[k + 1];
          }
        }
        LeadKept(rows[0].totalSales, rest, tail);
      }
      SortedCons(rows[0], tail);
      [rows[0]] + tail
  }

  /** A total that may precede every row of `u` may precede every row of any rearrangement of `u`. */
  lemma LeadKept(h: Option<real>, u: seq<SummaryRow>, t: seq<SummaryRow>)
    requires multiset(t) == multiset(u)
    requires forall k :: 0 <= k < |u| ==> SalesFirst(h, u[k].totalSales)
    ensures forall k :: 0 <= k < |t| ==> SalesFirst(h, t[k].totalSales)
  {
    forall k | 0 <= k < |t|
      ensures SalesFirst(h, t[k].totalSales)
    {
      assert t[k] in multiset(u);
      assert t[k] in u;
    }
  }

  /**
   * The rows in `ORDER BY total_sales DESC` order: a sorted permutation of
   * the input, in which rows with equal totals keep their input order.
   */
  function SortBySalesDesc(rows: seq<SummaryRow>): (r: seq<SummaryRow>)
    ensures SortedBySalesDesc(r)
    ensures multiset(r) == multiset(rows)
  {
    if |rows| == 0 then []
    else
      var n := |rows| - 1;
      assert rows == rows[..n] + [rows[n]];
      InsertBySales(rows[n], SortBySalesDesc(rows[..n]))
  }

  // ---------------------------------------------------------------------------
  // Ties keep their order

  /** The rows whose total_sales is `v`, in their order. */
  function WithSales(rows: seq<SummaryRow>, v: Option<real>): seq<SummaryRow> {
    if |rows| == 0 then []
    else (if rows[0].totalSales == v then [rows[0]] else []) + WithSales(rows[1..], v)
  }

  /** `r` itself when it holds total `v`, and nothing otherwise. */
  function IfSales(r: SummaryRow, v: Option<real>): seq<SummaryRow> {
    if r.totalSales == v then [r] else []
  }

  lemma WithSalesCons(r: SummaryRow, rows: seq<SummaryRow>, v: Option<real>)
    ensures WithSales([r] + rows, v) == IfSales(r, v) + WithSales(rows, v)
  {
    assert ([r] + rows)[1..] == rows;
  }

  lemma {:induction false} WithSalesAppend(a: seq<SummaryRow>, b: seq<SummaryRow>, v: Option<real>)
    ensures WithSales(a + b, v) == WithSales(a, v) + WithSales(b, v)
    decreases |a|
  {
    if |a| == 0 {
      assert a + b == b;
    } else {
      assert a + b == [a[0]] + (a[1..] + b);
      assert a == [a[0]] + a[1..];
      WithSalesCons(a[0], a[1..] + b, v);
      WithSalesCons(a[0], a[1..], v);
      WithSalesAppend(a[1..], b, v);
    }
  }

  lemma {:induction false} WithSalesNone(rows: seq<SummaryRow>, v: Option<real>)
    requires forall k :: 0 <= k < |rows| ==> rows[k].totalSales != v
    ensures WithSales(rows, v) == []
    decreases |rows|
  {
    if |rows| > 0 {
      WithSalesNone(rows[1..], v);
    }
  }

  /** A total strictly above `b` is strictly above everything `b` precedes, so it differs from it. */
  lemma SalesAboveChain(a: Option<real>, b: Option<real>, c: Option<real>)
    requires SalesAbove(a, b) && SalesFirst(b, c)
    ensures SalesAbove(a, c) && a != c
  {
  }

  /** Inserting `x` in front of a table strictly below it. */
  lemma WithSalesInsertFront(x: SummaryRow, rows: seq<SummaryRow>, v: Option<real>)
    requires SortedBySalesDesc(rows) && |rows| >= 1
    requires SalesAbove(x.totalSales, rows[0].totalSales)
    ensures WithSales([x] + rows, v) == WithSales(rows, v) + IfSales(x, v)
  {
    WithSalesCons(x, rows, v);
    if x.totalSales == v {
      forall k | 0 <= k < |rows|
        ensures rows[k].totalSales != v
      {
        if k > 0 {
          SalesAboveChain(x.totalSales, rows[0].totalSales, rows[k].totalSales);
        }
      }
      WithSalesNone(rows, v);
    }
  }

  /**
   * Inserting `x` into a sorted table places it after every row with the
   * same total: among the rows holding total `v`, it comes last.
   */
  lemma {:induction false} WithSalesInsert(x: SummaryRow, rows: seq<SummaryRow>, v: Option<real>)
    requires SortedBySalesDesc(rows)
    ensures WithSales(InsertBySales(x, rows), v) == WithSales(rows, v) + IfSales(x, v)
    decreases |rows|
  {
    if |rows| == 0 {
      WithSalesCons(x, [], v);
      assert [x] + [] == [x];
    } else if SalesAbove(x.totalSales, rows[0].totalSales) {
      WithSalesInsertFront(x, rows, v);
    } else {
      SortedTail(rows);
      WithSalesInsert(x, rows[1..], v);
      WithSalesInsertBehind(x, rows, InsertBySales(x, rows[1..]), v);
    }
  }

  /** Keeping the first row of a table in front of a tail that gained `x` behind it. */
  lemma WithSalesInsertBehind(x: SummaryRow, rows: seq<SummaryRow>, tail: seq<SummaryRow>, v: Option<real>)
    requires |rows| >= 1
    requires WithSales(tail, v) == WithSales(rows[1..], v) + IfSales(x, v)
    ensures WithSales([rows[0]] + tail, v) == WithSales(rows, v) + IfSales(x, v)
  {
    calc {
      WithSales([rows[0]] + tail, v);
    ==  { WithSalesCons(rows[0], tail, v); }
      IfSales(rows[0], v) + (WithSales(rows[1..], v) + IfSales(x, v));
    ==  { AppendAssoc(IfSales(rows[0], v), WithSales(rows[1..], v), IfSales(x, v)); }
      (IfSales(rows[0], v) + WithSales(rows[1..], v)) + IfSales(x, v);
    ==  { ConsTail(rows); WithSalesCons(rows[0], rows[1..], v); }
      WithSales(rows, v) + IfSales(x, v);
    }
  }

  /** Dropping the first row keeps a table sorted. */
  lemma SortedTail(rows: seq<SummaryRow>)
    requires SortedBySalesDesc(rows) && |rows| >= 1
    ensures SortedBySalesDesc(rows[1..])
  {
    var t := rows[1..];
    forall p, q | 0 <= p < q < |t|
      ensures SalesFirst(t[p].totalSales, t[q].totalSales)
    {
      assert t[p] == rows[p + 1] && t[q] == rows[q + 1];
    }
  }

  lemma WithSalesSnoc(rows: seq<SummaryRow>, v: Option<real>)
    requires |rows| >= 1
    ensures WithSales(rows, v) == WithSales(rows[..|rows| - 1], v) + IfSales(rows[|rows| - 1], v)
  {
    var n := |rows| - 1;
    SnocLast(rows);
    WithSalesAppend(rows[..n], [rows[n]], v);
    WithSalesCons(rows[n], [], v);
    assert [rows[n]] + [] == [rows[n]];
  }

  /**
   * The sort is stable: for every total, the rows holding it appear in the
   * output in the order they had in the input.
   */
  lemma {:induction false} SortBySalesDescStable(rows: seq<SummaryRow>, v: Option<real>)
    ensures WithSales(SortBySalesDesc(rows), v) == WithSales(rows, v)
    decreases |rows|
  {
    if |rows| > 0 {
      var n := |rows| - 1;
      SortBySalesDescStable(rows[..n], v);
      WithSalesInsert(rows[n], SortBySalesDesc(rows[..n]), v);
      WithSalesSnoc(rows, v);
    }
  }

  // ---------------------------------------------------------------------------
  // The order of the totals is determined

  lemma SalesFirstAntisymmetric(a: Option<real>, b: Option<real>)
    requires SalesFirst(a, b) && SalesFirst(b, a)
    ensures a == b
  {
  }

  /** In a sorted table, a row between two rows of equal total has that total too. */
  lemma SandwichedSales(rows: seq<SummaryRow>, p: nat, k: nat, q: nat)
    requires SortedBySalesDesc(rows)
    requires p <= k <= q < |rows|
    requires rows[p].totalSales == rows[q].totalSales
    ensures rows[k].totalSales == rows[p].totalSales
  {
    if p < k < q {
      SalesFirstAntisymmetric(rows[k].totalSales, rows[p].totalSales);
    }
  }

  /** Removing one row keeps a table sorted. */
  lemma SortedWithout(rows: seq<SummaryRow>, j: nat)
    requires SortedBySalesDesc(rows) && j < |rows|
    ensures SortedBySalesDesc(rows[..j] + rows[j + 1..])
  {
    var r := rows[..j] + rows[j + 1..];
    forall p, q | 0 <= p < q < |r|
      ensures SalesFirst(r[p].totalSales, r[q].totalSales)
    {
      var p' := if p < j then p else p + 1;
      var q' := if q < j then q else q + 1;
      assert r[p] == rows[p'] && r[q] == rows[q'];
    }
  }

  /**
   * If `a` starts with `b[j]`, `b[0]` has the same total, and the rest of `a`
   * agrees with `b` without row `j`, then `a` agrees with `b` everywhere.
   */
  lemma SalesAgreeAfterFirst(a: seq<SummaryRow>, b: seq<SummaryRow>, j: nat)
    requires SortedBySalesDesc(b) && j < |b| && |a| == |b|
    requires a[0] == b[j] && b[0].totalSales == b[j].totalSales
    requires var rest := b[..j] + b[j + 1..];
      forall i :: 0 <= i < |rest| ==> a[i + 1].totalSales == rest[i].totalSales
    ensures forall i :: 0 <= i < |a| ==> a[i].totalSales == b[i].totalSales
  {
    var rest := b[..j] + b[j + 1..];
    forall i | 0 <= i < |a|
      ensures a[i].totalSales == b[i].totalSales
    {
      if 0 < i <= j {
        assert rest[i - 1] == b[i - 1];
        SandwichedSales(b, 0, i - 1, j);
        SandwichedSales(b, 0, i, j);
      } else if i > j {
        assert rest[i - 1] == b[i];
      }
    }
  }

  /** Two sorted tables holding the same rows start with the same total. */
  lemma FirstSalesAgree(a: seq<SummaryRow>, b: seq<SummaryRow>)
    requires SortedBySalesDesc(a) && SortedBySalesDesc(b)
    requires multiset(a) == multiset(b) && |a| >= 1
    ensures |b| >= 1 && a[0].totalSales == b[0].totalSales
  {
    assert a[0] in multiset(b);
    var j :| 0 <= j < |b| && b[j] == a[0];
    assert b[0] in multiset(a);
    var m :| 0 <= m < |a| && a[m] == b[0];
    assert SalesFirst(a[0].totalSales, a[m].totalSales) || m == 0;
    assert SalesFirst(b[0].totalSales, b[j].totalSales) || j == 0;
    SalesFirstAntisymmetric(a[0].totalSales, b[0].totalSales);
  }

  /**
   * Two sorted tables holding the same rows agree on total_sales position by
   * position: sorting determines the order of the totals, and only rows with
   * equal totals may change places.
   */
  lemma {:induction false} SortedSalesDetermined(a: seq<SummaryRow>, b: seq<SummaryRow>)
    requires SortedBySalesDesc(a) && SortedBySalesDesc(b)
    requires multiset(a) == multiset(b)
    ensures |a| == |b|
    ensures forall i :: 0 <= i < |a| ==> a[i].totalSales == b[i].totalSales
    decreases |a|
  {
    SameMultisetSameLength(a, b);
    if |a| > 0 {
      var j := IndexOf(b, a[0]);
      SortedTail(a);
      SortedWithout(b, j);
      MultisetWithoutFirst(a, b, j);
      SortedSalesDetermined(a[1..], b[..j] + b[j + 1..]);
      SalesAgreeFromTail(a, b, j);
    }
  }

  /** The induction step: agreement without the first row of `a` extends to the whole tables. */
  lemma SalesAgreeFromTail(a: seq<SummaryRow>, b: seq<SummaryRow>, j: nat)
    requires SortedBySalesDesc(a) && SortedBySalesDesc(b)
    requires multiset(a) == multiset(b)
    requires |a| == |b| >= 1 && j < |b| && b[j] == a[0]
    requires var rest := b[..j] + b[j + 1..];
      |a[1..]| == |rest| &&
      forall i :: 0 <= i < |a[1..]| ==> a[1..][i].totalSales == rest[i].totalSales
    ensures forall i :: 0 <= i < |a| ==> a[i].totalSales == b[i].totalSales
  {
    assert a[0].totalSales == b[0].totalSales by {
      FirstSalesAgree(a, b);
    }
    ShiftedAgreement(a, b[..j] + b[j + 1..]);
    SalesAgreeAfterFirst(a, b, j);
  }

  lemma ShiftedAgreement(a: seq<SummaryRow>, rest: seq<SummaryRow>)
    requires |a| >= 1 && |a[1..]| == |rest|
    requires forall i :: 0 <= i < |a[1..]| ==> a[1..][i].totalSales == rest[i].totalSales
    ensures forall i :: 0 <= i < |rest| ==> a[i + 1].totalSales == rest[i].totalSales
  {
    forall i | 0 <= i < |rest|
      ensures a[i + 1].totalSales == rest[i].totalSales
    {
      assert a[1..][i] == a[i + 1];
    }
  }
}
