/**
 * The per-customer dense descending rank of total_sales:
 * within each customer, the largest total_sales gets rank 1, equal totals
 * share a rank, and each next smaller distinct total gets the next rank.
 */
module DenseRank {
  import opened Tables

  /** The distinct total_sales values among customer `c`'s rows. */
  function CustomerSales(rows: seq<Row>, c: string): set<real> {
    set i | 0 <= i < |rows| && rows[i].customerId == c :: rows[i].totalSales
  }

  /** Dense descending rank of `v` among the distinct values `vals`. */
  function RankIn(vals: set<real>, v: real): nat {
    1 + |set w | w in vals && w > v|
  }

  /** The rank cell of row `i`. */
  function DenseRankOf(rows: seq<Row>, i: nat): nat
    requires i < |rows|
  {
    RankIn(CustomerSales(rows, rows[i].customerId), rows[i].totalSales)
  }

  /** The ranks customer `c`'s rows receive. */
  function CustomerRanks(rows: seq<Row>, c: string): set<nat> {
    set i | 0 <= i < |rows| && rows[i].customerId == c :: DenseRankOf(rows, i)
  }

  /** The ranks 1 .. k. */
  function RankRange(k: nat): (rs: set<nat>)
    ensures forall r :: r in rs <==> 1 <= r <= k
  {
    if k == 0 then {} else RankRange(k - 1) + {k}
  }

  // ---------------------------------------------------------------------------
  // Ranks over a set of distinct values

  lemma Pick<T>(s: set<T>) returns (x: T)
    requires s != {}
    ensures x in s
  {
    if forall y :: y !in s {
      assert false;
    }
    x :| x in s;
  }

  /** A subset is no larger, and a proper subset is strictly smaller. */
  lemma SubsetSize<T>(a: set<T>, b: set<T>)
    requires a <= b
    ensures |a| <= |b|
    ensures a != b ==> |a| < |b|
  {
    assert b == a + (b - a);
    if a != b {
      var x := Pick(b - a);
    }
  }

  /** A value of `vals` ranks between 1 and the number of distinct values. */
  lemma RankInBounds(vals: set<real>, v: real)
    requires v in vals
    ensures 1 <= RankIn(vals, v) <= |vals|
  {
    SubsetSize((set w | w in vals && w > v), vals - {v});
  }

  /** A strictly larger value has a strictly smaller rank. */
  lemma RankInStrict(vals: set<real>, u: real, v: real)
    requires u in vals && u > v
    ensures RankIn(vals, u) < RankIn(vals, v)
  {
    var aboveU := set w | w in vals && w > u;
    var aboveV := set w | w in vals && w > v;
    assert u in aboveV && u !in aboveU;
    SubsetSize(aboveU, aboveV);
  }

  /** Rank 1 belongs to exactly the maximum. */
  lemma RankInTop(vals: set<real>, v: real)
    requires v in vals
    ensures RankIn(vals, v) == 1 <==> forall w :: w in vals ==> w <= v
  {
    var above := set w | w in vals && w > v;
    if RankIn(vals, v) == 1 {
      assert above == {};
      forall w | w in vals
        ensures w <= v
      {
        assert w !in above;
      }
    }
  }

  lemma {:induction false} RankImageSize(vals: set<real>, sub: set<real>)
    requires sub <= vals
    ensures |set v | v in sub :: RankIn(vals, v)| == |sub|
    decreases sub
  {
    if sub != {} {
      var x := Pick(sub);
      var rest := sub - {x};
      RankImageSize(vals, rest);
      var img := set v | v in sub :: RankIn(vals, v);
      var imgRest := set v | v in rest :: RankIn(vals, v);
      assert img == imgRest + {RankIn(vals, x)};
      forall y | y in rest
        ensures RankIn(vals, y) != RankIn(vals, x)
      {
        if y > x {
          RankInStrict(vals, y, x);
        } else {
          RankInStrict(vals, x, y);
        }
      }
    }
  }

  lemma RankRangeSize(k: nat)
    ensures |RankRange(k)| == k
  {
    RangeCard(RankRange(k), k);
  }

  /** A set of naturals holding exactly 1 .. k has k elements. */
  lemma {:induction false} RangeCard(s: set<nat>, k: nat)
    requires forall r :: r in s <==> 1 <= r <= k
    ensures |s| == k
    decreases k
  {
    if k == 0 {
      assert s == {} by {
        forall r | r in s
          ensures false
        {
        }
      }
    } else {
      var rest := s - {k};
      RangeCard(rest, k - 1);
      assert s == rest + {k};
      CardAddNew(rest, k);
    }
  }

  /** Adding a new element grows a set by one. */
  lemma CardAddNew<T>(a: set<T>, x: T)
    requires x !in a
    ensures |a + {x}| == |a| + 1
  {
  }

  /** The ranks of the distinct values `vals` are exactly 1 .. |vals|: dense, no gaps. */
  lemma RankInImage(vals: set<real>)
    ensures (set v | v in vals :: RankIn(vals, v)) == RankRange(|vals|)
  {
    var img := set v | v in vals :: RankIn(vals, v);
    forall r | r in img
      ensures r in RankRange(|vals|)
    {
      var v :| v in vals && RankIn(vals, v) == r;
      RankInBounds(vals, v);
    }
    RankImageSize(vals, vals);
    RankRangeSize(|vals|);
    SubsetSize(img, RankRange(|vals|));
  }

  // ---------------------------------------------------------------------------
  // The rank column

  /**
   * Within one customer the rank column orders rows by total_sales,
   * descending and without gaps: equal totals share a rank, a strictly larger
   * total has a strictly smaller rank (and conversely), the ranks lie in
   * 1 .. k for k the number of distinct totals, and rank 1 goes to exactly
   * the rows holding the customer's largest total.
   */
  lemma DenseRankOrder(rows: seq<Row>, i: nat, j: nat)
    requires i < |rows| && j < |rows|
    requires rows[i].customerId == rows[j].customerId
    ensures rows[i].totalSales == rows[j].totalSales ==> DenseRankOf(rows, i) == DenseRankOf(rows, j)
    ensures rows[i].totalSales > rows[j].totalSales <==> DenseRankOf(rows, i) < DenseRankOf(rows, j)
    ensures 1 <= DenseRankOf(rows, i) <= |CustomerSales(rows, rows[i].customerId)|
    ensures DenseRankOf(rows, i) == 1 <==>
              forall k :: 0 <= k < |rows| && rows[k].customerId == rows[i].customerId ==>
                            rows[k].totalSales <= rows[i].totalSales
  {
    var vals := CustomerSales(rows, rows[i].customerId);
    assert rows[i].totalSales in vals && rows[j].totalSales in vals;
    RankInBounds(vals, rows[i].totalSales);
    if rows[i].totalSales > rows[j].totalSales {
      RankInStrict(vals, rows[i].totalSales, rows[j].totalSales);
    } else if rows[j].totalSales > rows[i].totalSales {
      RankInStrict(vals, rows[j].totalSales, rows[i].totalSales);
    }
    RankInTop(vals, rows[i].totalSales);
    forall k | 0 <= k < |rows| && rows[k].customerId == rows[i].customerId
      ensures rows[k].totalSales in vals
    {
    }
    if forall k :: 0 <= k < |rows| && rows[k].customerId == rows[i].customerId ==>
                     rows[k].totalSales <= rows[i].totalSales {
      forall w | w in vals
        ensures w <= rows[i].totalSales
      {
        var k :| 0 <= k < |rows| && rows[k].customerId == rows[i].customerId && rows[k].totalSales == w;
      }
    }
  }

  /**
   * The ranks a customer's rows receive are exactly 1 .. k, where k is the
   * number of distinct total_sales values of that customer.
   */
  lemma CustomerRanksDense(rows: seq<Row>, c: string)
    ensures CustomerRanks(rows, c) == RankRange(|CustomerSales(rows, c)|)
  {
    var vals := CustomerSales(rows, c);
    RankInImage(vals);
    assert CustomerRanks(rows, c) == set v | v in vals :: RankIn(vals, v) by {
      forall r | r in CustomerRanks(rows, c)
        ensures r in set v | v in vals :: RankIn(vals, v)
      {
        var i :| 0 <= i < |rows| && rows[i].customerId == c && DenseRankOf(rows, i) == r;
        assert rows[i].totalSales in vals;
      }
      forall r | r in set v | v in vals :: RankIn(vals, v)
        ensures r in CustomerRanks(rows, c)
      {
        var v :| v in vals && RankIn(vals, v) == r;
        var i :| 0 <= i < |rows| && rows[i].customerId == c && rows[i].totalSales == v;
        assert DenseRankOf(rows, i) == r;
      }
    }
  }
}
