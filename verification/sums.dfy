/** Sums of real columns, and SQL's SUM aggregate, which skips NULL cells. */
module Sums {
  import opened Wrappers

  /** Arithmetic sum of a column. */
  function Sum(xs: seq<real>): real {
    if |xs| == 0 then 0.0 else Sum(xs[..|xs| - 1]) + xs[|xs| - 1]
  }

  /** The column with every NULL cell replaced by 0 (pandas' `fillna(0)`). */
  function NullsAsZero(xs: seq<Option<real>>): (ys: seq<real>)
    ensures |ys| == |xs|
    ensures forall i :: 0 <= i < |xs| ==> ys[i] == xs[i].GetOr(0.0)
  {
    seq(|xs|, i requires 0 <= i < |xs| => xs[i].GetOr(0.0))
  }

  /** True when the column has at least one non-NULL cell. */
  predicate AnyPresent(xs: seq<Option<real>>) {
    exists i :: 0 <= i < |xs| && xs[i].Some?
  }

  /**
   * SQL `SUM(col)`: NULL cells are skipped, and the sum of a column with no
   * non-NULL cell is NULL (not 0).
   */
  function SqlSum(xs: seq<Option<real>>): (r: Option<real>)
    ensures r.Some? <==> AnyPresent(xs)
    ensures r.Some? ==> r.value == Sum(NullsAsZero(xs))
    ensures r.None? ==> Sum(NullsAsZero(xs)) == 0.0
  {
    if |xs| == 0 then None
    else
      var n := |xs| - 1;
      var init := SqlSum(xs[..n]);
      assert NullsAsZero(xs)[..n] == NullsAsZero(xs[..n]);
      assert AnyPresent(xs) <==> AnyPresent(xs[..n]) || xs[n].Some? by {
        if AnyPresent(xs) && !xs[n].Some? {
          var i :| 0 <= i < |xs| && xs[i].Some?;
          assert xs[..n][i] == xs[i];
        }
      }
      match xs[n]
      case None => init
      case Some(x) => Some(init.GetOr(0.0) + x)
  }
}
