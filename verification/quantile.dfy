/**
 * pandas' `Series.quantile(q)` with its default "linear" interpolation: sort
 * the column, take the fractional position h = q * (n - 1), and interpolate
 * linearly between the values at floor(h) and the next position.
 */
module Quantile {
  import opened Seqs
  import opened Sorting

  /** The quantile `clean_data` uses for its high-value threshold. */
  const HighValueQuantile: real := 0.9

  /** The fractional position of the q-quantile in a sorted column of length n. */
  function Position(n: nat, q: real): real {
    q * (n - 1) as real
  }

  /** 0 <= q * (n - 1) <= n - 1 for 0 <= q <= 1. */
  lemma PositionInRange(n: nat, q: real)
    requires n >= 1 && 0.0 <= q <= 1.0
    ensures 0.0 <= Position(n, q) <= (n - 1) as real
  {
    var m := (n - 1) as real;
    MulNonNegative(q, m);
    MulNonNegative(1.0 - q, m);
  }

  lemma MulNonNegative(x: real, y: real)
    requires 0.0 <= x && 0.0 <= y
    ensures 0.0 <= x * y
  {
  }

  /** The index of the lower of the two neighbouring values. */
  function LowIndex(n: nat, q: real): (lo: nat)
    requires n >= 1 && 0.0 <= q <= 1.0
    ensures lo as real <= Position(n, q) < lo as real + 1.0
    ensures lo < n
  {
    var h := Position(n, q);
    PositionInRange(n, q);
    assert 0.0.Floor == 0 && ((n - 1) as real).Floor == n - 1;
    h.Floor
  }

  /** The index of the upper neighbour: the next position, or the last one. */
  function HighIndex(n: nat, q: real): (hi: nat)
    requires n >= 1 && 0.0 <= q <= 1.0
    ensures LowIndex(n, q) <= hi < n
  {
    var lo := LowIndex(n, q);
    if lo + 1 < n then lo + 1 else lo
  }

  /** Linear interpolation between `a` and `b` at fraction `f`: it stays between them. */
  function Lerp(a: real, b: real, f: real): (r: real)
    requires a <= b && 0.0 <= f <= 1.0
    ensures a <= r <= b
  {
    MulNonNegative(f, b - a);
    MulNonNegative(1.0 - f, b - a);
    a + f * (b - a)
  }

  /** The q-quantile of a non-empty column. */
  function LinearQuantile(values: seq<real>, q: real): (t: real)
    requires |values| >= 1 && 0.0 <= q <= 1.0
    ensures exists i :: 0 <= i < |values| && values[i] <= t
    ensures exists j :: 0 <= j < |values| && t <= values[j]
  {
    var v := SortAsc(values);
    var lo := LowIndex(|values|, q);
    var hi := HighIndex(|values|, q);
    var t := Lerp(v[lo], v[hi], Position(|values|, q) - lo as real);
    assert v[lo] in multiset(values) && v[hi] in multiset(values);
    t
  }

  /**
   * The quantile lies between the sorted column's values at the two
   * neighbouring positions floor(h) and the next one (h = q * (n - 1)), and
   * it is the value at floor(h) itself when h is a whole number.
   */
  lemma QuantileBetweenNeighbours(values: seq<real>, q: real)
    requires |values| >= 1 && 0.0 <= q <= 1.0
    ensures var v := SortAsc(values);
      v[LowIndex(|values|, q)] <= LinearQuantile(values, q) <= v[HighIndex(|values|, q)]
    ensures Position(|values|, q) == LowIndex(|values|, q) as real ==>
              LinearQuantile(values, q) == SortAsc(values)[LowIndex(|values|, q)]
  {
    var v := SortAsc(values);
    var lo, hi := LowIndex(|values|, q), HighIndex(|values|, q);
    QuantileIsLerp(values, q);
    if Position(|values|, q) == lo as real {
      LerpAtStart(v[lo], v[hi]);
    }
  }

  /** The quantile is the interpolation between its two sorted neighbours. */
  lemma QuantileIsLerp(values: seq<real>, q: real)
    requires |values| >= 1 && 0.0 <= q <= 1.0
    ensures var v, lo, hi := SortAsc(values), LowIndex(|values|, q), HighIndex(|values|, q);
      v[lo] <= v[hi] && 0.0 <= Position(|values|, q) - lo as real <= 1.0 &&
      LinearQuantile(values, q) == Lerp(v[lo], v[hi], Position(|values|, q) - lo as real)
  {
  }

  lemma LerpAtStart(a: real, b: real)
    requires a <= b
    ensures Lerp(a, b, 0.0) == a
  {
  }

  function Above(t: real): real -> bool {
    (x: real) => x > t
  }

  /** Number of cells of `values` strictly above `t`. */
  function CountAbove(values: seq<real>, t: real): nat {
    CountIf(values, Above(t))
  }

  /**
   * The quantile is at least the column minimum, so a minimal value never
   * lies strictly above it.
   */
  lemma MinimumNotAbove(values: seq<real>, q: real, i: nat)
    requires |values| >= 1 && 0.0 <= q <= 1.0
    requires i < |values|
    requires forall j :: 0 <= j < |values| ==> values[i] <= values[j]
    ensures values[i] <= LinearQuantile(values, q)
  {
    var v := SortAsc(values);
    assert v[0] in multiset(values);
    QuantileBetweenNeighbours(values, q);
  }

  /** In a sorted column, only the cells after a position whose value is at most `t` can lie above `t`. */
  lemma {:induction false} SortedFewAbove(v: seq<real>, lo: nat, t: real)
    requires SortedAsc(v) && lo < |v| && v[lo] <= t
    ensures CountAbove(v, t) <= |v| - 1 - lo
  {
    var low, high := v[..lo + 1], v[lo + 1..];
    forall k | 0 <= k < |low|
      ensures !Above(t)(low[k])
    {
      assert low[k] == v[k] <= v[lo];
    }
    assert v == low + high;
    CountIfAppend(low, high, Above(t));
    CountIfBounds(low, Above(t));
    CountIfBounds(high, Above(t));
  }

  /**
   * At most n - 1 - floor(q * (n - 1)) cells lie strictly above the
   * q-quantile: the cells at sorted positions 0 .. floor(q * (n - 1)) are
   * all at or below it.
   */
  lemma FewAbove(values: seq<real>, q: real)
    requires |values| >= 1 && 0.0 <= q <= 1.0
    ensures CountAbove(values, LinearQuantile(values, q)) <= |values| - 1 - LowIndex(|values|, q)
  {
    var t := LinearQuantile(values, q);
    var v := SortAsc(values);
    QuantileBetweenNeighbours(values, q);
    SortedFewAbove(v, LowIndex(|values|, q), t);
    CountIfPermutation(values, v, Above(t));
  }
}
