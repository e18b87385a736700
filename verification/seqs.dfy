/** Generic facts about sequences: duplicate-free key lists and counting. */
module Seqs {

  /** No element occurs twice. */
  predicate Distinct<T(==)>(s: seq<T>) {
    forall i, j :: 0 <= i < j < |s| ==> s[i] != s[j]
  }

  /** The distinct elements of `s`, in order of first appearance (the group keys of a GROUP BY). */
  function Dedup<T(==,!new)>(s: seq<T>): (r: seq<T>)
    ensures Distinct(r)
    ensures forall x :: x in r <==> x in s
  {
    if |s| == 0 then []
    else
      var init := Dedup(s[..|s| - 1]);
      var x := s[|s| - 1];
      assert forall y :: y in s <==> y in s[..|s| - 1] || y == x;
      if x in init then init else init + [x]
  }

  /** Number of elements of `s` satisfying `p`. */
  function CountIf<T>(s: seq<T>, p: T -> bool): nat {
    if |s| == 0 then 0
    else CountIf(s[..|s| - 1], p) + (if p(s[|s| - 1]) then 1 else 0)
  }

  lemma {:induction false} CountIfAppend<T>(a: seq<T>, b: seq<T>, p: T -> bool)
    ensures CountIf(a + b, p) == CountIf(a, p) + CountIf(b, p)
    decreases |b|
  {
    if |b| == 0 {
      assert a + b == a;
    } else {
      assert (a + b)[..|a + b| - 1] == a + b[..|b| - 1];
      CountIfAppend(a, b[..|b| - 1], p);
    }
  }

  /** A sequence is its prefix, one element, and the rest. */
  lemma SplitAt<T>(s: seq<T>, j: nat)
    requires j < |s|
    ensures s == s[..j] + ([s[j]] + s[j + 1..])
  {
  }

  /** Removing position `j` removes one occurrence of `s[j]`. */
  lemma MultisetRemove<T>(s: seq<T>, j: nat)
    requires j < |s|
    ensures multiset(s[..j] + s[j + 1..]) == multiset(s) - multiset{s[j]}
  {
    SplitAt(s, j);
  }

  lemma CountIfSingle<T>(x: T, p: T -> bool)
    ensures CountIf([x], p) == if p(x) then 1 else 0
  {
    assert [x][..0] == [];
  }

  /** Taking one element out of a sequence lowers its count by that element's share. */
  lemma CountIfRemove<T>(b: seq<T>, j: nat, p: T -> bool)
    requires j < |b|
    ensures CountIf(b, p) == CountIf(b[..j] + b[j + 1..], p) + (if p(b[j]) then 1 else 0)
  {
    calc {
      CountIf(b, p);
    ==  { SplitAt(b, j); }
      CountIf(b[..j] + ([b[j]] + b[j + 1..]), p);
    ==  { CountIfAppend(b[..j], [b[j]] + b[j + 1..], p); CountIfAppend([b[j]], b[j + 1..], p); }
      CountIf(b[..j], p) + (CountIf([b[j]], p) + CountIf(b[j + 1..], p));
    ==  { CountIfSingle(b[j], p); CountIfAppend(b[..j], b[j + 1..], p); }
      CountIf(b[..j] + b[j + 1..], p) + (if p(b[j]) then 1 else 0);
    }
  }

  /** Counting only depends on the multiset of elements, so any reordering keeps every count. */
  lemma {:induction false} CountIfPermutation<T>(a: seq<T>, b: seq<T>, p: T -> bool)
    requires multiset(a) == multiset(b)
    ensures CountIf(a, p) == CountIf(b, p)
    decreases |a|
  {
    if |a| == 0 {
      assert |b| == |multiset(b)| == 0;
    } else {
      var n := |a| - 1;
      var j := MatchLast(a, b);
      var rest := b[..j] + b[j + 1..];
      CountIfPermutation(a[..n], rest, p);
      CountIfRemove(b, j, p);
    }
  }

  /** A position of `b` holding the last element of `a`; without it, `b` holds the rest of `a`. */
  lemma MatchLast<T>(a: seq<T>, b: seq<T>) returns (j: nat)
    requires multiset(a) == multiset(b) && |a| >= 1
    ensures j < |b| && b[j] == a[|a| - 1]
    ensures multiset(a[..|a| - 1]) == multiset(b[..j] + b[j + 1..])
  {
    var n := |a| - 1;
    assert a[n] in multiset(a);
    j := IndexOf(b, a[n]);
    MultisetRemove(b, j);
    MultisetRemove(a, n);
    assert a[..n] + a[n + 1..] == a[..n];
  }

  /** A count never exceeds the length, and equals it when every element qualifies. */
  lemma {:induction false} CountIfBounds<T>(s: seq<T>, p: T -> bool)
    ensures CountIf(s, p) <= |s|
    ensures (forall i :: 0 <= i < |s| ==> p(s[i])) ==> CountIf(s, p) == |s|
    ensures (forall i :: 0 <= i < |s| ==> !p(s[i])) ==> CountIf(s, p) == 0
    ensures (exists i :: 0 <= i < |s| && p(s[i])) ==> CountIf(s, p) >= 1
  {
    if |s| > 0 {
      var n := |s| - 1;
      CountIfBounds(s[..n], p);
      if exists i :: 0 <= i < |s| && p(s[i]) {
        var i :| 0 <= i < |s| && p(s[i]);
        if i < n {
          assert s[..n][i] == s[i];
        }
      }
    }
  }

  /** Two aligned sequences whose elements qualify position by position have equal counts. */
  lemma {:induction false} CountIfAligned<A, B>(a: seq<A>, p: A -> bool, b: seq<B>, q: B -> bool)
    requires |a| == |b|
    requires forall i :: 0 <= i < |a| ==> p(a[i]) == q(b[i])
    ensures CountIf(a, p) == CountIf(b, q)
  {
    if |a| > 0 {
      var n := |a| - 1;
      CountIfAligned(a[..n], p, b[..n], q);
    }
  }

  /** Sequences holding the same elements have the same length. */
  lemma SameMultisetSameLength<T>(a: seq<T>, b: seq<T>)
    requires multiset(a) == multiset(b)
    ensures |a| == |b|
  {
    assert |a| == |multiset(a)| == |multiset(b)| == |b|;
  }

  /** A position of `x` in `s`, which holds it. */
  lemma IndexOf<T>(s: seq<T>, x: T) returns (j: nat)
    requires x in multiset(s)
    ensures j < |s| && s[j] == x
  {
    assert x in s;
    j :| 0 <= j < |s| && s[j] == x;
  }

  /** A non-empty sequence is its first element followed by the rest. */
  lemma ConsTail<T>(s: seq<T>)
    requires |s| >= 1
    ensures s == [s[0]] + s[1..]
  {
  }

  /** A non-empty sequence is its prefix followed by its last element. */
  lemma SnocLast<T>(s: seq<T>)
    requires |s| >= 1
    ensures s == s[..|s| - 1] + [s[|s| - 1]]
  {
  }

  /** Concatenation is associative. */
  lemma AppendAssoc<T>(a: seq<T>, b: seq<T>, c: seq<T>)
    ensures a + (b + c) == (a + b) + c
  {
  }

  /** Taking the first element of `a` out of both sequences leaves the same elements in both. */
  lemma MultisetWithoutFirst<T>(a: seq<T>, b: seq<T>, j: nat)
    requires multiset(a) == multiset(b)
    requires |a| >= 1 && j < |b| && b[j] == a[0]
    ensures multiset(a[1..]) == multiset(b[..j] + b[j + 1..])
  {
    calc {
      multiset(a[1..]);
    ==  { assert a == [a[0]] + a[1..]; }
      multiset(a) - multiset{a[0]};
    ==
      multiset(b) - multiset{b[j]};
    ==  { assert b == b[..j] + [b[j]] + b[j + 1..]; }
      multiset(b[..j] + b[j + 1..]);
    }
  }
}
