/** Sizes of sets. */
module Counting {
  lemma SubsetSize<T>(a: set<T>, b: set<T>)
    requires a <= b
    ensures |a| <= |b|
  {
    assert b == a + (b - a);
  }

  function Below(n: nat): set<int> {
    if n == 0 then {} else Below(n - 1) + {n - 1}
  }

  lemma {:induction false} BelowIs(n: nat)
    ensures |Below(n)| == n && forall x: int :: x in Below(n) <==> 0 <= x < n
  {
    if n > 0 { BelowIs(n - 1); }
  }

  /** There are at most n numbers below n. */
  lemma RangeSize(s: set<int>, n: nat)
    requires forall x: int :: x in s ==> 0 <= x < n
    ensures |s| <= n
  {
    BelowIs(n);
    forall x | x in s ensures x in Below(n) { }
    SubsetSize(s, Below(n));
  }
}
