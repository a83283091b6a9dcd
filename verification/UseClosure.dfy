/** The closure of asset uses under their dependencies, over any finite graph, cyclic ones included. */
module UseClosure {
  type Hash = string

  /** The dependencies of each known use. */
  type Uses = map<Hash, seq<Hash>>

  ghost predicate DependsOn(uses: Uses, h: Hash, d: Hash) {
    h in uses && d in uses[h]
  }

  /** x is n dependencies away from h. */
  ghost predicate Away(uses: Uses, h: Hash, x: Hash, n: nat)
    decreases n
  {
    if n == 0 then h == x else exists d :: DependsOn(uses, h, d) && Away(uses, d, x, n - 1)
  }

  ghost predicate Reaches(uses: Uses, h: Hash, x: Hash) {
    exists n: nat :: Away(uses, h, x, n)
  }

  ghost predicate Reachable(uses: Uses, roots: seq<Hash>, x: Hash) {
    exists r :: r in roots && Reaches(uses, r, x)
  }

  lemma OneMore(uses: Uses, h: Hash, d: Hash, x: Hash)
    requires DependsOn(uses, h, d) && Reaches(uses, d, x)
    ensures Reaches(uses, h, x)
  {
    var n: nat :| Away(uses, d, x, n);
    assert Away(uses, h, x, n + 1);
  }

  lemma Itself(uses: Uses, h: Hash)
    ensures Reaches(uses, h, h)
  {
    assert Away(uses, h, h, 0);
  }

  /** Everything that x depends on is in the set. */
  ghost predicate Closed(uses: Uses, result: set<Hash>, x: Hash) {
    x in uses && forall d :: d in uses[x] ==> d in result
  }

  /** What a visit adds: uses that are reachable, known and, once it is over, closed. */
  ghost predicate Grown(uses: Uses, before: set<Hash>, after: set<Hash>) {
    before <= after && forall x :: x in after && x !in before ==> Closed(uses, after, x)
  }

  lemma {:induction false} ClosedReaches(uses: Uses, result: set<Hash>, h: Hash, x: Hash, n: nat)
    requires (forall y :: y in result ==> Closed(uses, result, y)) && h in result && Away(uses, h, x, n)
    ensures x in result
    decreases n
  {
    if n > 0 {
      var d :| DependsOn(uses, h, d) && Away(uses, d, x, n - 1);
      assert Closed(uses, result, h);
      ClosedReaches(uses, result, d, x, n - 1);
    }
  }

  /** Visits the use and what it depends on, unless it is there already; fails at a hash that is not known. */
  method Visit(uses: Uses, h: Hash, result: set<Hash>) returns (ok: bool, after: set<Hash>)
    requires result <= uses.Keys
    ensures after <= uses.Keys && result <= after
    ensures ok ==> h in after && Grown(uses, result, after)
    ensures forall x :: x in after && x !in result ==> Reaches(uses, h, x)
    ensures !ok ==> exists x :: Reaches(uses, h, x) && x !in uses
    decreases uses.Keys - result, 1, 0
  {
    Itself(uses, h);
    if h in result { return true, result; }
    if h !in uses { return false, result; }
    assert h in uses.Keys - result;
    ok, after := VisitAll(uses, h, uses[h], result + {h});
  }

  /** Visits the listed dependencies of h in turn. */
  method VisitAll(uses: Uses, h: Hash, ds: seq<Hash>, result: set<Hash>) returns (ok: bool, after: set<Hash>)
    requires result <= uses.Keys && h in uses && forall d :: d in ds ==> DependsOn(uses, h, d)
    ensures after <= uses.Keys && result <= after
    ensures ok ==> (forall d :: d in ds ==> d in after) && Grown(uses, result, after)
    ensures forall x :: x in after && x !in result ==> Reaches(uses, h, x)
    ensures !ok ==> exists x :: Reaches(uses, h, x) && x !in uses
    decreases uses.Keys - result, 2, |ds|
  {
    ok, after := true, result;
    var k := 0;
    while k < |ds|
      invariant 0 <= k <= |ds|
      invariant result <= after <= uses.Keys && Grown(uses, result, after)
      invariant forall d :: d in ds[..k] ==> d in after
      invariant forall x :: x in after && x !in result ==> Reaches(uses, h, x)
    {
      var d, was := ds[k], after;
      assert d in ds;
      assert uses.Keys - was <= uses.Keys - result;
      ok, after := Visit(uses, d, was);
      forall x | Reaches(uses, d, x) ensures Reaches(uses, h, x) { OneMore(uses, h, d, x); }
      if !ok { return; }
      assert ds[..k + 1] == ds[..k] + [d];
      k := k + 1;
    }
    assert ds[..k] == ds;
  }

  /** The uses reachable from the roots, exactly; it fails exactly if one of them is not known. */
  method ReachableUses(uses: Uses, roots: seq<Hash>) returns (ok: bool, result: set<Hash>)
    ensures ok <==> forall x :: Reachable(uses, roots, x) ==> x in uses
    ensures ok ==> forall x :: x in result <==> Reachable(uses, roots, x)
  {
    result := {};
    var k := 0;
    while k < |roots|
      invariant 0 <= k <= |roots| && result <= uses.Keys
      invariant forall x :: x in result ==> Closed(uses, result, x)
      invariant forall r :: r in roots[..k] ==> r in result
      invariant forall x :: x in result ==> Reachable(uses, roots, x)
    {
      var was := result;
      ok, result := Visit(uses, roots[k], was);
      forall x | Reaches(uses, roots[k], x) ensures Reachable(uses, roots, x) { assert roots[k] in roots; }
      if !ok { return; }
      forall x | x in result ensures Closed(uses, result, x) { if x in was { assert Closed(uses, was, x); } }
      assert roots[..k + 1] == roots[..k] + [roots[k]];
      k := k + 1;
    }
    assert roots[..k] == roots;
    forall x | Reachable(uses, roots, x) ensures x in result {
      var r :| r in roots && Reaches(uses, r, x);
      var n: nat :| Away(uses, r, x, n);
      ClosedReaches(uses, result, r, x, n);
    }
    ok := true;
  }
}
