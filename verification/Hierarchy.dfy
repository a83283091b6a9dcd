/** The part hierarchy: walking up the parents, the cycle check, and the roots of a selection. */
module Hierarchy {
  type Id = string

  /** A part with its parent; a part without one has the empty parent. */
  datatype Part<M> = Part(id: Id, parent: Id, local: M)

  ghost predicate UniqueParts<M>(parts: seq<Part<M>>) {
    && (forall i, j :: 0 <= i < j < |parts| ==> parts[i].id != parts[j].id)
    && (forall i :: 0 <= i < |parts| ==> parts[i].id != "")
  }

  function Ids<M>(parts: seq<Part<M>>): set<Id> {
    set i | 0 <= i < |parts| :: parts[i].id
  }

  ghost predicate ParentsExist<M>(parts: seq<Part<M>>) {
    forall i :: 0 <= i < |parts| && parts[i].parent != "" ==> parts[i].parent in Ids(parts)
  }

  function Find<M>(parts: seq<Part<M>>, id: Id): (r: int)
    ensures -1 <= r < |parts| && (r >= 0 ==> parts[r].id == id)
    ensures r == -1 <==> forall i :: 0 <= i < |parts| ==> parts[i].id != id
  {
    if parts == [] then -1
    else if parts[0].id == id then 0
    else var r := Find(parts[1..], id); if r == -1 then -1 else r + 1
  }

  /** The parent of an id, or the empty one if there is none. */
  function Up<M>(parts: seq<Part<M>>, id: Id): Id {
    var i := Find(parts, id); if id == "" || i == -1 then "" else parts[i].parent
  }

  /** The n-th ancestor. */
  function Above<M>(parts: seq<Part<M>>, id: Id, n: nat): Id {
    if n == 0 then id else Up(parts, Above(parts, id, n - 1))
  }

  /** The chain of ancestors comes to an end. */
  ghost predicate Ends<M>(parts: seq<Part<M>>, id: Id) {
    exists n: nat :: Above(parts, id, n) == ""
  }

  /** The parent relation is well founded. */
  ghost predicate WellFounded<M>(parts: seq<Part<M>>) {
    forall i :: 0 <= i < |parts| ==> Ends(parts, parts[i].id)
  }

  lemma {:induction false} FindIs<M>(parts: seq<Part<M>>, i: nat)
    requires UniqueParts(parts) && i < |parts|
    ensures Find(parts, parts[i].id) == i
  {
  }

  lemma {:induction false} AboveAdds<M>(parts: seq<Part<M>>, id: Id, m: nat, n: nat)
    ensures Above(parts, id, m + n) == Above(parts, Above(parts, id, m), n)
    decreases n
  {
    hide Up;
    if n > 0 {
      AboveAdds(parts, id, m, n - 1);
      assert m + n - 1 == m + (n - 1);
    }
  }

  lemma {:induction false} AboveNothing<M>(parts: seq<Part<M>>, n: nat)
    ensures Above(parts, "", n) == ""
  {
    if n > 0 { AboveNothing(parts, n - 1); }
  }

  lemma EndedStays<M>(parts: seq<Part<M>>, id: Id, m: nat, n: nat)
    requires Above(parts, id, m) == "" && m <= n
    ensures Above(parts, id, n) == ""
  {
    AboveAdds(parts, id, m, n - m);
    AboveNothing(parts, n - m);
  }

  /** A chain that comes back to where it was never ends. */
  lemma {:induction false} Returns<M>(parts: seq<Part<M>>, id: Id, j: nat, k: nat, n: nat)
    requires j < k && Above(parts, id, j) == Above(parts, id, k) && Above(parts, id, n) == ""
    ensures exists m: nat :: m < k && Above(parts, id, m) == ""
    decreases n
  {
    hide Above;
    if n >= k {
      AboveAdds(parts, id, k, n - k);
      AboveAdds(parts, id, j, n - k);
      assert k + (n - k) == n;
      Returns(parts, id, j, k, j + (n - k));
    }
  }

  /* ---------- the cycle check ---------- */

  /** The first k ancestors, from the id itself on, are not empty, all different and just those visited. */
  ghost predicate Walked<M>(parts: seq<Part<M>>, id: Id, k: nat, visited: set<Id>) {
    && (forall m: nat :: m < k ==> Above(parts, id, m) != "" && Above(parts, id, m) in visited)
    && (forall v :: v in visited ==> exists m: nat :: m < k && Above(parts, id, m) == v)
  }

  lemma WalkOn<M>(parts: seq<Part<M>>, id: Id, k: nat, visited: set<Id>)
    requires Walked(parts, id, k, visited) && Above(parts, id, k) != ""
    ensures Walked(parts, id, k + 1, visited + {Above(parts, id, k)})
  {
    hide Above;
    var more := visited + {Above(parts, id, k)};
    forall v | v in more ensures exists m: nat :: m < k + 1 && Above(parts, id, m) == v {
      if v in visited { var m: nat :| m < k && Above(parts, id, m) == v; } else { assert Above(parts, id, k) == v; }
    }
  }

  lemma BackAgain<M>(parts: seq<Part<M>>, id: Id, k: nat, visited: set<Id>)
    requires Walked(parts, id, k, visited) && Above(parts, id, k) in visited
    ensures !Ends(parts, id)
  {
    hide Above;
    var j: nat :| j < k && Above(parts, id, j) == Above(parts, id, k);
    if n: nat :| Above(parts, id, n) == "" { Returns(parts, id, j, k, n); }
  }

  /** The walk up from one part: it reports a cycle exactly if the chain of ancestors never ends. */
  method HasCycle<M>(parts: seq<Part<M>>, index: nat) returns (cycle: bool)
    requires UniqueParts(parts) && index < |parts|
    ensures cycle <==> !Ends(parts, parts[index].id)
  {
    hide Above, Up, Walked, Ends;
    var part := parts[index];
    var visited, cursor := {part.id}, part.parent;
    WalkStarts(parts, index);
    ghost var k := 1;
    while cursor != ""
      invariant k >= 1 && cursor == Above(parts, part.id, k) && Walked(parts, part.id, k, visited)
      decreases |Ids(parts) - visited|, if cursor == "" then 0 else if cursor in Ids(parts) then 1 else 2
    {
      if cursor in visited { BackAgain(parts, part.id, k, visited); return true; }
      WalkOn(parts, part.id, k, visited);
      OneUp(parts, part.id, k);
      Fewer(Ids(parts), visited, cursor);
      visited := visited + {cursor};
      var found := Find(parts, cursor);
      cursor := if found == -1 then "" else parts[found].parent;
      k := k + 1;
    }
    EndsAt(parts, part.id, k);
    return false;
  }

  lemma EndsAt<M>(parts: seq<Part<M>>, id: Id, k: nat)
    requires Above(parts, id, k) == ""
    ensures Ends(parts, id)
  {
  }

  lemma WalkStarts<M>(parts: seq<Part<M>>, index: nat)
    requires UniqueParts(parts) && index < |parts|
    ensures var part := parts[index]; Above(parts, part.id, 1) == part.parent && Walked(parts, part.id, 1, {part.id})
  {
    FindIs(parts, index);
    assert Above(parts, parts[index].id, 0) == parts[index].id;
    assert Above(parts, parts[index].id, 1) == Up(parts, parts[index].id);
  }

  lemma OneUp<M>(parts: seq<Part<M>>, id: Id, k: nat)
    requires Above(parts, id, k) != ""
    ensures var found := Find(parts, Above(parts, id, k));
      && Above(parts, id, k + 1) == (if found == -1 then "" else parts[found].parent)
      && (found == -1 <==> Above(parts, id, k) !in Ids(parts))
  {
  }

  lemma Fewer(ids: set<Id>, visited: set<Id>, cursor: Id)
    requires cursor !in visited
    ensures cursor in ids ==> |ids - (visited + {cursor})| < |ids - visited|
    ensures cursor !in ids ==> ids - (visited + {cursor}) == ids - visited
  {
    if cursor in ids { assert ids - visited == (ids - (visited + {cursor})) + {cursor}; }
  }

  /** With unique ids, the validator reports no cycle for any part exactly if the parent relation is well founded. */
  method HasNoCycle<M>(parts: seq<Part<M>>) returns (ok: bool)
    requires UniqueParts(parts)
    ensures ok <==> WellFounded(parts)
  {
    hide Ends;
    ok := true;
    var index := 0;
    while index < |parts|
      invariant 0 <= index <= |parts|
      invariant ok <==> forall i :: 0 <= i < index ==> Ends(parts, parts[i].id)
    {
      var cycle := HasCycle(parts, index);
      if cycle { ok := false; }
      index := index + 1;
    }
  }

  /* ---------- the roots of a selection ---------- */

  /** No proper ancestor is selected. */
  ghost predicate IsRoot<M>(parts: seq<Part<M>>, selected: set<Id>, id: Id) {
    forall n: nat :: n > 0 && Above(parts, id, n) != "" ==> Above(parts, id, n) !in selected
  }

  /** The roots of the selection. */
  ghost predicate Root<M>(parts: seq<Part<M>>, selected: set<Id>, id: Id) {
    id in selected && IsRoot(parts, selected, id)
  }

  /** Some root stands at or above every selected id. */
  lemma {:induction false} RootAbove<M>(parts: seq<Part<M>>, selected: set<Id>, id: Id, end: nat)
    requires id in selected && "" !in selected && Above(parts, id, end) == ""
    ensures exists n: nat :: n < end && Root(parts, selected, Above(parts, id, n))
    decreases end
  {
    if IsRoot(parts, selected, id) {
      assert Above(parts, id, 0) == id;
    } else {
      var m: nat :| m > 0 && Above(parts, id, m) != "" && Above(parts, id, m) in selected;
      hide Above;
      if m >= end { EndedStays(parts, id, end, m); }
      AboveAdds(parts, id, m, end - m);
      RootAbove(parts, selected, Above(parts, id, m), end - m);
      var n: nat :| n < end - m && Root(parts, selected, Above(parts, Above(parts, id, m), n));
      AboveAdds(parts, id, m, n);
      assert Root(parts, selected, Above(parts, id, m + n));
    }
  }

  /** And only one. */
  lemma RootIsUnique<M>(parts: seq<Part<M>>, selected: set<Id>, id: Id, m: nat, n: nat)
    requires "" !in selected && m <= n && Root(parts, selected, Above(parts, id, m)) && Root(parts, selected, Above(parts, id, n))
    ensures Above(parts, id, m) == Above(parts, id, n)
  {
    hide Above;
    AboveAdds(parts, id, m, n - m);
  }

  /**
   * In a well-founded hierarchy the roots are selected, no root stands above another, and every selected id has exactly one
   * root at or above it.
   */
  lemma RootsCoverOnce<M>(parts: seq<Part<M>>, selected: set<Id>, id: Id)
    requires "" !in selected && Ends(parts, id)
    ensures Root(parts, selected, id) ==> forall n: nat :: n > 0 ==> !Root(parts, selected, Above(parts, id, n))
    ensures id in selected ==> exists n: nat :: Root(parts, selected, Above(parts, id, n))
    ensures forall m: nat, n: nat :: Root(parts, selected, Above(parts, id, m)) && Root(parts, selected, Above(parts, id, n)) ==>
      Above(parts, id, m) == Above(parts, id, n)
  {
    var end: nat :| Above(parts, id, end) == "";
    if id in selected { RootAbove(parts, selected, id, end); }
    forall m: nat, n: nat | Root(parts, selected, Above(parts, id, m)) && Root(parts, selected, Above(parts, id, n))
      ensures Above(parts, id, m) == Above(parts, id, n)
    {
      if m <= n { RootIsUnique(parts, selected, id, m, n); } else { RootIsUnique(parts, selected, id, n, m); }
    }
  }

  /** The walk up from a selected id to the first selected ancestor. */
  method StandsAlone<M>(parts: seq<Part<M>>, selected: set<Id>, id: Id) returns (alone: bool)
    requires Ends(parts, id)
    ensures alone <==> IsRoot(parts, selected, id)
  {
    ghost var end: nat :| Above(parts, id, end) == "";
    var parent := Up(parts, id);
    ghost var n := 1;
    while parent != ""
      invariant n >= 1 && parent == Above(parts, id, n)
      invariant forall m: nat :: 0 < m < n ==> Above(parts, id, m) != "" && Above(parts, id, m) !in selected
      decreases end - n
    {
      if parent in selected { return false; }
      if n >= end { EndedStays(parts, id, end, n); }
      parent := Up(parts, parent);
      n := n + 1;
    }
    forall m: nat | m >= n ensures Above(parts, id, m) == "" { EndedStays(parts, id, n, m); }
    return true;
  }

  /** The roots of a gesture, and the selected ids that are no parts. */
  method CollectGestureClosure<M>(parts: seq<Part<M>>, objectIds: seq<Id>) returns (roots: set<Id>, missing: set<Id>)
    requires WellFounded(parts)
    ensures forall id :: id in roots <==> Root(parts, (set o | o in objectIds), id)
    ensures missing == (set o | o in objectIds) - Ids(parts)
  {
    var selected := set o | o in objectIds;
    roots, missing := {}, {};
    var k := 0;
    while k < |objectIds|
      invariant 0 <= k <= |objectIds|
      invariant forall id :: id in roots <==> id in objectIds[..k] && IsRoot(parts, selected, id)
      invariant forall id :: id in missing <==> id in objectIds[..k] && id !in Ids(parts)
    {
      var id := objectIds[k];
      AnyEnds(parts, id);
      var alone := StandsAlone(parts, selected, id);
      if alone { roots := roots + {id}; }
      if Find(parts, id) == -1 { missing := missing + {id}; }
      k := k + 1;
    }
  }

  lemma AnyEnds<M>(parts: seq<Part<M>>, id: Id)
    requires WellFounded(parts)
    ensures Ends(parts, id)
  {
    if Find(parts, id) == -1 { assert Above(parts, id, 1) == ""; }
  }
}
