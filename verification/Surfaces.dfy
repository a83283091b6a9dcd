/** Triangle lists as surfaces: directed edges, how often they are used, and how many there are. */
module Surfaces {
  datatype Triangle = Triangle(a: int, b: int, c: int)

  type Edge = (int, int)

  function Flip(e: Edge): Edge { (e.1, e.0) }

  /** The k-th directed edge along the winding of t. */
  function EdgeOf(t: Triangle, k: int): Edge
    requires 0 <= k < 3
  {
    if k == 0 then (t.a, t.b) else if k == 1 then (t.b, t.c) else (t.c, t.a)
  }

  predicate Slot(ts: seq<Triangle>, i: int, k: int) { 0 <= i < |ts| && 0 <= k < 3 }

  predicate Corners(t: Triangle, n: int) {
    0 <= t.a < n && 0 <= t.b < n && 0 <= t.c < n && t.a != t.b && t.b != t.c && t.c != t.a
  }

  /** Every triangle has three different corners among the first n vertices. */
  predicate InRange(ts: seq<Triangle>, n: int) {
    forall i :: 0 <= i < |ts| ==> Corners(ts[i], n)
  }

  ghost predicate UsedOnce(ts: seq<Triangle>) {
    forall i, k, j, l | Slot(ts, i, k) && Slot(ts, j, l) :: EdgeOf(ts[i], k) == EdgeOf(ts[j], l) ==> i == j && k == l
  }

  function Edges(ts: seq<Triangle>): set<Edge> {
    set i, k | 0 <= i < |ts| && 0 <= k < 3 :: EdgeOf(ts[i], k)
  }

  /** Wherever one triangle passes, another passes in the opposite direction. */
  predicate Paired(ts: seq<Triangle>) {
    forall e :: e in Edges(ts) ==> Flip(e) in Edges(ts)
  }

  /** The edges without their directions. */
  function Undirected(ts: seq<Triangle>): set<Edge> {
    set e | e in Edges(ts) && e.0 < e.1
  }

  /** The edges of the last triangle. */
  function Last(ts: seq<Triangle>): set<Edge>
    requires ts != []
  {
    var t := ts[|ts| - 1];
    {EdgeOf(t, 0), EdgeOf(t, 1), EdgeOf(t, 2)}
  }

  lemma FrontOnce(ts: seq<Triangle>)
    requires UsedOnce(ts) && ts != []
    ensures UsedOnce(ts[..|ts| - 1])
  {
    var front := ts[..|ts| - 1];
    forall i, k, j, l | Slot(front, i, k) && Slot(front, j, l) && EdgeOf(front[i], k) == EdgeOf(front[j], l) ensures i == j && k == l {
      assert Slot(ts, i, k) && Slot(ts, j, l);
    }
  }

  lemma LastIsNew(ts: seq<Triangle>)
    requires UsedOnce(ts) && ts != []
    ensures Last(ts) !! Edges(ts[..|ts| - 1]) && |Last(ts)| == 3
  {
    var n := |ts| - 1;
    var front := ts[..n];
    assert Slot(ts, n, 0) && Slot(ts, n, 1) && Slot(ts, n, 2);
    forall e | e in Edges(front) ensures e !in Last(ts) {
      var i, k :| 0 <= i < |front| && 0 <= k < 3 && e == EdgeOf(front[i], k);
      assert Slot(ts, i, k) && front[i] == ts[i];
    }
  }

  lemma {:induction false} CountEdges(ts: seq<Triangle>)
    requires UsedOnce(ts)
    ensures |Edges(ts)| == 3 * |ts|
    decreases |ts|
  {
    if ts == [] { assert Edges(ts) == {}; }
    else {
      hide UsedOnce, Edges, Last;
      var front := ts[..|ts| - 1];
      FrontOnce(ts);
      LastIsNew(ts);
      CountEdges(front);
      EdgesSplit(ts);
    }
  }

  lemma EdgesSplit(ts: seq<Triangle>)
    requires ts != []
    ensures Edges(ts) == Edges(ts[..|ts| - 1]) + Last(ts)
  {
    var front, last := ts[..|ts| - 1], ts[|ts| - 1];
    assert forall i :: 0 <= i < |front| ==> front[i] == ts[i];
    forall e | e in Edges(front) ensures e in Edges(ts) {
      var i, k :| 0 <= i < |front| && 0 <= k < 3 && e == EdgeOf(front[i], k);
      assert e == EdgeOf(ts[i], k);
    }
    forall k | 0 <= k < 3 ensures EdgeOf(last, k) in Edges(ts) { assert EdgeOf(ts[|front|], k) == EdgeOf(last, k); }
  }

  lemma {:induction false} FlipSize(es: set<Edge>)
    ensures |set e | e in es :: Flip(e)| == |es|
    decreases |es|
  {
    if es != {} {
      var e :| e in es;
      FlipSize(es - {e});
      assert (set f | f in es :: Flip(f)) == (set f | f in es - {e} :: Flip(f)) + {Flip(e)};
    }
  }

  /** In a closed surface that uses each directed edge once there are three edges to every two triangles. */
  lemma CountUndirected(ts: seq<Triangle>, n: int)
    requires UsedOnce(ts) && Paired(ts) && InRange(ts, n)
    ensures 2 * |Undirected(ts)| == 3 * |ts|
  {
    CountEdges(ts);
    var up := Undirected(ts);
    var down := set e | e in up :: Flip(e);
    FlipSize(up);
    forall e | e in Edges(ts) ensures e in up || e in down {
      NoLoop(ts, n, e);
      if e.0 > e.1 { assert Flip(e) in up && e == Flip(Flip(e)); }
    }
    assert Edges(ts) == up + down;
    assert up * down == {};
  }

  lemma NoLoop(ts: seq<Triangle>, n: int, e: Edge)
    requires InRange(ts, n) && e in Edges(ts)
    ensures e.0 != e.1
  {
    var i, k :| 0 <= i < |ts| && 0 <= k < 3 && e == EdgeOf(ts[i], k);
    assert Corners(ts[i], n);
  }
}
