/** What clustering conserves, and which vertices it puts together, said without the clusters themselves. */
module VoxelCentroid {
  import opened Bytes
  import opened Reals
  import opened VoxelMesh

  /* ---------- who shares a cluster ---------- */

  /** No multiple of the size lies between the two coordinates. */
  ghost predicate Unseparated(x: real, y: real, size: real) {
    forall m: int :: x < Plane(m, size) <==> y < Plane(m, size)
  }

  function Plane(m: int, size: real): real { m as real * size }

  lemma PlanesGrow(m: int, n: int, size: real)
    requires m <= n && size > 0.0
    ensures Plane(m, size) <= Plane(n, size)
  {
    Scale(m as real, n as real, size);
  }

  lemma InCellIs(x: real, c: int, size: real)
    requires InCell(x, c, size)
    ensures Plane(c, size) <= x < Plane(c + 1, size)
  {
  }

  lemma SameFloorIff(x: real, y: real, size: real)
    requires size > 0.0
    ensures (x / size).Floor == (y / size).Floor <==> Unseparated(x, y, size)
  {
    var a, b := (x / size).Floor, (y / size).Floor;
    FloorBounds(x, size); FloorBounds(y, size);
    hide InCell, Plane;
    InCellIs(x, a, size); InCellIs(y, b, size);
    if a == b {
      forall m: int ensures x < Plane(m, size) <==> y < Plane(m, size) {
        if m <= a { PlanesGrow(m, a, size); } else { PlanesGrow(a + 1, m, size); }
      }
    } else if a < b { PlanesGrow(a + 1, b, size); assert x < Plane(b, size) && !(y < Plane(b, size)); }
    else { PlanesGrow(b + 1, a, size); assert y < Plane(a, size) && !(x < Plane(a, size)); }
  }

  /** Two vertices share a cluster exactly if no plane at a multiple of the voxel size separates them, on any axis. */
  lemma ClusterIffUnseparated(vs: seq<Vec>, size: real, i: nat, j: nat)
    requires size > 0.0 && i < |vs| && j < |vs|
    ensures ClusterOf(vs, size, i) == ClusterOf(vs, size, j)
      <==> Unseparated(vs[i].x, vs[j].x, size) && Unseparated(vs[i].y, vs[j].y, size) && Unseparated(vs[i].z, vs[j].z, size)
  {
    ClusterIffCell(vs, size, i, j);
    hide ClusterOf, Unseparated;
    SameFloorIff(vs[i].x, vs[j].x, size); SameFloorIff(vs[i].y, vs[j].y, size); SameFloorIff(vs[i].z, vs[j].z, size);
  }

  /* ---------- the centre of mass ---------- */

  function Total(vs: seq<Vec>): Vec {
    if vs == [] then Zero else Add(Total(vs[..|vs| - 1]), vs[|vs| - 1])
  }

  function Weigh(n: nat, v: Vec): Vec { Vec(n as real * v.x, n as real * v.y, n as real * v.z) }

  /** The means of the cells, each as often as it has vertices, summed up. */
  function WeightedTotal(vs: seq<Vec>, size: real, cells: seq<Cell>): Vec
    requires size > 0.0 && forall c :: c in cells ==> CountIn(vs, size, c) > 0
  {
    if cells == [] then Zero
    else Add(Weigh(CountIn(vs, size, cells[0]), Mean(vs, size, cells[0])), WeightedTotal(vs, size, cells[1..]))
  }

  function SumOver(vs: seq<Vec>, size: real, cells: seq<Cell>): Vec
    requires size > 0.0
  {
    if cells == [] then Zero else Add(SumIn(vs, size, cells[0]), SumOver(vs, size, cells[1..]))
  }

  function CountOver(vs: seq<Vec>, size: real, cells: seq<Cell>): nat
    requires size > 0.0
  {
    if cells == [] then 0 else CountIn(vs, size, cells[0]) + CountOver(vs, size, cells[1..])
  }

  lemma WeighedMean(vs: seq<Vec>, size: real, cell: Cell)
    requires size > 0.0 && CountIn(vs, size, cell) > 0
    ensures Weigh(CountIn(vs, size, cell), Mean(vs, size, cell)) == SumIn(vs, size, cell)
  {
    hide SumIn, CountIn;
  }

  lemma {:induction false} WeightedIsSum(vs: seq<Vec>, size: real, cells: seq<Cell>)
    requires size > 0.0 && forall c :: c in cells ==> CountIn(vs, size, c) > 0
    ensures WeightedTotal(vs, size, cells) == SumOver(vs, size, cells)
  {
    hide SumIn, CountIn, Add, Weigh, Mean;
    if cells != [] {
      assert cells[0] in cells;
      WeighedMean(vs, size, cells[0]);
      WeightedIsSum(vs, size, cells[1..]);
    }
  }

  lemma AddLaws(u: Vec, v: Vec, w: Vec)
    ensures Add(Add(u, v), w) == Add(u, Add(v, w)) && Add(u, v) == Add(v, u) && Add(u, Zero) == u == Add(Zero, u)
  {
  }

  /** One vertex more adds to its own cell, if this is listed, and to no other. */
  lemma {:induction false} OneVertexMore(vs: seq<Vec>, size: real, v: Vec, cells: seq<Cell>)
    requires size > 0.0 && DistinctCells(cells)
    ensures var c := CellOf(v, size);
      && SumOver(vs + [v], size, cells) == (if c in cells then Add(SumOver(vs, size, cells), v) else SumOver(vs, size, cells))
      && CountOver(vs + [v], size, cells) == CountOver(vs, size, cells) + if c in cells then 1 else 0
  {
    hide SumIn, CountIn, Add, CellOf;
    if cells != [] {
      var c, rest := CellOf(v, size), cells[1..];
      assert cells == [cells[0]] + rest;
      OneMoreIn(vs, size, v, cells[0]);
      OneVertexMore(vs, size, v, rest);
      var s, t := SumIn(vs, size, cells[0]), SumOver(vs, size, rest);
      AddLaws(s, v, t); AddLaws(s, t, v); AddLaws(v, t, s);
    }
  }

  lemma {:induction false} SumsSplit(vs: seq<Vec>, size: real, cells: seq<Cell>, c: Cell)
    requires size > 0.0
    ensures SumOver(vs, size, cells + [c]) == Add(SumOver(vs, size, cells), SumIn(vs, size, c))
    ensures CountOver(vs, size, cells + [c]) == CountOver(vs, size, cells) + CountIn(vs, size, c)
  {
    hide SumIn, CountIn, Add;
    var s := SumIn(vs, size, c);
    if cells == [] {
      assert (cells + [c])[1..] == [];
      AddLaws(s, Zero, Zero);
    } else {
      assert (cells + [c])[1..] == cells[1..] + [c];
      SumsSplit(vs, size, cells[1..], c);
      AddLaws(SumIn(vs, size, cells[0]), SumOver(vs, size, cells[1..]), s);
    }
  }

  lemma {:induction false} CellsSumUp(vs: seq<Vec>, size: real)
    requires size > 0.0
    ensures SumOver(vs, size, Cells(vs, size)) == Total(vs) && CountOver(vs, size, Cells(vs, size)) == |vs|
    decreases |vs|
  {
    if vs == [] { assert Cells(vs, size) == []; }
    else {
      var front, v := vs[..|vs| - 1], vs[|vs| - 1];
      assert vs == front + [v] && Total(vs) == Add(Total(front), v);
      hide Total, SumIn, CountIn, Add, CellOf, Cells, SumOver, CountOver;
      CellsSumUp(front, size);
      CellsAre(vs, size);
      OneMoreCell(front, size, v);
      var c, cells := CellOf(v, size), Cells(front, size);
      OneVertexMore(front, size, v, Cells(vs, size));
      if c !in cells {
        NothingThere(front, size, c);
        SumsSplit(front, size, cells, c);
        AddLaws(SumOver(front, size, cells), Zero, Zero);
      }
    }
  }

  /** Weighted by the vertices that they stand for, the means of the clusters have the sum of all vertices: nothing shifts. */
  lemma CentreIsKept(vs: seq<Vec>, size: real)
    requires size > 0.0
    ensures (forall c :: c in Cells(vs, size) ==> CountIn(vs, size, c) > 0)
      && WeightedTotal(vs, size, Cells(vs, size)) == Total(vs) && CountOver(vs, size, Cells(vs, size)) == |vs|
  {
    CellsAre(vs, size);
    WeightedIsSum(vs, size, Cells(vs, size));
    CellsSumUp(vs, size);
  }

  /* ---------- the order of vertices and triangles ---------- */

  lemma {:induction false} CellsGrow(vs: seq<Vec>, size: real, n: nat)
    requires size > 0.0 && n <= |vs|
    ensures Cells(vs[..n], size) <= Cells(vs, size)
    decreases |vs| - n
  {
    hide CellOf;
    if n < |vs| {
      CellsGrow(vs, size, n + 1);
      assert vs[..n + 1][..n] == vs[..n];
    } else { assert vs[..n] == vs; }
  }

  /** Clusters are numbered as they are met: a vertex without a mate before it gets the next number, any other an earlier one. */
  lemma NumberedAsMet(vs: seq<Vec>, size: real, i: nat)
    requires size > 0.0 && i < |vs|
    ensures var next := |Cells(vs[..i], size)|;
      if forall j :: 0 <= j < i ==> ClusterOf(vs, size, j) != ClusterOf(vs, size, i) then ClusterOf(vs, size, i) == next
      else ClusterOf(vs, size, i) < next
    ensures forall j :: 0 <= j < i ==> ClusterOf(vs, size, j) < |Cells(vs[..i], size)|
  {
    var before, more := vs[..i], vs[..i + 1];
    assert more == before + [vs[i]];
    CellsAre(vs, size); CellsAre(before, size);
    OneMoreCell(before, size, vs[i]);
    CellsGrow(vs, size, i); CellsGrow(vs, size, i + 1);
    var c, all := CellOf(vs[i], size), Cells(vs, size);
    hide Cells, CellOf, IndexIn;
    forall j | 0 <= j < i ensures CellOf(vs[j], size) in Cells(before, size) && ClusterOf(vs, size, j) < |Cells(before, size)| {
      assert before[j] == vs[j];
      InPrefix(all, Cells(before, size), CellOf(vs[j], size));
    }
    InPrefix(all, Cells(more, size), c);
    if c in Cells(before, size) {
      InPrefix(all, Cells(before, size), c);
      SomeMate(before, size, c);
      var j :| 0 <= j < i && CellOf(before[j], size) == c;
      assert before[j] == vs[j];
    } else {
      forall j | 0 <= j < i ensures ClusterOf(vs, size, j) != ClusterOf(vs, size, i) { ClusterIffCell(vs, size, j, i); }
    }
  }

  lemma InPrefix(all: seq<Cell>, front: seq<Cell>, c: Cell)
    requires front <= all && c in front
    ensures IndexIn(all, c) == IndexIn(front, c) < |front|
  {
    assert all == front + all[|front|..];
    IndexStays(front, all[|front|..], c);
  }

  lemma SomeMate(vs: seq<Vec>, size: real, c: Cell)
    requires size > 0.0 && c in Cells(vs, size)
    ensures exists j :: 0 <= j < |vs| && CellOf(vs[j], size) == c
  {
    EveryCellOccurs(vs, size, c);
  }

  /** The triangle is proper, and none before it has the same corners. */
  predicate FirstOfItsKind(mapped: seq<Tri>, i: int) {
    0 <= i < |mapped| && Proper(mapped[i]) && forall j :: 0 <= j < i ==> Corners(mapped[j]) != Corners(mapped[i])
  }

  /** The numbers of the triangles that are the first of their kind, in order. */
  function Firsts(mapped: seq<Tri>, n: nat): seq<nat>
    requires n <= |mapped|
  {
    if n == 0 then [] else Firsts(mapped, n - 1) + if FirstOfItsKind(mapped, n - 1) then [n - 1] else []
  }

  lemma {:induction false} FirstsAre(mapped: seq<Tri>, n: nat)
    requires n <= |mapped|
    ensures var f := Firsts(mapped, n);
      && (forall k :: 0 <= k < |f| ==> f[k] < n && FirstOfItsKind(mapped, f[k])) && (forall k, l :: 0 <= k < l < |f| ==> f[k] < f[l])
      && (forall i :: 0 <= i < n && FirstOfItsKind(mapped, i) ==> i in f)
  {
    hide FirstOfItsKind;
    if n > 0 { FirstsAre(mapped, n - 1); }
  }

  lemma {:induction false} KeptAreFirsts(mapped: seq<Tri>, n: nat)
    requires n <= |mapped|
    ensures |Kept(mapped[..n])| == |Firsts(mapped, n)|
      && (forall k :: 0 <= k < |Firsts(mapped, n)| ==> Firsts(mapped, n)[k] < |mapped| && Kept(mapped[..n])[k] == mapped[Firsts(mapped, n)[k]])
    decreases n
  {
    if n > 0 {
      var m := n - 1;
      KeptAreFirsts(mapped, m);
      assert mapped[..n][..m] == mapped[..m] && mapped[..n][m] == mapped[m];
      SeenIffNotFirst(mapped, m);
      hide FirstOfItsKind, Seen, Proper, Corners;
    }
  }

  lemma SeenIffNotFirst(mapped: seq<Tri>, m: nat)
    requires m < |mapped|
    ensures Proper(mapped[m]) && !Seen(Kept(mapped[..m]), mapped[m]) <==> FirstOfItsKind(mapped, m)
  {
    KeptRepresents(mapped[..m]);
    hide Kept, Corners, Proper;
    var kept, t := Kept(mapped[..m]), mapped[m];
    if Proper(t) && Seen(kept, t) {
      var k :| 0 <= k < |kept| && Corners(kept[k]) == Corners(t);
      assert kept[k] in mapped[..m];
    }
    if Proper(t) && !FirstOfItsKind(mapped, m) {
      var j :| 0 <= j < m && Corners(mapped[j]) == Corners(t);
      assert mapped[..m][j] == mapped[j];
      SameCornersProper(mapped[j], t);
      assert mapped[j] in mapped[..m];
      var k :| 0 <= k < |kept| && Corners(kept[k]) == Corners(mapped[j]);
      assert Seen(kept, t);
    }
  }

  lemma SameCornersProper(s: Tri, t: Tri)
    requires Corners(s) == Corners(t) && Proper(t)
    ensures Proper(s)
  {
    assert t.a in Corners(s) && t.b in Corners(s) && t.c in Corners(s);
  }

  /** The kept triangles are, in their order and as they are, those that are the first of their kind, and no others. */
  lemma KeptInOrder(mapped: seq<Tri>)
    ensures exists f: seq<nat> ::
      && |f| == |Kept(mapped)| && (forall k :: 0 <= k < |f| ==> f[k] < |mapped| && Kept(mapped)[k] == mapped[f[k]])
      && (forall k, l :: 0 <= k < l < |f| ==> f[k] < f[l]) && (forall i: nat :: i in f <==> FirstOfItsKind(mapped, i))
  {
    hide FirstOfItsKind, Kept;
    KeptAreFirsts(mapped, |mapped|);
    FirstsAre(mapped, |mapped|);
    assert mapped[..|mapped|] == mapped;
    var f := Firsts(mapped, |mapped|);
    hide Firsts;
    forall i: nat ensures i in f <==> FirstOfItsKind(mapped, i) {
      if i in f { var k :| 0 <= k < |f| && f[k] == i; }
      if FirstOfItsKind(mapped, i) { InRangeOf(mapped, i); }
    }
  }

  lemma InRangeOf(mapped: seq<Tri>, i: nat)
    requires FirstOfItsKind(mapped, i)
    ensures i < |mapped|
  {
  }
}
