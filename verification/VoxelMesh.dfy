/** Voxel clustering of a mesh: what its loops compute, stated on whole lists. */
module VoxelMesh {
  import opened Bytes
  import opened Reals

  datatype Cell = Cell(i: int, j: int, k: int)
  datatype Tri = Tri(a: nat, b: nat, c: nat)
  datatype Mesh = Mesh(vertices: seq<Vec>, triangles: seq<Tri>)

  function CellOf(v: Vec, size: real): Cell
    requires size > 0.0
  {
    Cell((v.x / size).Floor, (v.y / size).Floor, (v.z / size).Floor)
  }

  predicate InBounds(triangles: seq<Tri>, n: nat) {
    forall i :: 0 <= i < |triangles| ==> triangles[i].a < n && triangles[i].b < n && triangles[i].c < n
  }

  /* ---------- clusters ---------- */

  /** The cells that occur, in the order in which they first do. */
  function Cells(vs: seq<Vec>, size: real): seq<Cell>
    requires size > 0.0
  {
    if vs == [] then []
    else
      var front, cell := Cells(vs[..|vs| - 1], size), CellOf(vs[|vs| - 1], size);
      if cell in front then front else front + [cell]
  }

  function IndexIn(cells: seq<Cell>, cell: Cell): (r: nat)
    requires cell in cells
    ensures r < |cells| && cells[r] == cell
  {
    if cells[0] == cell then 0 else 1 + IndexIn(cells[1..], cell)
  }

  function Add(u: Vec, v: Vec): Vec { Vec(u.x + v.x, u.y + v.y, u.z + v.z) }

  const Zero := Vec(0.0, 0.0, 0.0)

  /** The sum of the vertices in a cell, and how many they are. */
  function SumIn(vs: seq<Vec>, size: real, cell: Cell): Vec
    requires size > 0.0
  {
    if vs == [] then Zero
    else
      var front := SumIn(vs[..|vs| - 1], size, cell);
      if CellOf(vs[|vs| - 1], size) == cell then Add(front, vs[|vs| - 1]) else front
  }

  function CountIn(vs: seq<Vec>, size: real, cell: Cell): nat
    requires size > 0.0
  {
    if vs == [] then 0
    else CountIn(vs[..|vs| - 1], size, cell) + if CellOf(vs[|vs| - 1], size) == cell then 1 else 0
  }

  ghost predicate DistinctCells(cells: seq<Cell>) {
    forall i, j :: 0 <= i < j < |cells| ==> cells[i] != cells[j]
  }

  lemma {:induction false} CellsAre(vs: seq<Vec>, size: real)
    requires size > 0.0
    ensures DistinctCells(Cells(vs, size))
    ensures forall i :: 0 <= i < |vs| ==> CellOf(vs[i], size) in Cells(vs, size)
    ensures forall c :: c in Cells(vs, size) ==> CountIn(vs, size, c) > 0
    decreases |vs|
  {
    hide CellOf;
    if vs != [] {
      var front, last := vs[..|vs| - 1], vs[|vs| - 1];
      CellsAre(front, size);
      forall i | 0 <= i < |vs| ensures CellOf(vs[i], size) in Cells(vs, size) {
        if i < |front| { assert front[i] == vs[i]; }
      }
    }
  }

  lemma IndexIsUnique(cells: seq<Cell>, k: nat)
    requires DistinctCells(cells) && k < |cells|
    ensures IndexIn(cells, cells[k]) == k
  {
  }

  /** The cluster of a vertex is the place of its cell. */
  function ClusterOf(vs: seq<Vec>, size: real, i: nat): nat
    requires size > 0.0 && i < |vs|
  {
    CellsAre(vs, size);
    IndexIn(Cells(vs, size), CellOf(vs[i], size))
  }

  /** Two vertices share a cluster exactly if they share a cell. */
  lemma ClusterIffCell(vs: seq<Vec>, size: real, i: nat, j: nat)
    requires size > 0.0 && i < |vs| && j < |vs|
    ensures ClusterOf(vs, size, i) == ClusterOf(vs, size, j) <==> CellOf(vs[i], size) == CellOf(vs[j], size)
  {
  }

  /* ---------- means ---------- */

  function Mean(vs: seq<Vec>, size: real, cell: Cell): Vec
    requires size > 0.0 && CountIn(vs, size, cell) > 0
  {
    var s, n := SumIn(vs, size, cell), CountIn(vs, size, cell) as real;
    Vec(s.x / n, s.y / n, s.z / n)
  }

  predicate InCell(x: real, c: int, size: real) { c as real * size <= x < (c + 1) as real * size }

  /** The sum over n vertices of a cell lies between n times its bounds. */
  predicate SumWithin(s: real, n: nat, c: int, size: real) {
    n as real * (c as real * size) <= s <= n as real * ((c + 1) as real * size) && (n > 0 ==> s < n as real * ((c + 1) as real * size))
  }

  lemma FloorBounds(x: real, size: real)
    requires size > 0.0
    ensures InCell(x, (x / size).Floor, size)
  {
    var q := x / size;
    var c := q.Floor;
    assert c as real <= q < (c + 1) as real;
    assert x == q * size;
    Scale(c as real, q, size);
    ScaleLess(q, (c + 1) as real, size);
  }

  lemma Scale(a: real, b: real, size: real)
    requires a <= b && size > 0.0
    ensures a * size <= b * size
  {
    assert (b - a) * size >= 0.0;
  }

  lemma ScaleLess(a: real, b: real, size: real)
    requires a < b && size > 0.0
    ensures a * size < b * size
  {
    assert (b - a) * size > 0.0;
  }

  lemma AddOne(s: real, n: nat, c: int, size: real, x: real)
    requires SumWithin(s, n, c, size) && InCell(x, c, size)
    ensures SumWithin(s + x, n + 1, c, size)
  {
    var lo, hi := c as real * size, (c + 1) as real * size;
    assert (n + 1) as real * lo == n as real * lo + lo;
    assert (n + 1) as real * hi == n as real * hi + hi;
  }

  lemma {:induction false} SumBounds(vs: seq<Vec>, size: real, cell: Cell)
    requires size > 0.0
    ensures var s, n := SumIn(vs, size, cell), CountIn(vs, size, cell);
      SumWithin(s.x, n, cell.i, size) && SumWithin(s.y, n, cell.j, size) && SumWithin(s.z, n, cell.k, size)
    decreases |vs|
  {
    if vs != [] {
      var front, last := vs[..|vs| - 1], vs[|vs| - 1];
      SumBounds(front, size, cell);
      hide SumWithin, InCell;
      if CellOf(last, size) == cell {
        var s, n := SumIn(front, size, cell), CountIn(front, size, cell);
        FloorBounds(last.x, size); FloorBounds(last.y, size); FloorBounds(last.z, size);
        AddOne(s.x, n, cell.i, size, last.x); AddOne(s.y, n, cell.j, size, last.y); AddOne(s.z, n, cell.k, size, last.z);
      }
    }
  }

  lemma MeanInCell(s: real, n: nat, c: int, size: real)
    requires n > 0 && SumWithin(s, n, c, size)
    ensures InCell(s / n as real, c, size)
  {
    var m := s / n as real;
    var lo, hi := c as real * size, (c + 1) as real * size;
    assert m * n as real == s;
    if m < lo { ScaleLess(m, lo, n as real); }
    if m >= hi { Scale(hi, m, n as real); }
  }

  /** Every source vertex is nearer than the voxel size, on each axis, to the mean that stands for it. */
  lemma MeanIsNear(vs: seq<Vec>, size: real, i: nat)
    requires size > 0.0 && i < |vs|
    ensures var cell := CellOf(vs[i], size);
      && CountIn(vs, size, cell) > 0
      && var m := Mean(vs, size, cell);
         Abs(vs[i].x - m.x) < size && Abs(vs[i].y - m.y) < size && Abs(vs[i].z - m.z) < size
  {
    var v, cell := vs[i], CellOf(vs[i], size);
    CellsAre(vs, size);
    SumBounds(vs, size, cell);
    hide SumWithin, InCell, Abs;
    var s, n := SumIn(vs, size, cell), CountIn(vs, size, cell);
    FloorBounds(v.x, size); FloorBounds(v.y, size); FloorBounds(v.z, size);
    MeanInCell(s.x, n, cell.i, size); MeanInCell(s.y, n, cell.j, size); MeanInCell(s.z, n, cell.k, size);
    NearInCell(cell.i, size, v.x, s.x / n as real);
    NearInCell(cell.j, size, v.y, s.y / n as real);
    NearInCell(cell.k, size, v.z, s.z / n as real);
  }

  lemma NearInCell(c: int, size: real, x: real, y: real)
    requires InCell(x, c, size) && InCell(y, c, size)
    ensures Abs(x - y) < size
  {
    assert (c + 1) as real * size == c as real * size + size;
  }

  /* ---------- triangles ---------- */

  function Corners(t: Tri): set<nat> { {t.a, t.b, t.c} }

  predicate Proper(t: Tri) { t.a != t.b && t.b != t.c && t.c != t.a }

  function MapTri(t: Tri, clusters: seq<nat>): Tri
    requires t.a < |clusters| && t.b < |clusters| && t.c < |clusters|
  {
    Tri(clusters[t.a], clusters[t.b], clusters[t.c])
  }

  /** What stands for a triangle in the set of those seen: its indices in ascending order. */
  function Identity(t: Tri): (nat, nat, nat) {
    var lo, hi := if t.a < t.b then t.a else t.b, if t.a < t.b then t.b else t.a;
    if t.c < lo then (t.c, lo, hi) else if t.c < hi then (lo, t.c, hi) else (lo, hi, t.c)
  }

  lemma SameIdentity(s: Tri, t: Tri)
    requires Proper(s) && Proper(t)
    ensures Identity(s) == Identity(t) <==> Corners(s) == Corners(t)
  {
    var i, j := Identity(s), Identity(t);
    IdentityCorners(s); IdentityCorners(t);
    if Corners(s) == Corners(t) {
      assert i.0 in Corners(t) && i.1 in Corners(t) && i.2 in Corners(t);
    }
  }

  lemma IdentityCorners(t: Tri)
    ensures var i := Identity(t); Corners(t) == {i.0, i.1, i.2} && i.0 <= i.1 <= i.2
    ensures Proper(t) ==> var i := Identity(t); i.0 < i.1 < i.2
  {
  }

  /** Some triangle of the list has the same corners. */
  predicate Seen(kept: seq<Tri>, t: Tri) {
    exists k :: 0 <= k < |kept| && Corners(kept[k]) == Corners(t)
  }

  /** The mapped triangles that keep three different corners, the first of each set of corners. */
  function Kept(mapped: seq<Tri>): seq<Tri> {
    if mapped == [] then []
    else
      var front, t := Kept(mapped[..|mapped| - 1]), mapped[|mapped| - 1];
      if Proper(t) && !Seen(front, t) then front + [t] else front
  }

  /** Nothing degenerate, nothing twice, nothing invented, nothing lost. */
  ghost predicate Represents(mapped: seq<Tri>, kept: seq<Tri>) {
    && (forall k :: 0 <= k < |kept| ==> Proper(kept[k]) && kept[k] in mapped)
    && (forall k, l :: 0 <= k < l < |kept| ==> Corners(kept[k]) != Corners(kept[l]))
    && (forall t :: t in mapped && Proper(t) ==> Seen(kept, t))
  }

  lemma {:induction false} KeptRepresents(mapped: seq<Tri>)
    ensures Represents(mapped, Kept(mapped))
    decreases |mapped|
  {
    hide Represents, Corners, Seen, Proper;
    if mapped == [] { NothingRepresented(); }
    else {
      var rest, t := mapped[..|mapped| - 1], mapped[|mapped| - 1];
      KeptRepresents(rest);
      assert mapped == rest + [t];
      if Proper(t) && !Seen(Kept(rest), t) { KeepOne(rest, Kept(rest), t); } else { DropOne(rest, Kept(rest), t); }
    }
  }

  lemma NothingRepresented()
    ensures Represents([], [])
  {
  }

  lemma KeepOne(rest: seq<Tri>, front: seq<Tri>, t: Tri)
    requires Represents(rest, front) && Proper(t) && !Seen(front, t)
    ensures Represents(rest + [t], front + [t])
  {
    hide Proper, Corners;
    var kept := front + [t];
    NewCorners(front, t);
    hide Seen;
    forall u | u in rest + [t] && Proper(u) ensures Seen(kept, u) {
      if u in rest { SeenStays(front, kept, u); } else { SeenItself(kept, |front|); }
    }
  }

  lemma DropOne(rest: seq<Tri>, front: seq<Tri>, t: Tri)
    requires Represents(rest, front) && (Proper(t) ==> Seen(front, t))
    ensures Represents(rest + [t], front)
  {
    hide Proper, Corners, Seen;
  }

  lemma NewCorners(front: seq<Tri>, t: Tri)
    ensures !Seen(front, t) ==> forall k :: 0 <= k < |front| ==> Corners(front[k]) != Corners(t)
  {
  }

  lemma SeenStays(front: seq<Tri>, kept: seq<Tri>, u: Tri)
    requires Seen(front, u) && front <= kept
    ensures Seen(kept, u)
  {
    var k :| 0 <= k < |front| && Corners(front[k]) == Corners(u);
    assert Corners(kept[k]) == Corners(u);
  }

  lemma SeenItself(kept: seq<Tri>, k: nat)
    requires k < |kept|
    ensures Seen(kept, kept[k])
  {
  }

  function Clusters(vs: seq<Vec>, size: real): seq<nat>
    requires size > 0.0
  {
    seq(|vs|, i requires 0 <= i < |vs| => ClusterOf(vs, size, i))
  }

  function Mapped(ts: seq<Tri>, clusters: seq<nat>): seq<Tri>
    requires InBounds(ts, |clusters|)
  {
    seq(|ts|, i requires 0 <= i < |ts| => MapTri(ts[i], clusters))
  }

  function Means(vs: seq<Vec>, size: real): seq<Vec>
    requires size > 0.0
  {
    CellsAre(vs, size);
    seq(|Cells(vs, size)|, k requires 0 <= k < |Cells(vs, size)| => Mean(vs, size, Cells(vs, size)[k]))
  }

  function Simplified(mesh: Mesh, size: real): Mesh
    requires size > 0.0 && InBounds(mesh.triangles, |mesh.vertices|)
  {
    Mesh(Means(mesh.vertices, size), Kept(Mapped(mesh.triangles, Clusters(mesh.vertices, size))))
  }

  /**
   * The simplified mesh has one vertex for every occupied cell, near to all source vertices there; its triangles have three
   * different corners in range, no two the same corners, and every source triangle that spans three cells is represented.
   */
  lemma SimplifiedIsSound(mesh: Mesh, size: real)
    requires size > 0.0 && InBounds(mesh.triangles, |mesh.vertices|)
    ensures var r := Simplified(mesh, size); var vs := mesh.vertices;
      && InBounds(r.triangles, |r.vertices|)
      && (forall i :: 0 <= i < |vs| ==> ClusterOf(vs, size, i) < |r.vertices| && Near(vs[i], r.vertices[ClusterOf(vs, size, i)], size))
      && (forall i, j :: 0 <= i < |vs| && 0 <= j < |vs| ==>
           (ClusterOf(vs, size, i) == ClusterOf(vs, size, j) <==> CellOf(vs[i], size) == CellOf(vs[j], size)))
      && (forall k :: 0 <= k < |r.vertices| ==> Occupied(vs, size, k))
      && Represents(Mapped(mesh.triangles, Clusters(vs, size)), r.triangles)
  {
    hide CellOf, Represents, Near;
    var r, vs := Simplified(mesh, size), mesh.vertices;
    var mapped := Mapped(mesh.triangles, Clusters(vs, size));
    KeptRepresents(mapped);
    CellsAre(vs, size);
    hide Kept, Cells;
    KeptInRange(mapped, r.triangles, |r.vertices|);
    forall i | 0 <= i < |vs| ensures ClusterOf(vs, size, i) < |r.vertices| && Near(vs[i], r.vertices[ClusterOf(vs, size, i)], size) {
      NearMean(vs, size, i);
    }
    forall i, j | 0 <= i < |vs| && 0 <= j < |vs| ensures ClusterOf(vs, size, i) == ClusterOf(vs, size, j) <==> CellOf(vs[i], size) == CellOf(vs[j], size) {
      ClusterIffCell(vs, size, i, j);
    }
    forall k | 0 <= k < |r.vertices| ensures Occupied(vs, size, k) {
      EveryCellOccurs(vs, size, Cells(vs, size)[k]);
      IndexIsUnique(Cells(vs, size), k);
    }
  }

  /** The cluster stands for some vertex. */
  predicate Occupied(vs: seq<Vec>, size: real, k: nat)
    requires size > 0.0
  {
    exists i :: 0 <= i < |vs| && ClusterOf(vs, size, i) == k
  }

  predicate Near(v: Vec, m: Vec, size: real) {
    Abs(v.x - m.x) < size && Abs(v.y - m.y) < size && Abs(v.z - m.z) < size
  }

  lemma NearMean(vs: seq<Vec>, size: real, i: nat)
    requires size > 0.0 && i < |vs|
    ensures ClusterOf(vs, size, i) < |Means(vs, size)| && Near(vs[i], Means(vs, size)[ClusterOf(vs, size, i)], size)
  {
    hide CellOf, Abs, Mean;
    MeanIsNear(vs, size, i);
  }

  lemma {:induction false} EveryCellOccurs(vs: seq<Vec>, size: real, cell: Cell)
    requires size > 0.0 && cell in Cells(vs, size)
    ensures exists i :: 0 <= i < |vs| && CellOf(vs[i], size) == cell
    decreases |vs|
  {
    hide CellOf;
    var front, n := vs[..|vs| - 1], |vs| - 1;
    if cell in Cells(front, size) {
      EveryCellOccurs(front, size, cell);
      var i :| 0 <= i < |front| && CellOf(front[i], size) == cell;
      assert CellOf(vs[i], size) == cell;
    } else { assert CellOf(vs[n], size) == cell; }
  }

  lemma KeptInRange(mapped: seq<Tri>, kept: seq<Tri>, n: nat)
    requires Represents(mapped, kept) && InBounds(mapped, n)
    ensures InBounds(kept, n)
  {
    forall k | 0 <= k < |kept| ensures kept[k].a < n && kept[k].b < n && kept[k].c < n {
      var i :| 0 <= i < |mapped| && mapped[i] == kept[k];
    }
  }

  /* ---------- the loops ---------- */

  datatype Cluster = Cluster(sum: Vec, count: nat)

  ghost predicate Gathered(vs: seq<Vec>, size: real, byKey: map<Cell, nat>, clusters: seq<Cluster>)
    requires size > 0.0
  {
    var cells := Cells(vs, size);
    && |clusters| == |cells|
    && (forall c :: c in byKey <==> c in cells)
    && (forall c :: c in cells ==> byKey[c] == IndexIn(cells, c))
    && (forall k :: 0 <= k < |cells| ==> clusters[k] == Cluster(SumIn(vs, size, cells[k]), CountIn(vs, size, cells[k])))
  }

  lemma {:induction false} IndexStays(cells: seq<Cell>, more: seq<Cell>, c: Cell)
    requires c in cells
    ensures IndexIn(cells + more, c) == IndexIn(cells, c)
  {
    if cells[0] != c {
      assert (cells + more)[1..] == cells[1..] + more;
      IndexStays(cells[1..], more, c);
    }
  }

  lemma {:induction false} NothingThere(vs: seq<Vec>, size: real, c: Cell)
    requires size > 0.0 && c !in Cells(vs, size)
    ensures SumIn(vs, size, c) == Zero && CountIn(vs, size, c) == 0
    decreases |vs|
  {
    if vs != [] { NothingThere(vs[..|vs| - 1], size, c); }
  }

  /** One vertex more. */
  lemma GatherOne(vs: seq<Vec>, size: real, v: Vec, byKey: map<Cell, nat>, clusters: seq<Cluster>, byKey': map<Cell, nat>, clusters': seq<Cluster>)
    requires size > 0.0 && Gathered(vs, size, byKey, clusters)
    requires var c := CellOf(v, size);
      && byKey' == (if c in byKey then byKey else byKey[c := |clusters|])
      && var all := if c in byKey then clusters else clusters + [Cluster(Zero, 0)];
         byKey'[c] < |all| && clusters' == all[byKey'[c] := Cluster(Add(all[byKey'[c]].sum, v), all[byKey'[c]].count + 1)]
    ensures Gathered(vs + [v], size, byKey', clusters') && byKey'[CellOf(v, size)] == IndexIn(Cells(vs + [v], size), CellOf(v, size))
  {
    hide CellOf, Add, SumIn, CountIn, Cells, DistinctCells;
    var c, cells, more := CellOf(v, size), Cells(vs, size), vs + [v];
    var cells', k := Cells(more, size), byKey'[c];
    OneMoreCell(vs, size, v);
    forall d | d in cells' ensures d == c || (d in cells && IndexIn(cells', d) == IndexIn(cells, d)) {
      if d != c && c !in cells { IndexStays(cells, [c], d); }
    }
    assert IndexIn(cells', c) == k;
    forall i | 0 <= i < |cells'| ensures clusters'[i] == Cluster(SumIn(more, size, cells'[i]), CountIn(more, size, cells'[i])) {
      OneMoreIn(vs, size, v, cells'[i]);
      if i != k { OtherCell(cells', i, c, k); } else if c !in cells { NothingThere(vs, size, c); }
    }
  }

  lemma OneMoreCell(vs: seq<Vec>, size: real, v: Vec)
    requires size > 0.0
    ensures var c, cells := CellOf(v, size), Cells(vs, size); var cells' := Cells(vs + [v], size);
      && cells' == (if c in cells then cells else cells + [c])
      && DistinctCells(cells') && c in cells' && (c !in cells ==> IndexIn(cells', c) == |cells|)
  {
    hide CellOf, CountIn;
    var c, cells, more := CellOf(v, size), Cells(vs, size), vs + [v];
    assert more[..|more| - 1] == vs;
    CellsAre(more, size);
    if c !in cells { IndexIsUnique(cells + [c], |cells|); }
  }

  lemma OtherCell(cells: seq<Cell>, i: nat, c: Cell, k: nat)
    requires DistinctCells(cells) && i < |cells| && k < |cells| && i != k && cells[k] == c
    ensures cells[i] != c
  {
  }

  lemma OneMoreIn(vs: seq<Vec>, size: real, v: Vec, cell: Cell)
    requires size > 0.0
    ensures SumIn(vs + [v], size, cell) == if CellOf(v, size) == cell then Add(SumIn(vs, size, cell), v) else SumIn(vs, size, cell)
    ensures CountIn(vs + [v], size, cell) == CountIn(vs, size, cell) + if CellOf(v, size) == cell then 1 else 0
  {
    assert (vs + [v])[..|vs|] == vs;
  }

  lemma ClusterStays(vs: seq<Vec>, size: real, v: Vec, i: nat)
    requires size > 0.0 && i < |vs|
    ensures ClusterOf(vs + [v], size, i) == ClusterOf(vs, size, i)
  {
    hide CellOf;
    var more := vs + [v];
    assert more[..|more| - 1] == vs;
    CellsAre(vs, size);
    if CellOf(v, size) !in Cells(vs, size) { IndexStays(Cells(vs, size), [CellOf(v, size)], CellOf(vs[i], size)); }
  }

  method ClusterVertices(vs: seq<Vec>, size: real) returns (vertexToCluster: seq<nat>, clusters: seq<Cluster>)
    requires size > 0.0
    ensures vertexToCluster == Clusters(vs, size)
    ensures |clusters| == |Cells(vs, size)|
    ensures forall k :: 0 <= k < |clusters| ==> clusters[k] == Cluster(SumIn(vs, size, Cells(vs, size)[k]), CountIn(vs, size, Cells(vs, size)[k]))
  {
    hide CellOf, Cells, SumIn, CountIn, IndexIn, ClusterOf;
    var byKey: map<Cell, nat> := map[];
    vertexToCluster, clusters := [], [];
    NothingGathered(size);
    assert vs[..0] == [];
    var index := 0;
    while index < |vs|
      invariant 0 <= index <= |vs| && Gathered(vs[..index], size, byKey, clusters)
      invariant vertexToCluster == Clusters(vs[..index], size)
    {
      var vertex := vs[index];
      var key := CellOf(vertex, size);
      ghost var byKey0, clusters0 := byKey, clusters;
      if key !in byKey {
        byKey := byKey[key := |clusters|];
        clusters := clusters + [Cluster(Zero, 0)];
      }
      KeyInRange(vs[..index], size, byKey0, clusters0);
      var cluster := clusters[byKey[key]];
      clusters := clusters[byKey[key] := Cluster(Add(cluster.sum, vertex), cluster.count + 1)];
      GatherOne(vs[..index], size, vertex, byKey0, clusters0, byKey, clusters);
      assert vs[..index + 1] == vs[..index] + [vertex];
      OneMoreCluster(vs[..index], size, vertex, byKey[key]);
      vertexToCluster := vertexToCluster + [byKey[key]];
      index := index + 1;
    }
    assert vs[..index] == vs;
  }

  lemma NothingGathered(size: real)
    requires size > 0.0
    ensures Gathered([], size, map[], []) && Clusters([], size) == []
  {
  }

  lemma KeyInRange(vs: seq<Vec>, size: real, byKey: map<Cell, nat>, clusters: seq<Cluster>)
    requires size > 0.0 && Gathered(vs, size, byKey, clusters)
    ensures forall c :: c in byKey ==> byKey[c] < |clusters|
  {
  }

  lemma OneMoreCluster(vs: seq<Vec>, size: real, v: Vec, k: nat)
    requires size > 0.0 && CellOf(v, size) in Cells(vs + [v], size) && k == IndexIn(Cells(vs + [v], size), CellOf(v, size))
    ensures Clusters(vs + [v], size) == Clusters(vs, size) + [k]
  {
    hide CellOf, Cells, IndexIn;
    forall i | 0 <= i < |vs| ensures Clusters(vs + [v], size)[i] == Clusters(vs, size)[i] { ClusterStays(vs, size, v, i); }
  }

  /** The identities of the kept triangles. */
  ghost predicate Remembers(seen: set<(nat, nat, nat)>, kept: seq<Tri>) {
    && (forall k :: 0 <= k < |kept| ==> Proper(kept[k]))
    && (forall id :: id in seen <==> exists k :: 0 <= k < |kept| && Identity(kept[k]) == id)
  }

  lemma SeenIffRemembered(seen: set<(nat, nat, nat)>, kept: seq<Tri>, t: Tri)
    requires Remembers(seen, kept) && Proper(t)
    ensures Identity(t) in seen <==> Seen(kept, t)
    ensures Remembers(seen + {Identity(t)}, kept + [t])
  {
    hide Identity, Corners, Proper;
    forall k | 0 <= k < |kept| ensures Identity(kept[k]) == Identity(t) <==> Corners(kept[k]) == Corners(t) { SameIdentity(kept[k], t); }
    var more := kept + [t];
    forall id ensures id in seen + {Identity(t)} <==> exists k :: 0 <= k < |more| && Identity(more[k]) == id {
      if id in seen { var k :| 0 <= k < |kept| && Identity(kept[k]) == id; assert Identity(more[k]) == id; }
      if id == Identity(t) { assert Identity(more[|kept|]) == id; }
    }
  }

  method KeepTriangles(ts: seq<Tri>, clusters: seq<nat>) returns (kept: seq<Tri>)
    requires InBounds(ts, |clusters|)
    ensures kept == Kept(Mapped(ts, clusters))
  {
    hide Seen, Identity, Remembers, MapTri, Corners;
    kept := [];
    var seen: set<(nat, nat, nat)> := {};
    ghost var mapped := Mapped(ts, clusters);
    NothingRemembered();
    var i := 0;
    while i < |ts|
      invariant 0 <= i <= |ts| && kept == Kept(mapped[..i]) && Remembers(seen, kept)
    {
      var t := MapTri(ts[i], clusters);
      assert mapped[..i + 1][..i] == mapped[..i] && mapped[..i + 1][i] == t;
      i := i + 1;
      if !Proper(t) { continue; }
      SeenIffRemembered(seen, kept, t);
      if Identity(t) in seen { continue; }
      seen := seen + {Identity(t)};
      kept := kept + [t];
    }
    assert mapped[..i] == mapped;
  }

  lemma NothingRemembered()
    ensures Remembers({}, [])
  {
  }

  method SimplifyVoxelMesh(mesh: Mesh, size: real) returns (r: Option<Mesh>)
    ensures r.Some? <==> size > 0.0 && InBounds(mesh.triangles, |mesh.vertices|)
    ensures r.Some? ==> r.value == Simplified(mesh, size)
  {
    if size <= 0.0 { return None; }
    var n := |mesh.vertices|;
    var t := 0;
    while t < |mesh.triangles|
      invariant 0 <= t <= |mesh.triangles| && InBounds(mesh.triangles[..t], n)
    {
      if mesh.triangles[t].a >= n || mesh.triangles[t].b >= n || mesh.triangles[t].c >= n { return None; }
      t := t + 1;
    }
    assert mesh.triangles[..t] == mesh.triangles;
    hide Cells, SumIn, CountIn, Kept, ClusterOf;
    CellsAre(mesh.vertices, size);
    var vertexToCluster, clusters := ClusterVertices(mesh.vertices, size);
    var vertices := [];
    var k := 0;
    while k < |clusters|
      invariant 0 <= k <= |clusters| && vertices == Means(mesh.vertices, size)[..k]
    {
      var sum, count := clusters[k].sum, clusters[k].count as real;
      vertices := vertices + [Vec(sum.x / count, sum.y / count, sum.z / count)];
      k := k + 1;
    }
    var triangles := KeepTriangles(mesh.triangles, vertexToCluster);
    return Some(Mesh(vertices, triangles));
  }
}
