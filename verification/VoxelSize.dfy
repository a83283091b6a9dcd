/** The choice of the voxel size, and how many cells it can leave. */
module VoxelSize {
  import opened Bytes
  import opened Reals
  import opened VoxelMesh
  import opened Counting

  const Target := 8.0
  const Finest := 64.0
  const Thin := 0.00000001

  function Axis(v: Vec, axis: nat): real
    requires axis < 3
  {
    if axis == 0 then v.x else if axis == 1 then v.y else v.z
  }

  function Lowest(vs: seq<Vec>, axis: nat): real
    requires vs != [] && axis < 3
  {
    var last := Axis(vs[|vs| - 1], axis);
    if |vs| == 1 then last else Min(Lowest(vs[..|vs| - 1], axis), last)
  }

  function Highest(vs: seq<Vec>, axis: nat): real
    requires vs != [] && axis < 3
  {
    var last := Axis(vs[|vs| - 1], axis);
    if |vs| == 1 then last else Max(Highest(vs[..|vs| - 1], axis), last)
  }

  function Extent(vs: seq<Vec>, axis: nat): real
    requires vs != [] && axis < 3
  {
    Highest(vs, axis) - Lowest(vs, axis)
  }

  function Longest(vs: seq<Vec>): real
    requires vs != []
  {
    Max(Max(Extent(vs, 0), Extent(vs, 1)), Extent(vs, 2))
  }

  lemma {:induction false} Bounds(vs: seq<Vec>, axis: nat, i: nat)
    requires vs != [] && axis < 3 && i < |vs|
    ensures Lowest(vs, axis) <= Axis(vs[i], axis) <= Highest(vs, axis)
    decreases |vs|
  {
    if i < |vs| - 1 {
      var front := vs[..|vs| - 1];
      assert front[i] == vs[i];
      Bounds(front, axis, i);
    } else if |vs| > 1 {
      Bounds(vs[..|vs| - 1], axis, 0);
    }
  }

  lemma ExtentIsLength(vs: seq<Vec>, axis: nat)
    requires vs != [] && axis < 3
    ensures 0.0 <= Extent(vs, axis) <= Longest(vs)
  {
    Bounds(vs, 0, 0); Bounds(vs, 1, 0); Bounds(vs, 2, 0);
  }

  /** The extent counts: it is not so small that the mesh is flat along this axis. */
  predicate Real(vs: seq<Vec>, axis: nat)
    requires vs != [] && axis < 3
  {
    Extent(vs, axis) > Longest(vs) * 0.00000001
  }

  /**
   * The size is what the policy asks for: no coarser than an eighth of the longest axis, two cells on every shorter axis that
   * counts, but never finer than a sixty-fourth; and it is the coarsest such size.
   */
  ghost predicate Fits(vs: seq<Vec>, size: real)
    requires vs != []
  {
    size <= Longest(vs) / 8.0 && forall axis :: 0 <= axis < 3 && Real(vs, axis) && Extent(vs, axis) < Longest(vs) / 8.0 ==> 2.0 * size <= Extent(vs, axis)
  }

  ghost predicate Chosen(vs: seq<Vec>, size: real)
    requires vs != []
  {
    && Longest(vs) / 64.0 <= size <= Longest(vs) / 8.0
    && (size > Longest(vs) / 64.0 ==> Fits(vs, size))
    && (forall other :: Fits(vs, other) ==> other <= size)
  }

  method ChooseVoxelSize(vs: seq<Vec>) returns (size: Option<real>)
    ensures size.Some? <==> vs != [] && Longest(vs) > 0.0
    ensures size.Some? ==> size.value > 0.0 && Chosen(vs, size.value)
  {
    if vs == [] { return None; }
    var min, max := vs[0], vs[0];
    var index := 0;
    while index < |vs|
      invariant 0 <= index <= |vs|
      invariant index == 0 ==> min == vs[0] && max == vs[0]
      invariant index > 0 ==> forall axis :: 0 <= axis < 3 ==> Axis(min, axis) == Lowest(vs[..index], axis) && Axis(max, axis) == Highest(vs[..index], axis)
    {
      var v := vs[index];
      assert vs[..index + 1][..index] == vs[..index];
      min := Vec(Min(min.x, v.x), Min(min.y, v.y), Min(min.z, v.z));
      max := Vec(Max(max.x, v.x), Max(max.y, v.y), Max(max.z, v.z));
      index := index + 1;
    }
    assert vs[..index] == vs;
    ghost var e0, e1, e2 := Extent(vs, 0), Extent(vs, 1), Extent(vs, 2);
    assert Axis(max, 0) - Axis(min, 0) == e0 && Axis(max, 1) - Axis(min, 1) == e1 && Axis(max, 2) - Axis(min, 2) == e2;
    var extents := [max.x - min.x, max.y - min.y, max.z - min.z];
    assert extents == [e0, e1, e2];
    var longest := Max(Max(extents[0], extents[1]), extents[2]);
    if !(longest > 0.0) { return None; }
    var fitted := FitTo(extents, longest);
    var finest := longest / Finest;
    assert longest == Longest(vs) && forall axis: nat :: axis < 3 ==> extents[axis] == Extent(vs, axis);
    IsChosen(vs, fitted);
    return Some(if fitted < finest then finest else fitted);
  }

  /** The coarsest size that gives two cells to every extent that counts and is shorter than an eighth of the longest. */
  method FitTo(extents: seq<real>, longest: real) returns (fitted: real)
    requires longest > 0.0 && longest in extents
    ensures 0.0 < fitted <= longest / Target
    ensures forall a :: 0 <= a < |extents| && extents[a] > longest * Thin && extents[a] < longest / Target ==> 2.0 * fitted <= extents[a]
    ensures fitted == longest / Target
      || exists a :: 0 <= a < |extents| && extents[a] > longest * Thin && extents[a] < longest / Target && extents[a] == 2.0 * fitted
  {
    var target := longest / Target;
    var shortest := longest;
    var a := 0;
    while a < |extents|
      invariant 0 <= a <= |extents| && longest * Thin < shortest && shortest in extents
      invariant forall b :: 0 <= b < a && extents[b] > longest * Thin ==> shortest <= extents[b]
    {
      if extents[a] > longest * Thin { shortest := Min(shortest, extents[a]); }
      a := a + 1;
    }
    fitted := if shortest < target then shortest / 2.0 else target;
  }

  lemma IsChosen(vs: seq<Vec>, fitted: real)
    requires vs != [] && Longest(vs) > 0.0 && 0.0 < fitted <= Longest(vs) / Target
    requires forall axis :: 0 <= axis < 3 && Real(vs, axis) && Extent(vs, axis) < Longest(vs) / Target ==> 2.0 * fitted <= Extent(vs, axis)
    requires fitted == Longest(vs) / Target
      || exists axis :: 0 <= axis < 3 && Real(vs, axis) && Extent(vs, axis) < Longest(vs) / Target && Extent(vs, axis) == 2.0 * fitted
    ensures Chosen(vs, if fitted < Longest(vs) / Finest then Longest(vs) / Finest else fitted)
  {
    hide Extent, Longest;
    forall other | Fits(vs, other) ensures other <= fitted {
      if fitted != Longest(vs) / Target {
        var axis :| 0 <= axis < 3 && Real(vs, axis) && Extent(vs, axis) < Longest(vs) / Target && Extent(vs, axis) == 2.0 * fitted;
        assert 2.0 * other <= Extent(vs, axis);
      }
    }
  }

  /* ---------- how many cells that leaves ---------- */

  const Most := 65

  /** A quotient by the size, compared with a bound. */
  lemma QuotientAtMost(x: real, size: real, bound: real)
    requires size > 0.0 && x <= bound * size
    ensures x / size <= bound
  {
    var q := x / size;
    assert q * size == x;
    if q > bound { ScaleLess(bound, q, size); }
  }

  lemma FloorSpan(x: real, low: real, size: real, extent: real)
    requires size > 0.0 && low <= x <= low + extent && extent <= Finest * size
    ensures (low / size).Floor <= (x / size).Floor < (low / size).Floor + Most
  {
    var a, b := low / size, x / size;
    assert a * size == low && b * size == x;
    QuotientAtMost(low, size, b);
    assert (a + Finest) * size == low + Finest * size;
    QuotientAtMost(x, size, a + Finest);
    FloorOrder(a, b);
  }

  lemma FloorOrder(a: real, b: real)
    requires a <= b <= a + Finest
    ensures a.Floor <= b.Floor < a.Floor + Most
  {
  }

  /** The number of a cell within the box that starts at the lowest. */
  function Rank(lo: Cell, c: Cell): int {
    ((c.i - lo.i) * Most + (c.j - lo.j)) * Most + (c.k - lo.k)
  }

  predicate InBox(lo: Cell, c: Cell) {
    0 <= c.i - lo.i < Most && 0 <= c.j - lo.j < Most && 0 <= c.k - lo.k < Most
  }

  lemma RankInjective(lo: Cell, c: Cell, d: Cell)
    requires InBox(lo, c) && InBox(lo, d)
    ensures 0 <= Rank(lo, c) < Most * Most * Most
    ensures Rank(lo, c) == Rank(lo, d) ==> c == d
  {
  }

  function Ranks(lo: Cell, cells: seq<Cell>): set<int> {
    if cells == [] then {} else Ranks(lo, cells[..|cells| - 1]) + {Rank(lo, cells[|cells| - 1])}
  }

  /** Distinct cells of the box have distinct ranks. */
  lemma {:induction false} RankAll(lo: Cell, cells: seq<Cell>)
    requires DistinctCells(cells) && forall c :: c in cells ==> InBox(lo, c)
    ensures |Ranks(lo, cells)| == |cells|
    ensures forall x :: x in Ranks(lo, cells) ==> 0 <= x < Most * Most * Most && exists c :: c in cells && Rank(lo, c) == x
    decreases |cells|
  {
    hide Rank, InBox;
    if cells != [] {
      var front, last := cells[..|cells| - 1], cells[|cells| - 1];
      RankAll(lo, front);
      assert last in cells;
      RankInjective(lo, last, last);
      if Rank(lo, last) in Ranks(lo, front) {
        var c :| c in front && Rank(lo, c) == Rank(lo, last);
        RankInjective(lo, c, last);
      }
      forall x | x in Ranks(lo, cells) ensures exists c :: c in cells && Rank(lo, c) == x {
        if x in Ranks(lo, front) { var c :| c in front && Rank(lo, c) == x; assert c in cells; }
      }
    }
  }

  function LowestCell(vs: seq<Vec>, size: real): Cell
    requires vs != [] && size > 0.0
  {
    CellOf(Vec(Lowest(vs, 0), Lowest(vs, 1), Lowest(vs, 2)), size)
  }

  lemma AllInBox(vs: seq<Vec>, size: real, i: nat)
    requires vs != [] && size > 0.0 && Longest(vs) <= Finest * size && i < |vs|
    ensures InBox(LowestCell(vs, size), CellOf(vs[i], size))
  {
    hide Longest, Lowest, Highest;
    var v := vs[i];
    Bounds(vs, 0, i); Bounds(vs, 1, i); Bounds(vs, 2, i);
    ExtentIsLength(vs, 0); ExtentIsLength(vs, 1); ExtentIsLength(vs, 2);
    FloorSpan(v.x, Lowest(vs, 0), size, Extent(vs, 0));
    FloorSpan(v.y, Lowest(vs, 1), size, Extent(vs, 1));
    FloorSpan(v.z, Lowest(vs, 2), size, Extent(vs, 2));
  }

  /** With the chosen size, or any that leaves sixty-four cells on the longest axis, the mesh keeps at most 65^3 vertices. */
  lemma FewVertices(mesh: Mesh, size: real)
    requires mesh.vertices != [] && size > 0.0 && InBounds(mesh.triangles, |mesh.vertices|) && Longest(mesh.vertices) <= Finest * size
    ensures |Simplified(mesh, size).vertices| <= Most * Most * Most
  {
    hide Longest, CellOf, LowestCell, InBox, Rank, Kept;
    var vs := mesh.vertices;
    var lo, cells := LowestCell(vs, size), Cells(vs, size);
    CellsAre(vs, size);
    forall c | c in cells ensures InBox(lo, c) {
      EveryCellOccurs(vs, size, c);
      var i :| 0 <= i < |vs| && CellOf(vs[i], size) == c;
      AllInBox(vs, size, i);
    }
    RankAll(lo, cells);
    RangeSize(Ranks(lo, cells), Most * Most * Most);
  }

  lemma ChosenLeavesFew(mesh: Mesh, size: real)
    requires mesh.vertices != [] && Longest(mesh.vertices) > 0.0 && Chosen(mesh.vertices, size) && InBounds(mesh.triangles, |mesh.vertices|)
    ensures size > 0.0 && |Simplified(mesh, size).vertices| <= Most * Most * Most
  {
    FewVertices(mesh, size);
  }
}
