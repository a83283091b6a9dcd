/** The generated cylinder: every edge belongs to exactly two triangles, but the caps wind against the wall. */
module CylinderMesh {
  import opened Surfaces

  datatype Point = Low(seg: int) | High(seg: int) | Foot | Head

  /** The two triangles of the wall, and those of the lower and the upper cap, at one segment. */
  datatype Kind = WallA | WallB | CapLow | CapHigh
  datatype Face = Face(kind: Kind, s: int)

  function Next(n: int, s: int): int { if s + 1 == n then 0 else s + 1 }
  function Prev(n: int, s: int): int { if s == 0 then n - 1 else s - 1 }

  predicate HasFace(n: int, f: Face) { 0 <= f.s < n }

  predicate HasPoint(n: int, p: Point) { (p.Low? || p.High?) ==> 0 <= p.seg < n }

  function Corner(n: int, f: Face, k: int): Point {
    match f.kind
    case WallA => if k == 1 then High(f.s) else if k == 2 then Low(Next(n, f.s)) else Low(f.s)
    case WallB => if k == 1 then High(f.s) else if k == 2 then High(Next(n, f.s)) else Low(Next(n, f.s))
    case CapLow => if k == 1 then Low(Next(n, f.s)) else if k == 2 then Low(f.s) else Foot
    case CapHigh => if k == 1 then High(f.s) else if k == 2 then High(Next(n, f.s)) else Head
  }

  /** The other face at the k-th edge of f, and the number of that edge there. */
  function Mate(n: int, f: Face, k: int): (Face, int) {
    match f.kind
    case WallA => if k == 0 then (Face(WallB, Prev(n, f.s)), 2) else if k == 1 then (Face(WallB, f.s), 0) else (Face(CapLow, f.s), 1)
    case WallB => if k == 0 then (Face(WallA, f.s), 1) else if k == 1 then (Face(CapHigh, f.s), 1) else (Face(WallA, Next(n, f.s)), 0)
    case CapLow => if k == 0 then (Face(CapLow, Next(n, f.s)), 2) else if k == 1 then (Face(WallA, f.s), 2) else (Face(CapLow, Prev(n, f.s)), 0)
    case CapHigh => if k == 0 then (Face(CapHigh, Prev(n, f.s)), 2) else if k == 1 then (Face(WallB, f.s), 1) else (Face(CapHigh, Next(n, f.s)), 0)
  }

  predicate Same<T(==)>(u: T, v: T, u': T, v': T) { (u == u' && v == v') || (u == v' && v == u') }

  predicate SharesEdge(n: int, f: Face, k: int, g: Face, l: int) {
    Same(Corner(n, f, k), Corner(n, f, k + 1), Corner(n, g, l), Corner(n, g, l + 1))
  }

  /** At each edge there are the face itself and its mate, and no third. */
  lemma TwoFaces(n: int, f: Face, k: int, g: Face, l: int)
    requires n >= 3 && HasFace(n, f) && HasFace(n, g) && 0 <= k < 3 && 0 <= l < 3
    ensures SharesEdge(n, f, k, g, l) <==> (g, l) == (f, k) || (g, l) == Mate(n, f, k)
    ensures HasFace(n, Mate(n, f, k).0) && 0 <= Mate(n, f, k).1 < 3 && Mate(n, f, k).0 != f
  {
  }

  /** The edge runs around one of the rims. */
  predicate OnRim(u: Point, v: Point) {
    (u.Low? && v.Low?) || (u.High? && v.High?)
  }

  /** The two faces at an edge pass it in the same direction exactly if the edge is on a rim. */
  lemma SameWayOnRims(n: int, f: Face, k: int)
    requires n >= 3 && HasFace(n, f) && 0 <= k < 3
    ensures var (g, l) := Mate(n, f, k);
      Corner(n, g, l) == Corner(n, f, k) && Corner(n, g, l + 1) == Corner(n, f, k + 1) <==> OnRim(Corner(n, f, k), Corner(n, f, k + 1))
  {
  }

  /* ---------- numbering ---------- */

  function Index(n: int, p: Point): int {
    match p
    case Low(seg) => seg
    case High(seg) => n + seg
    case Foot => 2 * n
    case Head => 2 * n + 1
  }

  function VertexCount(n: int): int { 2 * n + 2 }

  lemma CornerHasPoint(n: int, f: Face, k: int)
    requires n >= 3 && HasFace(n, f) && 0 <= k < 3
    ensures HasPoint(n, Corner(n, f, k)) && HasPoint(n, Corner(n, f, k + 1)) && Corner(n, f, k) != Corner(n, f, k + 1)
  {
  }

  lemma IndexInjective(n: int, p: Point, q: Point)
    requires n >= 3 && HasPoint(n, p) && HasPoint(n, q)
    ensures Index(n, p) == Index(n, q) <==> p == q
    ensures 0 <= Index(n, p) < VertexCount(n)
  {
  }

  function FaceAt(i: int): Face {
    Face(if i % 4 == 0 then WallA else if i % 4 == 1 then WallB else if i % 4 == 2 then CapLow else CapHigh, i / 4)
  }

  function PlaceOf(f: Face): int {
    4 * f.s + (match f.kind case WallA => 0 case WallB => 1 case CapLow => 2 case CapHigh => 3)
  }

  lemma Places(n: int, i: int, f: Face)
    requires n >= 3
    ensures 0 <= i < 4 * n ==> HasFace(n, FaceAt(i)) && PlaceOf(FaceAt(i)) == i
    ensures HasFace(n, f) ==> 0 <= PlaceOf(f) < 4 * n && FaceAt(PlaceOf(f)) == f
  {
  }

  function TriangleOf(n: int, f: Face): Triangle {
    Triangle(Index(n, Corner(n, f, 0)), Index(n, Corner(n, f, 1)), Index(n, Corner(n, f, 2)))
  }

  function CylinderTriangles(n: int): seq<Triangle>
    requires n >= 3
  {
    seq(4 * n, i requires 0 <= i < 4 * n => TriangleOf(n, FaceAt(i)))
  }

  lemma CylinderEdge(n: int, i: int, k: int)
    requires n >= 3 && Slot(CylinderTriangles(n), i, k)
    ensures EdgeOf(CylinderTriangles(n)[i], k) == (Index(n, Corner(n, FaceAt(i), k)), Index(n, Corner(n, FaceAt(i), k + 1)))
  {
  }

  /** The undirected edges are the same. */
  predicate SameLine(ts: seq<Triangle>, i: int, k: int, j: int, l: int)
    requires Slot(ts, i, k) && Slot(ts, j, l)
  {
    var e, d := EdgeOf(ts[i], k), EdgeOf(ts[j], l);
    Same(e.0, e.1, d.0, d.1)
  }

  lemma LinesAreEdges(n: int, i: int, k: int, j: int, l: int)
    requires n >= 3 && Slot(CylinderTriangles(n), i, k) && Slot(CylinderTriangles(n), j, l)
    ensures SameLine(CylinderTriangles(n), i, k, j, l) <==> SharesEdge(n, FaceAt(i), k, FaceAt(j), l)
  {
    hide Corner, Index, FaceAt, CylinderTriangles;
    var f, g := FaceAt(i), FaceAt(j);
    LengthIs(n);
    Places(n, i, f); Places(n, j, g);
    CylinderEdge(n, i, k); CylinderEdge(n, j, l);
    CornerHasPoint(n, f, k); CornerHasPoint(n, g, l);
    IndexInjective(n, Corner(n, f, k), Corner(n, g, l));
    IndexInjective(n, Corner(n, f, k), Corner(n, g, l + 1));
    IndexInjective(n, Corner(n, f, k + 1), Corner(n, g, l));
    IndexInjective(n, Corner(n, f, k + 1), Corner(n, g, l + 1));
  }

  lemma LengthIs(n: int)
    requires n >= 3
    ensures |CylinderTriangles(n)| == 4 * n
  {
  }

  /* ---------- main results ---------- */

  lemma CylinderInRange(n: int)
    requires n >= 3
    ensures InRange(CylinderTriangles(n), VertexCount(n))
  {
    forall i | 0 <= i < 4 * n ensures Corners(CylinderTriangles(n)[i], VertexCount(n)) { Places(n, i, Face(WallA, 0)); }
  }

  /** The number of the edge, in the list of triangles, that the k-th edge of triangle i coincides with. */
  function MateAt(n: int, i: int, k: int): (int, int) {
    var (g, l) := Mate(n, FaceAt(i), k); (PlaceOf(g), l)
  }

  /** For every number of segments each undirected edge lies in exactly two triangles. */
  lemma TwoTrianglesPerEdge(n: int, i: int, k: int)
    requires n >= 3 && Slot(CylinderTriangles(n), i, k)
    ensures var (m, o) := MateAt(n, i, k);
      && m != i && Slot(CylinderTriangles(n), m, o)
      && forall j, l | Slot(CylinderTriangles(n), j, l) :: SameLine(CylinderTriangles(n), i, k, j, l) <==> (j, l) == (i, k) || (j, l) == (m, o)
  {
    hide Corner, Index, FaceAt, PlaceOf, Mate, CylinderTriangles, SameLine, SharesEdge;
    LengthIs(n);
    var f := FaceAt(i);
    var (g, o) := Mate(n, f, k);
    Places(n, i, f);
    TwoFaces(n, f, k, f, k);
    Places(n, i, g);
    forall j, l | Slot(CylinderTriangles(n), j, l)
      ensures SameLine(CylinderTriangles(n), i, k, j, l) <==> (j, l) == (i, k) || (j, l) == MateAt(n, i, k)
    {
      Places(n, j, f);
      LinesAreEdges(n, i, k, j, l);
      TwoFaces(n, f, k, FaceAt(j), l);
    }
  }

  /** So the surface is never consistently oriented: the two triangles at a rim edge pass it in the same direction. */
  lemma CapsWindAgainstTheWall(n: int, i: int, k: int)
    requires n >= 3 && Slot(CylinderTriangles(n), i, k)
    ensures var ts := CylinderTriangles(n); var (m, o) := MateAt(n, i, k);
      Slot(ts, m, o) && (EdgeOf(ts[m], o) == EdgeOf(ts[i], k) <==> OnRim(Corner(n, FaceAt(i), k), Corner(n, FaceAt(i), k + 1)))
  {
    hide Corner, Index, FaceAt, PlaceOf, Mate, CylinderTriangles, OnRim;
    LengthIs(n);
    var f := FaceAt(i);
    var (g, o) := Mate(n, f, k);
    Places(n, i, f);
    TwoFaces(n, f, k, f, k);
    Places(n, i, g);
    SameWayOnRims(n, f, k);
    CylinderEdge(n, i, k); CylinderEdge(n, PlaceOf(g), o);
    CornerHasPoint(n, f, k); CornerHasPoint(n, g, o);
    IndexInjective(n, Corner(n, f, k), Corner(n, g, o));
    IndexInjective(n, Corner(n, f, k + 1), Corner(n, g, o + 1));
  }

  lemma NotOriented(n: int)
    requires n >= 3
    ensures !UsedOnce(CylinderTriangles(n))
  {
    var ts := CylinderTriangles(n);
    assert Slot(ts, 0, 2) && Slot(ts, 2, 1);
    assert EdgeOf(ts[0], 2) == EdgeOf(ts[2], 1);
  }

  /* ---------- generation ---------- */

  method CylinderFaces(radial: int) returns (triangles: seq<Triangle>)
    requires radial >= 3
    ensures triangles == CylinderTriangles(radial)
  {
    var bottom, top := 2 * radial, 2 * radial + 1;
    ghost var all := CylinderTriangles(radial);
    triangles := [];
    var segment := 0;
    while segment < radial
      invariant 0 <= segment <= radial && triangles == all[..4 * segment]
    {
      var next := (segment + 1) % radial;
      SegmentFaces(radial, segment);
      triangles := triangles + [Triangle(segment, radial + segment, next), Triangle(next, radial + segment, radial + next)];
      triangles := triangles + [Triangle(bottom, next, segment), Triangle(top, radial + segment, radial + next)];
      segment := segment + 1;
    }
  }

  lemma SegmentFaces(n: int, s: int)
    requires n >= 3 && 0 <= s < n
    ensures var next := (s + 1) % n; var all := CylinderTriangles(n);
      && all[4 * s] == Triangle(s, n + s, next) && all[4 * s + 1] == Triangle(next, n + s, n + next)
      && all[4 * s + 2] == Triangle(2 * n, next, s) && all[4 * s + 3] == Triangle(2 * n + 1, n + s, n + next)
  {
    assert (s + 1) % n == Next(n, s);
  }
}
