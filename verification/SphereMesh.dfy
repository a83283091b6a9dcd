/** The generated sphere: rings of vertices between two poles, and why its triangles close up. */
module SphereMesh {
  import opened Surfaces
  import Bytes
  import opened Reals

  datatype Point = Top | On(ring: int, seg: int) | Bottom

  datatype Face = Cap(s: int) | Upper(r: int, s: int) | Lower(r: int, s: int) | Foot(s: int)

  /** A sphere of L segments around and R rings between the poles. */
  datatype Shape = Shape(L: int, R: int)

  predicate Fine(h: Shape) { h.L >= 3 && h.R >= 1 }

  function Next(h: Shape, s: int): int { if s + 1 == h.L then 0 else s + 1 }
  function Prev(h: Shape, s: int): int { if s == 0 then h.L - 1 else s - 1 }

  predicate HasFace(h: Shape, f: Face) {
    match f
    case Cap(s) => 0 <= s < h.L
    case Foot(s) => 0 <= s < h.L
    case Upper(r, s) => 0 <= r < h.R - 1 && 0 <= s < h.L
    case Lower(r, s) => 0 <= r < h.R - 1 && 0 <= s < h.L
  }

  predicate HasPoint(h: Shape, p: Point) {
    p.On? ==> 0 <= p.ring < h.R && 0 <= p.seg < h.L
  }

  /** The corners of a face along its winding; corner 3 is corner 0 again. */
  function Corner(h: Shape, f: Face, k: int): Point {
    match f
    case Cap(s) => if k == 1 then On(0, s) else if k == 2 then On(0, Next(h, s)) else Top
    case Upper(r, s) => if k == 1 then On(r + 1, s) else if k == 2 then On(r, Next(h, s)) else On(r, s)
    case Lower(r, s) => if k == 1 then On(r + 1, s) else if k == 2 then On(r + 1, Next(h, s)) else On(r, Next(h, s))
    case Foot(s) => if k == 1 then Bottom else if k == 2 then On(h.R - 1, Next(h, s)) else On(h.R - 1, s)
  }

  /** The face that passes from u to v, and the number of that edge on it. */
  function Owner(h: Shape, u: Point, v: Point): (Face, int) {
    if u.Top? then (Cap(if v.On? then v.seg else 0), 0)
    else if v.Top? then (Cap(if u.On? then Prev(h, u.seg) else 0), 2)
    else if u.Bottom? then (Foot(if v.On? then Prev(h, v.seg) else 0), 1)
    else if v.Bottom? then (Foot(u.seg), 0)
    else if u.ring == v.ring then
      if v.seg == Next(h, u.seg) then (if u.ring == 0 then (Cap(u.seg), 1) else (Lower(u.ring - 1, u.seg), 1))
      else (if u.ring < h.R - 1 then (Upper(u.ring, v.seg), 2) else (Foot(v.seg), 2))
    else if v.ring == u.ring + 1 then
      if v.seg == u.seg then (Upper(u.ring, u.seg), 0) else (Lower(u.ring, v.seg), 0)
    else
      if v.seg == u.seg then (Lower(v.ring, Prev(h, u.seg)), 2) else (Upper(v.ring, u.seg), 1)
  }

  /** A directed edge tells its face, so no two faces share one. */
  lemma OwnerOfEdge(h: Shape, f: Face, k: int)
    requires Fine(h) && HasFace(h, f) && 0 <= k < 3
    ensures Owner(h, Corner(h, f, k), Corner(h, f, k + 1)) == (f, k)
    ensures HasPoint(h, Corner(h, f, k)) && HasPoint(h, Corner(h, f, k + 1)) && Corner(h, f, k) != Corner(h, f, k + 1)
  {
  }

  /** The way back along an edge is an edge of another face. */
  lemma WayBack(h: Shape, f: Face, k: int)
    requires Fine(h) && HasFace(h, f) && 0 <= k < 3
    ensures var (g, l) := Owner(h, Corner(h, f, k + 1), Corner(h, f, k));
      HasFace(h, g) && 0 <= l < 3 && g != f && Corner(h, g, l) == Corner(h, f, k + 1) && Corner(h, g, l + 1) == Corner(h, f, k)
  {
  }

  /* ---------- numbering ---------- */

  function Index(h: Shape, p: Point): int {
    match p
    case Top => 0
    case On(ring, seg) => 1 + ring * h.L + seg
    case Bottom => 1 + h.R * h.L
  }

  function VertexCount(h: Shape): int { 2 + h.R * h.L }

  /** The number of quadrilaterals between the rings. */
  function Cells(h: Shape): int { (h.R - 1) * h.L }

  function FaceCount(h: Shape): int { 2 * h.L + 2 * Cells(h) }

  lemma DivMod(L: int, r: int, s: int)
    requires 0 <= s < L
    ensures (r * L + s) / L == r && (r * L + s) % L == s
  {
    assert r * L == L * r;
    Bytes.ModUnique(r * L + s, L, r, s);
  }

  lemma Below(L: int, R: int, r: int, s: int)
    requires 0 <= s < L && 0 <= r < R
    ensures 0 <= r * L + s < R * L
  {
    assert (R - 1 - r) * L >= 0;
    assert r * L + s == R * L - (R - 1 - r) * L - L + s;
  }

  lemma Quotient(L: int, R: int, x: int)
    requires 0 < L && 0 <= x < R * L
    ensures 0 <= x / L < R && 0 <= x % L < L && x == (x / L) * L + x % L
  {
    var q := x / L;
    assert q * L <= x < R * L;
    assert (R - q) * L > 0;
  }

  lemma IndexInjective(h: Shape, p: Point, q: Point)
    requires Fine(h) && HasPoint(h, p) && HasPoint(h, q) && Index(h, p) == Index(h, q)
    ensures p == q
  {
    if p.On? { Below(h.L, h.R, p.ring, p.seg); DivMod(h.L, p.ring, p.seg); }
    if q.On? { Below(h.L, h.R, q.ring, q.seg); DivMod(h.L, q.ring, q.seg); }
    assert h.R * h.L > 0;
  }

  lemma IndexBound(h: Shape, p: Point)
    requires Fine(h) && HasPoint(h, p)
    ensures 0 <= Index(h, p) < VertexCount(h)
  {
    if p.On? { Below(h.L, h.R, p.ring, p.seg); }
    assert h.R * h.L > 0;
  }

  /** The faces in the order they are generated. */
  function FaceAt(h: Shape, i: int): Face
    requires h.L > 0
  {
    if i < h.L then Cap(i)
    else if i < h.L + 2 * Cells(h) then
      var q := (i - h.L) / 2;
      if (i - h.L) % 2 == 0 then Upper(q / h.L, q % h.L) else Lower(q / h.L, q % h.L)
    else Foot(i - h.L - 2 * Cells(h))
  }

  function PlaceOf(h: Shape, f: Face): int {
    match f
    case Cap(s) => s
    case Upper(r, s) => h.L + 2 * (r * h.L + s)
    case Lower(r, s) => h.L + 2 * (r * h.L + s) + 1
    case Foot(s) => h.L + 2 * Cells(h) + s
  }

  lemma FaceHasPlace(h: Shape, i: int)
    requires Fine(h) && 0 <= i < FaceCount(h)
    ensures HasFace(h, FaceAt(h, i)) && PlaceOf(h, FaceAt(h, i)) == i
  {
    if h.L <= i < h.L + 2 * Cells(h) { Quotient(h.L, h.R - 1, (i - h.L) / 2); }
  }

  lemma PlaceHasFace(h: Shape, f: Face)
    requires Fine(h) && HasFace(h, f)
    ensures 0 <= PlaceOf(h, f) < FaceCount(h) && FaceAt(h, PlaceOf(h, f)) == f
  {
    hide Cells;
    CellsCount(h);
    if f.Upper? || f.Lower? {
      CellAt(h, f.r, f.s);
      Halves(f.r * h.L + f.s);
    }
  }

  lemma CellsCount(h: Shape)
    requires Fine(h)
    ensures Cells(h) >= 0
  {
  }

  lemma CellAt(h: Shape, r: int, s: int)
    requires Fine(h) && 0 <= r < h.R - 1 && 0 <= s < h.L
    ensures var x := r * h.L + s; 0 <= x < Cells(h) && x / h.L == r && x % h.L == s
  {
    Below(h.L, h.R - 1, r, s);
    DivMod(h.L, r, s);
  }

  lemma Halves(x: int)
    ensures 2 * x / 2 == x && 2 * x % 2 == 0 && (2 * x + 1) / 2 == x && (2 * x + 1) % 2 == 1
  {
  }

  function TriangleOf(h: Shape, f: Face): Triangle {
    Triangle(Index(h, Corner(h, f, 0)), Index(h, Corner(h, f, 1)), Index(h, Corner(h, f, 2)))
  }

  function SphereTriangles(h: Shape): (ts: seq<Triangle>)
    requires Fine(h)
  {
    assert Cells(h) >= 0;
    seq(FaceCount(h), i requires 0 <= i < FaceCount(h) => TriangleOf(h, FaceAt(h, i)))
  }

  lemma SphereEdge(h: Shape, i: int, k: int)
    requires Fine(h) && Slot(SphereTriangles(h), i, k)
    ensures EdgeOf(SphereTriangles(h)[i], k) == (Index(h, Corner(h, FaceAt(h, i), k)), Index(h, Corner(h, FaceAt(h, i), k + 1)))
  {
  }

  /* ---------- main results ---------- */

  lemma CornerInRange(h: Shape, i: int, k: int)
    requires Fine(h) && 0 <= i < FaceCount(h) && 0 <= k < 3
    ensures var f := FaceAt(h, i); 0 <= Index(h, Corner(h, f, k)) < VertexCount(h) && Index(h, Corner(h, f, k)) != Index(h, Corner(h, f, k + 1))
  {
    hide FaceAt, Index, Owner;
    var f := FaceAt(h, i);
    FaceHasPlace(h, i);
    OwnerOfEdge(h, f, k);
    IndexBound(h, Corner(h, f, k));
    if Index(h, Corner(h, f, k)) == Index(h, Corner(h, f, k + 1)) { IndexInjective(h, Corner(h, f, k), Corner(h, f, k + 1)); }
  }

  lemma SphereInRange(h: Shape)
    requires Fine(h)
    ensures InRange(SphereTriangles(h), VertexCount(h))
  {
    hide FaceAt, Index;
    forall i | 0 <= i < FaceCount(h) ensures Corners(SphereTriangles(h)[i], VertexCount(h)) {
      CornerInRange(h, i, 0); CornerInRange(h, i, 1); CornerInRange(h, i, 2);
    }
  }

  lemma SameEdge(h: Shape, i: int, k: int, j: int, l: int)
    requires Fine(h) && Slot(SphereTriangles(h), i, k) && Slot(SphereTriangles(h), j, l)
    requires EdgeOf(SphereTriangles(h)[i], k) == EdgeOf(SphereTriangles(h)[j], l)
    ensures i == j && k == l
  {
    hide FaceAt, Corner, Owner, Index;
    var f, g := FaceAt(h, i), FaceAt(h, j);
    FaceHasPlace(h, i); FaceHasPlace(h, j);
    SphereEdge(h, i, k); SphereEdge(h, j, l);
    OwnerOfEdge(h, f, k); OwnerOfEdge(h, g, l);
    IndexInjective(h, Corner(h, f, k), Corner(h, g, l));
    IndexInjective(h, Corner(h, f, k + 1), Corner(h, g, l + 1));
  }

  lemma FlipIsThere(h: Shape, e: Edge)
    requires Fine(h) && e in Edges(SphereTriangles(h))
    ensures Flip(e) in Edges(SphereTriangles(h))
  {
    var ts := SphereTriangles(h);
    var i, k :| 0 <= i < |ts| && 0 <= k < 3 && e == EdgeOf(ts[i], k);
    var f := FaceAt(h, i);
    FaceHasPlace(h, i);
    SphereEdge(h, i, k);
    WayBack(h, f, k);
    var (g, l) := Owner(h, Corner(h, f, k + 1), Corner(h, f, k));
    PlaceHasFace(h, g);
    SphereEdge(h, PlaceOf(h, g), l);
    assert EdgeOf(ts[PlaceOf(h, g)], l) == Flip(e);
  }

  /**
   * For every number of segments and rings: corners are distinct and in range, each directed edge is used exactly once, and so
   * is its reverse.
   */
  lemma SphereIsClosed(h: Shape)
    requires Fine(h)
    ensures InRange(SphereTriangles(h), VertexCount(h)) && UsedOnce(SphereTriangles(h)) && Paired(SphereTriangles(h))
  {
    hide SphereTriangles;
    SphereInRange(h);
    var ts := SphereTriangles(h);
    forall i, k, j, l | Slot(ts, i, k) && Slot(ts, j, l) && EdgeOf(ts[i], k) == EdgeOf(ts[j], l) ensures i == j && k == l {
      SameEdge(h, i, k, j, l);
    }
    forall e | e in Edges(ts) ensures Flip(e) in Edges(ts) { FlipIsThere(h, e); }
  }

  /** Every vertex but the first is joined to one with a smaller number, so the surface is connected and uses every vertex. */
  lemma SphereIsConnected(h: Shape, v: int)
    requires Fine(h) && 0 < v < VertexCount(h)
    ensures exists u :: 0 <= u < v && (v, u) in Edges(SphereTriangles(h))
  {
    hide SphereTriangles;
    var p, q := PointBelow(h, v);
    var (f, k) := Owner(h, p, q);
    PlaceHasFace(h, f);
    LengthIs(h);
    SphereEdge(h, PlaceOf(h, f), k);
    assert (v, Index(h, q)) in Edges(SphereTriangles(h));
  }

  lemma LengthIs(h: Shape)
    requires Fine(h)
    ensures |SphereTriangles(h)| == FaceCount(h)
  {
  }

  /** The vertex with number v, and a neighbour of it one ring up, to which an edge leads. */
  lemma PointBelow(h: Shape, v: int) returns (p: Point, q: Point)
    requires Fine(h) && 0 < v < VertexCount(h)
    ensures HasPoint(h, p) && Index(h, p) == v && 0 <= Index(h, q) < v
    ensures var (f, k) := Owner(h, p, q); HasFace(h, f) && 0 <= k < 3 && Corner(h, f, k) == p && Corner(h, f, k + 1) == q
  {
    if v == VertexCount(h) - 1 {
      p, q := Bottom, On(h.R - 1, 0);
      Below(h.L, h.R, h.R - 1, 0);
    } else {
      Quotient(h.L, h.R, v - 1);
      p := On((v - 1) / h.L, (v - 1) % h.L);
      q := if p.ring == 0 then Top else On(p.ring - 1, p.seg);
      if p.ring > 0 { RingUp(h, p.ring, p.seg); }
    }
  }

  lemma RingUp(h: Shape, r: int, s: int)
    requires Fine(h) && 0 < r < h.R && 0 <= s < h.L
    ensures 0 <= Index(h, On(r - 1, s)) < Index(h, On(r, s))
  {
    Below(h.L, h.R, r - 1, s);
    assert (r - 1) * h.L == r * h.L - h.L;
  }

  /** Vertices less edges plus triangles make two. */
  lemma SphereEuler(h: Shape)
    requires Fine(h)
    ensures VertexCount(h) - |Undirected(SphereTriangles(h))| + |SphereTriangles(h)| == 2
  {
    hide UsedOnce, Paired, InRange, Undirected;
    SphereIsClosed(h);
    CountUndirected(SphereTriangles(h), VertexCount(h));
    assert Cells(h) == h.R * h.L - h.L;
  }

  /* ---------- generation ---------- */

  /** The circle functions, and what is taken for pi. */
  datatype Circle = Circle(sin: real -> real, cos: real -> real, pi: real)

  function OnRing(circle: Circle, radius: real, phi: real, theta: real): Vec {
    Vec(radius * circle.sin(phi) * circle.cos(theta), radius * circle.cos(phi), radius * circle.sin(phi) * circle.sin(theta))
  }

  function Phi(h: Shape, circle: Circle, ring: int): real
    requires Fine(h)
  {
    circle.pi * (ring + 1) as real / (h.R + 1) as real
  }

  function Theta(h: Shape, circle: Circle, seg: int): real
    requires Fine(h)
  {
    circle.pi * 2.0 * seg as real / h.L as real
  }

  function Position(h: Shape, circle: Circle, radius: real, p: Point): Vec
    requires Fine(h)
  {
    match p
    case Top => Vec(0.0, radius, 0.0)
    case Bottom => Vec(0.0, -radius, 0.0)
    case On(ring, seg) =>
      OnRing(circle, radius, Phi(h, circle, ring), Theta(h, circle, seg))
  }

  /** Every vertex lies on the sphere. */
  lemma OnTheSphere(h: Shape, circle: Circle, radius: real, p: Point)
    requires Fine(h) && forall x :: circle.sin(x) * circle.sin(x) + circle.cos(x) * circle.cos(x) == 1.0
    ensures var v := Position(h, circle, radius, p); v.x * v.x + v.y * v.y + v.z * v.z == radius * radius
  {
    if p.On? {
      var phi, theta := Phi(h, circle, p.ring), Theta(h, circle, p.seg);
      OnCircle(radius, circle.sin(phi), circle.cos(phi), circle.sin(theta), circle.cos(theta));
    }
  }

  lemma OnCircle(r: real, sp: real, cp: real, st: real, ct: real)
    requires sp * sp + cp * cp == 1.0 && st * st + ct * ct == 1.0
    ensures r * sp * ct * (r * sp * ct) + r * cp * (r * cp) + r * sp * st * (r * sp * st) == r * r
  {
    var q := r * sp;
    assert q * ct * (q * ct) + q * st * (q * st) == q * q * (st * st + ct * ct);
    assert q * q + r * cp * (r * cp) == r * r * (sp * sp + cp * cp);
  }

  method MeshSphere(circle: Circle, radius: real, longitude: int, latitude: int) returns (vertices: seq<Vec>, triangles: seq<Triangle>)
    requires longitude >= 3 && latitude >= 2
    ensures var h := Shape(longitude, latitude - 1);
      && |vertices| == VertexCount(h) && triangles == SphereTriangles(h)
      && forall p :: HasPoint(h, p) ==> 0 <= Index(h, p) < |vertices| && vertices[Index(h, p)] == Position(h, circle, radius, p)
  {
    ghost var h := Shape(longitude, latitude - 1);
    var bottom;
    vertices, bottom := SphereVertices(h, circle, radius, longitude, latitude);
    triangles := SphereFaces(h, longitude, latitude, bottom);
  }

  /** The top, the rings below it and the bottom. */
  method SphereVertices(ghost h: Shape, circle: Circle, radius: real, longitude: int, latitude: int) returns (vertices: seq<Vec>, bottom: int)
    requires longitude >= 3 && latitude >= 2 && h == Shape(longitude, latitude - 1)
    ensures |vertices| == VertexCount(h) && bottom == Index(h, Bottom)
    ensures forall p :: HasPoint(h, p) ==> 0 <= Index(h, p) < |vertices| && vertices[Index(h, p)] == Position(h, circle, radius, p)
  {
    hide Position, RingsDone, Index, VertexCount;
    vertices := [Vec(0.0, radius, 0.0)];
    Poles(h, circle, radius);
    NoRings(h, circle, radius, vertices);
    var ring := 1;
    while ring < latitude
      invariant 1 <= ring <= latitude
      invariant |vertices| == 1 + (ring - 1) * longitude
      invariant vertices[0] == Position(h, circle, radius, Top)
      invariant RingsDone(h, circle, radius, vertices, ring - 1, 0)
    {
      var phi := circle.pi * ring as real / latitude as real;
      var segment := 0;
      while segment < longitude
        invariant 0 <= segment <= longitude
        invariant |vertices| == 1 + (ring - 1) * longitude + segment
        invariant |vertices| > 0 && vertices[0] == Position(h, circle, radius, Top)
        invariant RingsDone(h, circle, radius, vertices, ring - 1, segment)
      {
        var theta := circle.pi * 2.0 * segment as real / longitude as real;
        ghost var was := vertices;
        RingPoint(h, circle, radius, ring, segment, phi, theta);
        vertices := vertices + [OnRing(circle, radius, phi, theta)];
        OneMore(h, circle, radius, was, vertices, ring - 1, segment);
        segment := segment + 1;
      }
      assert ring * longitude == (ring - 1) * longitude + longitude;
      NextRing(h, circle, radius, vertices, ring - 1);
      ring := ring + 1;
    }
    bottom := |vertices|;
    vertices := vertices + [Vec(0.0, -radius, 0.0)];
    WithBottom(h, circle, radius, vertices);
  }

  lemma Poles(h: Shape, circle: Circle, radius: real)
    requires Fine(h)
    ensures Position(h, circle, radius, Top) == Vec(0.0, radius, 0.0) && Position(h, circle, radius, Bottom) == Vec(0.0, -radius, 0.0)
  {
  }

  lemma NoRings(h: Shape, circle: Circle, radius: real, vertices: seq<Vec>)
    requires Fine(h)
    ensures RingsDone(h, circle, radius, vertices, 0, 0)
  {
  }

  lemma RingPoint(h: Shape, circle: Circle, radius: real, ring: int, segment: int, phi: real, theta: real)
    requires Fine(h) && 1 <= ring <= h.R && 0 <= segment < h.L
    requires phi == circle.pi * ring as real / (h.R + 1) as real && theta == circle.pi * 2.0 * segment as real / h.L as real
    ensures Position(h, circle, radius, On(ring - 1, segment)) == OnRing(circle, radius, phi, theta)
  {
    var p := On(ring - 1, segment);
    assert p.ring + 1 == ring;
    assert Phi(h, circle, p.ring) == phi && Theta(h, circle, p.seg) == theta;
  }

  lemma WithBottom(h: Shape, circle: Circle, radius: real, vertices: seq<Vec>)
    requires Fine(h) && |vertices| == 2 + h.R * h.L && vertices[0] == Position(h, circle, radius, Top)
    requires RingsDone(h, circle, radius, vertices[..1 + h.R * h.L], h.R, 0)
    requires vertices[1 + h.R * h.L] == Position(h, circle, radius, Bottom)
    ensures |vertices| == VertexCount(h) && Index(h, Bottom) == |vertices| - 1
    ensures forall p :: HasPoint(h, p) ==> 0 <= Index(h, p) < |vertices| && vertices[Index(h, p)] == Position(h, circle, radius, p)
  {
    hide Position;
    forall p | HasPoint(h, p) ensures 0 <= Index(h, p) < |vertices| && vertices[Index(h, p)] == Position(h, circle, radius, p) {
      IndexBound(h, p);
      if p.On? { Below(h.L, h.R, p.ring, p.seg); }
    }
  }

  /** The vertices of the first rings, and of the ring after them the first few, are where they belong. */
  ghost predicate RingsDone(h: Shape, circle: Circle, radius: real, vertices: seq<Vec>, rings: int, segments: int)
    requires Fine(h)
  {
    forall r, s :: 0 <= s < h.L && 0 <= r && (r < rings || (r == rings && s < segments)) ==>
      0 <= Index(h, On(r, s)) < |vertices| && vertices[Index(h, On(r, s))] == Position(h, circle, radius, On(r, s))
  }

  lemma OneMore(h: Shape, circle: Circle, radius: real, was: seq<Vec>, vertices: seq<Vec>, rings: int, segments: int)
    requires Fine(h) && 0 <= rings && 0 <= segments < h.L && |was| == 1 + rings * h.L + segments
    requires RingsDone(h, circle, radius, was, rings, segments)
    requires vertices == was + [Position(h, circle, radius, On(rings, segments))]
    ensures RingsDone(h, circle, radius, vertices, rings, segments + 1)
  {
    assert Index(h, On(rings, segments)) == |was|;
    assert forall i :: 0 <= i < |was| ==> vertices[i] == was[i];
    hide Position, Index;
  }

  lemma NextRing(h: Shape, circle: Circle, radius: real, vertices: seq<Vec>, rings: int)
    requires Fine(h) && RingsDone(h, circle, radius, vertices, rings, h.L)
    ensures RingsDone(h, circle, radius, vertices, rings + 1, 0)
  {
    hide Position, Index;
  }

  /** The caps, the strips between the rings and the foot, in this order. */
  method SphereFaces(ghost h: Shape, longitude: int, latitude: int, bottom: int) returns (triangles: seq<Triangle>)
    requires longitude >= 3 && latitude >= 2 && h == Shape(longitude, latitude - 1) && bottom == Index(h, Bottom)
    ensures triangles == SphereTriangles(h)
  {
    hide Begins, PlaceOf, TriangleOf, SphereTriangles;
    triangles := [];
    Start(h);
    var segment := 0;
    while segment < longitude
      invariant 0 <= segment <= longitude && Begins(h, triangles, PlaceOf(h, Cap(segment)))
    {
      Rim(h, segment);
      Grows(h, triangles, Cap(segment));
      triangles := triangles + [Triangle(0, 1 + segment, 1 + (segment + 1) % longitude)];
      segment := segment + 1;
    }
    var ring := 0;
    while ring < latitude - 2
      invariant 0 <= ring <= latitude - 2 && Begins(h, triangles, PlaceOf(h, Upper(ring, 0)))
    {
      segment := 0;
      while segment < longitude
        invariant 0 <= segment <= longitude && Begins(h, triangles, PlaceOf(h, Upper(ring, segment)))
      {
        var a := 1 + ring * longitude + segment;
        var b := 1 + ring * longitude + (segment + 1) % longitude;
        var c := a + longitude;
        var d := b + longitude;
        Strip(h, ring, segment);
        Grows(h, triangles, Upper(ring, segment));
        Grows(h, triangles + [Triangle(a, c, b)], Lower(ring, segment));
        assert triangles + [Triangle(a, c, b), Triangle(b, c, d)] == triangles + [Triangle(a, c, b)] + [Triangle(b, c, d)];
        triangles := triangles + [Triangle(a, c, b), Triangle(b, c, d)];
        segment := segment + 1;
      }
      RingEnds(h, ring);
      ring := ring + 1;
    }
    var start := 1 + (latitude - 2) * longitude;
    segment := 0;
    while segment < longitude
      invariant 0 <= segment <= longitude && Begins(h, triangles, PlaceOf(h, Foot(segment)))
    {
      Rim(h, segment);
      Grows(h, triangles, Foot(segment));
      triangles := triangles + [Triangle(start + segment, bottom, start + (segment + 1) % longitude)];
      segment := segment + 1;
    }
    AllThere(h, triangles);
  }

  predicate Begins(h: Shape, ts: seq<Triangle>, n: int)
    requires Fine(h)
  {
    0 <= n <= |SphereTriangles(h)| && ts == SphereTriangles(h)[..n]
  }

  lemma Start(h: Shape)
    requires Fine(h)
    ensures Begins(h, [], PlaceOf(h, Cap(0)))
    ensures PlaceOf(h, Cap(h.L)) == PlaceOf(h, Upper(0, 0)) && PlaceOf(h, Upper(h.R - 1, 0)) == PlaceOf(h, Foot(0))
  {
    assert (h.R - 1) * h.L + 0 == Cells(h);
  }

  /** The next triangle of the list is the one at the place of f. */
  lemma Grows(h: Shape, ts: seq<Triangle>, f: Face)
    requires Fine(h) && HasFace(h, f) && Begins(h, ts, PlaceOf(h, f))
    ensures Begins(h, ts + [TriangleOf(h, f)], PlaceOf(h, f) + 1)
  {
    PlaceHasFace(h, f);
    assert SphereTriangles(h)[PlaceOf(h, f)] == TriangleOf(h, f);
  }

  lemma Rim(h: Shape, s: int)
    requires Fine(h) && 0 <= s < h.L
    ensures PlaceOf(h, Cap(s + 1)) == PlaceOf(h, Cap(s)) + 1 && PlaceOf(h, Foot(s + 1)) == PlaceOf(h, Foot(s)) + 1
    ensures TriangleOf(h, Cap(s)) == Triangle(0, 1 + s, 1 + (s + 1) % h.L)
    ensures var start := 1 + (h.R - 1) * h.L; TriangleOf(h, Foot(s)) == Triangle(start + s, Index(h, Bottom), start + (s + 1) % h.L)
  {
    hide Next, Cells;
    NextIsMod(h, s);
  }

  lemma NextIsMod(h: Shape, s: int)
    requires Fine(h) && 0 <= s < h.L
    ensures Next(h, s) == (s + 1) % h.L
  {
  }

  lemma Strip(h: Shape, r: int, s: int)
    requires Fine(h) && 0 <= s < h.L
    ensures PlaceOf(h, Lower(r, s)) == PlaceOf(h, Upper(r, s)) + 1 && PlaceOf(h, Upper(r, s + 1)) == PlaceOf(h, Lower(r, s)) + 1
    ensures var a := 1 + r * h.L + s; var b := 1 + r * h.L + (s + 1) % h.L;
      TriangleOf(h, Upper(r, s)) == Triangle(a, a + h.L, b) && TriangleOf(h, Lower(r, s)) == Triangle(b, a + h.L, b + h.L)
  {
    hide Next;
    NextIsMod(h, s);
    assert (r + 1) * h.L == r * h.L + h.L;
  }

  lemma RingEnds(h: Shape, r: int)
    requires Fine(h)
    ensures PlaceOf(h, Upper(r, h.L)) == PlaceOf(h, Upper(r + 1, 0))
  {
    assert (r + 1) * h.L == r * h.L + h.L;
  }

  lemma AllThere(h: Shape, ts: seq<Triangle>)
    requires Fine(h) && Begins(h, ts, PlaceOf(h, Foot(h.L)))
    ensures ts == SphereTriangles(h)
  {
    assert PlaceOf(h, Foot(h.L)) == |SphereTriangles(h)|;
  }
}
