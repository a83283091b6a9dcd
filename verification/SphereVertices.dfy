/** Where the vertices of a generated sphere lie: in rings from the top down, all at different places. */
module SphereVertices {
  import opened Reals
  import opened SphereMesh

  /** What is used of the circle functions. */
  ghost predicate Round(c: Circle) {
    && c.pi > 0.0 && c.cos(0.0) == 1.0 && c.cos(c.pi) == -1.0
    && (forall x, y :: 0.0 <= x < y <= c.pi ==> c.cos(x) > c.cos(y))
    && (forall x :: 0.0 < x < c.pi ==> c.sin(x) > 0.0)
    && (forall x, y :: 0.0 <= x < 2.0 * c.pi && 0.0 <= y < 2.0 * c.pi && c.cos(x) == c.cos(y) && c.sin(x) == c.sin(y) ==> x == y)
  }

  /** A share of a whole. */
  function Share(whole: real, i: int, n: int): real
    requires n > 0
  {
    whole * i as real / n as real
  }

  lemma Shares(whole: real, i: int, j: int, n: int)
    requires whole > 0.0 && n > 0 && i < j
    ensures Share(whole, i, n) < Share(whole, j, n)
  {
    assert whole * (j as real - i as real) > 0.0;
    Divided(whole * i as real, whole * j as real, n as real);
  }

  lemma Divided(x: real, y: real, n: real)
    requires x < y && n > 0.0
    ensures x / n < y / n
  {
  }

  lemma WholeShare(whole: real, n: int)
    requires n > 0
    ensures Share(whole, 0, n) == 0.0 && Share(whole, n, n) == whole
  {
  }

  /** The angles of n steps go from nothing to the whole. */
  lemma ShareIsBetween(whole: real, i: int, n: int)
    requires whole > 0.0 && n > 0 && 0 <= i <= n
    ensures 0.0 <= Share(whole, i, n) <= whole && (i > 0 ==> Share(whole, i, n) > 0.0) && (i < n ==> Share(whole, i, n) < whole)
  {
    hide Share;
    WholeShare(whole, n);
    if i > 0 { Shares(whole, 0, i, n); }
    if i < n { Shares(whole, i, n, n); }
  }

  lemma AnglesAre(h: Shape, c: Circle, i: int)
    requires Fine(h)
    ensures Phi(h, c, i) == Share(c.pi, i + 1, h.R + 1) && Theta(h, c, i) == Share(c.pi * 2.0, i, h.L)
  {
  }

  function Scaled(r: real, x: real): real { r * x }

  lemma Order(r: real, x: real, y: real)
    requires r > 0.0
    ensures x < y <==> Scaled(r, x) < Scaled(r, y)
    ensures x == y <==> Scaled(r, x) == Scaled(r, y)
    ensures x > 0.0 ==> Scaled(r, x) > 0.0
  {
    if x < y { assert r * (y - x) > 0.0; }
    if y < x { assert r * (x - y) > 0.0; }
  }

  lemma OnRingIs(c: Circle, radius: real, phi: real, theta: real)
    ensures var v, r := OnRing(c, radius, phi, theta), Scaled(radius, c.sin(phi));
      v.x == Scaled(r, c.cos(theta)) && v.y == Scaled(radius, c.cos(phi)) && v.z == Scaled(r, c.sin(theta))
  {
  }

  /** How far down a vertex is: the top, then the rings in turn, then the bottom. */
  function Level(h: Shape, p: Point): int {
    match p case Top => 0 case On(ring, _) => ring + 1 case Bottom => h.R + 1
  }

  function Height(h: Shape, c: Circle, radius: real, level: int): real
    requires Fine(h)
  {
    Scaled(radius, c.cos(Share(c.pi, level, h.R + 1)))
  }

  lemma HeightOf(h: Shape, c: Circle, radius: real, p: Point)
    requires Fine(h) && Round(c) && HasPoint(h, p)
    ensures Position(h, c, radius, p).y == Height(h, c, radius, Level(h, p))
  {
    WholeShare(c.pi, h.R + 1);
    if p.On? {
      hide Round, OnRing, Share, Phi, Theta, Scaled;
      AnglesAre(h, c, p.ring);
      OnRingIs(c, radius, Phi(h, c, p.ring), Theta(h, c, p.seg));
    } else {
      hide Share;
      assert Scaled(radius, 1.0) == radius && Scaled(radius, -1.0) == -radius;
    }
  }

  lemma LowerIsLower(h: Shape, c: Circle, radius: real, i: int, j: int)
    requires Fine(h) && Round(c) && radius > 0.0 && 0 <= i < j <= h.R + 1
    ensures Height(h, c, radius, i) > Height(h, c, radius, j)
  {
    hide Share, Scaled;
    var x, y := Share(c.pi, i, h.R + 1), Share(c.pi, j, h.R + 1);
    Shares(c.pi, i, j, h.R + 1);
    ShareIsBetween(c.pi, i, h.R + 1); ShareIsBetween(c.pi, j, h.R + 1);
    assert c.cos(x) > c.cos(y);
    Order(radius, c.cos(y), c.cos(x));
  }

  /** The top is highest, each ring level and lower than the one before, and the bottom lowest. */
  lemma RingsDescend(h: Shape, c: Circle, radius: real, p: Point, q: Point)
    requires Fine(h) && Round(c) && radius > 0.0 && HasPoint(h, p) && HasPoint(h, q)
    ensures Position(h, c, radius, p).y > Position(h, c, radius, q).y <==> Level(h, p) < Level(h, q)
  {
    hide Position, Height, Round;
    HeightOf(h, c, radius, p); HeightOf(h, c, radius, q);
    if Level(h, p) < Level(h, q) { LowerIsLower(h, c, radius, Level(h, p), Level(h, q)); }
    if Level(h, q) < Level(h, p) { LowerIsLower(h, c, radius, Level(h, q), Level(h, p)); }
  }

  lemma SameAngle(c: Circle, r: real, x: real, y: real)
    requires Round(c) && r > 0.0 && 0.0 <= x < 2.0 * c.pi && 0.0 <= y < 2.0 * c.pi
    requires Scaled(r, c.cos(x)) == Scaled(r, c.cos(y)) && Scaled(r, c.sin(x)) == Scaled(r, c.sin(y))
    ensures x == y
  {
    hide Scaled;
    Order(r, c.cos(x), c.cos(y)); Order(r, c.sin(x), c.sin(y));
  }

  lemma SameRing(h: Shape, c: Circle, radius: real, ring: int, s: int, t: int)
    requires Fine(h) && Round(c) && radius > 0.0 && 0 <= ring < h.R && 0 <= s < h.L && 0 <= t < h.L
    requires Position(h, c, radius, On(ring, s)) == Position(h, c, radius, On(ring, t))
    ensures s == t
  {
    hide Share, Scaled, OnRing, Phi, Theta;
    var phi, x, y := Phi(h, c, ring), Theta(h, c, s), Theta(h, c, t);
    AnglesAre(h, c, ring); AnglesAre(h, c, s); AnglesAre(h, c, t);
    ShareIsBetween(c.pi, ring + 1, h.R + 1); ShareIsBetween(c.pi * 2.0, s, h.L); ShareIsBetween(c.pi * 2.0, t, h.L);
    assert c.sin(phi) > 0.0;
    Order(radius, c.sin(phi), 1.0);
    OnRingIs(c, radius, phi, x); OnRingIs(c, radius, phi, y);
    SameAngle(c, Scaled(radius, c.sin(phi)), x, y);
    if s < t { Shares(c.pi * 2.0, s, t, h.L); }
    if t < s { Shares(c.pi * 2.0, t, s, h.L); }
  }

  /** No two vertices of the sphere are at the same place. */
  lemma VerticesAreApart(h: Shape, c: Circle, radius: real, p: Point, q: Point)
    requires Fine(h) && Round(c) && radius > 0.0 && HasPoint(h, p) && HasPoint(h, q)
    ensures Position(h, c, radius, p) == Position(h, c, radius, q) <==> p == q
  {
    hide Position, Round;
    RingsDescend(h, c, radius, p, q); RingsDescend(h, c, radius, q, p);
    if Position(h, c, radius, p) == Position(h, c, radius, q) && p.On? { SameRing(h, c, radius, p.ring, p.seg, q.seg); }
  }
}
