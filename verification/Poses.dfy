/** Rigid poses over the reals: quaternions, their rotations, composition and inverse. */
module Poses {
  import opened Reals

  datatype Quaternion = Q(x: real, y: real, z: real, w: real)
  datatype Pose = Pose(position: Vec, rotation: Quaternion)

  const Epsilon := 0.0000000000000002220446049250313

  function Multiply(a: Quaternion, b: Quaternion): Quaternion {
    Q(a.w * b.x + a.x * b.w + a.y * b.z - a.z * b.y,
      a.w * b.y - a.x * b.z + a.y * b.w + a.z * b.x,
      a.w * b.z + a.x * b.y - a.y * b.x + a.z * b.w,
      a.w * b.w - a.x * b.x - a.y * b.y - a.z * b.z)
  }

  function Times(x: real, y: real): real { x * y }

  function Norm(q: Quaternion): real { Times(q.x, q.x) + Times(q.y, q.y) + Times(q.z, q.z) + Times(q.w, q.w) }

  function Inverse(q: Quaternion): Quaternion {
    var norm := Norm(q);
    if norm <= Epsilon then Q(0.0, 0.0, 0.0, 1.0) else Q(-q.x / norm, -q.y / norm, -q.z / norm, q.w / norm)
  }

  function Pure(v: Vec): Quaternion { Q(v.x, v.y, v.z, 0.0) }

  function Rotate(v: Vec, q: Quaternion): Vec {
    var r := Multiply(Multiply(q, Pure(v)), Inverse(q));
    Vec(r.x, r.y, r.z)
  }

  function Add(u: Vec, v: Vec): Vec { Vec(u.x + v.x, u.y + v.y, u.z + v.z) }
  function Negate(v: Vec): Vec { Vec(-v.x, -v.y, -v.z) }

  function Compose(parent: Pose, child: Pose): Pose {
    Pose(Add(parent.position, Rotate(child.position, parent.rotation)), Multiply(parent.rotation, child.rotation))
  }

  function Invert(pose: Pose): Pose {
    Pose(Negate(Rotate(pose.position, Inverse(pose.rotation))), Inverse(pose.rotation))
  }

  function RelativeTo(parent: Pose, world: Pose): Pose { Compose(Invert(parent), world) }

  /* ---------- quaternions ---------- */

  predicate Unit(q: Quaternion) { Norm(q) == 1.0 }

  function Conjugate(q: Quaternion): Quaternion { Q(-q.x, -q.y, -q.z, q.w) }

  const One := Q(0.0, 0.0, 0.0, 1.0)

  lemma InverseIsConjugate(q: Quaternion)
    requires Unit(q)
    ensures Inverse(q) == Conjugate(q) && Unit(Conjugate(q))
  {
  }

  /* The coordinates of a product. */

  function MulX(a: Quaternion, b: Quaternion): real { a.w * b.x + a.x * b.w + a.y * b.z - a.z * b.y }
  function MulY(a: Quaternion, b: Quaternion): real { a.w * b.y - a.x * b.z + a.y * b.w + a.z * b.x }
  function MulZ(a: Quaternion, b: Quaternion): real { a.w * b.z + a.x * b.y - a.y * b.x + a.z * b.w }
  function MulW(a: Quaternion, b: Quaternion): real { a.w * b.w - a.x * b.x - a.y * b.y - a.z * b.z }

  lemma Coordinates(a: Quaternion, b: Quaternion)
    ensures Multiply(a, b) == Q(MulX(a, b), MulY(a, b), MulZ(a, b), MulW(a, b))
  {
  }

  lemma AssociativeX(a: Quaternion, b: Quaternion, c: Quaternion)
    ensures MulX(Multiply(a, b), c) == MulX(a, Multiply(b, c))
  {
  }

  lemma AssociativeY(a: Quaternion, b: Quaternion, c: Quaternion)
    ensures MulY(Multiply(a, b), c) == MulY(a, Multiply(b, c))
  {
  }

  lemma AssociativeZ(a: Quaternion, b: Quaternion, c: Quaternion)
    ensures MulZ(Multiply(a, b), c) == MulZ(a, Multiply(b, c))
  {
  }

  lemma AssociativeW(a: Quaternion, b: Quaternion, c: Quaternion)
    ensures MulW(Multiply(a, b), c) == MulW(a, Multiply(b, c))
  {
  }

  lemma Associative(a: Quaternion, b: Quaternion, c: Quaternion)
    ensures Multiply(Multiply(a, b), c) == Multiply(a, Multiply(b, c))
  {
    hide Multiply, MulX, MulY, MulZ, MulW;
    Coordinates(Multiply(a, b), c); Coordinates(a, Multiply(b, c));
    AssociativeX(a, b, c); AssociativeY(a, b, c); AssociativeZ(a, b, c); AssociativeW(a, b, c);
  }

  lemma ConjugateProduct(a: Quaternion, b: Quaternion)
    ensures Conjugate(Multiply(a, b)) == Multiply(Conjugate(b), Conjugate(a))
  {
    hide Multiply;
    Coordinates(a, b); Coordinates(Conjugate(b), Conjugate(a));
  }

  lemma Neutral(q: Quaternion)
    ensures Multiply(q, One) == q && Multiply(One, q) == q
  {
  }

  lemma NormIsProduct(q: Quaternion)
    ensures Multiply(q, Conjugate(q)) == Q(0.0, 0.0, 0.0, Norm(q))
  {
  }

  /** The whole product behind a rotation; its scalar part vanishes. */
  function Turned(p: Quaternion, q: Quaternion): Quaternion { Multiply(Multiply(q, p), Conjugate(q)) }

  lemma TurnedIsPure(v: Vec, q: Quaternion)
    ensures Turned(Pure(v), q).w == 0.0
  {
  }

  lemma RotateIsTurned(v: Vec, q: Quaternion)
    requires Unit(q)
    ensures Pure(Rotate(v, q)) == Turned(Pure(v), q)
  {
    InverseIsConjugate(q);
    TurnedIsPure(v, q);
    hide Multiply, Conjugate, Inverse;
  }

  lemma PureInjective(u: Vec, v: Vec)
    requires Pure(u) == Pure(v)
    ensures u == v
  {
  }

  /* ---------- scaling ---------- */

  function Scale(n: real, q: Quaternion): Quaternion { Q(n * q.x, n * q.y, n * q.z, n * q.w) }

  function Scalar(n: real): Quaternion { Q(0.0, 0.0, 0.0, n) }

  lemma ScaledX(n: real, a: Quaternion, b: Quaternion)
    ensures MulX(Scale(n, a), b) == n * MulX(a, b) && MulX(a, Scale(n, b)) == n * MulX(a, b)
  {
  }

  lemma ScaledY(n: real, a: Quaternion, b: Quaternion)
    ensures MulY(Scale(n, a), b) == n * MulY(a, b) && MulY(a, Scale(n, b)) == n * MulY(a, b)
  {
  }

  lemma ScaledZ(n: real, a: Quaternion, b: Quaternion)
    ensures MulZ(Scale(n, a), b) == n * MulZ(a, b) && MulZ(a, Scale(n, b)) == n * MulZ(a, b)
  {
  }

  lemma ScaledW(n: real, a: Quaternion, b: Quaternion)
    ensures MulW(Scale(n, a), b) == n * MulW(a, b) && MulW(a, Scale(n, b)) == n * MulW(a, b)
  {
  }

  lemma MulScale(n: real, a: Quaternion, b: Quaternion)
    ensures Multiply(Scale(n, a), b) == Scale(n, Multiply(a, b)) && Multiply(a, Scale(n, b)) == Scale(n, Multiply(a, b))
  {
    hide Multiply, MulX, MulY, MulZ, MulW;
    Coordinates(a, b); Coordinates(Scale(n, a), b); Coordinates(a, Scale(n, b));
    ScaledX(n, a, b); ScaledY(n, a, b); ScaledZ(n, a, b); ScaledW(n, a, b);
  }

  lemma ScalarTimes(n: real, q: Quaternion)
    ensures Multiply(Scalar(n), q) == Scale(n, q)
  {
  }

  /** The norm of a product is the product of the norms. */
  lemma NormProduct(a: Quaternion, b: Quaternion)
    ensures Norm(Multiply(a, b)) == Norm(b) * Norm(a)
  {
    var ab, a', b' := Multiply(a, b), Conjugate(a), Conjugate(b);
    NormIsProduct(ab); NormIsProduct(a); NormIsProduct(b);
    ConjugateProduct(a, b);
    hide Multiply, Conjugate, Norm;
    Associative(ab, b', a');
    Associative(a, b, b');
    Associative(a, Scalar(Norm(b)), a');
    ScalarTimes(Norm(b), a');
    MulScale(Norm(b), a, a');
    assert Multiply(ab, Conjugate(ab)) == Scale(Norm(b), Scalar(Norm(a)));
    assert Scalar(Norm(ab)) == Scale(Norm(b), Scalar(Norm(a)));
  }

  /* ---------- inverses ---------- */

  /** Long enough for the inverse to be computed. */
  predicate Long(q: Quaternion) { Norm(q) > Epsilon }

  /** The least norm is the distance from one to the next number, two to the power of minus 52, rounded to sixteen digits. */
  lemma LongIs(q: Quaternion)
    ensures Long(q) <==> q.x * q.x + q.y * q.y + q.z * q.z + q.w * q.w > 0.0000000000000002220446049250313
  {
  }

  lemma DivideIsMultiply(x: real, n: real)
    requires n > 0.0
    ensures x / n == (1.0 / n) * x && (1.0 / n) * n == 1.0 && -x / n == (1.0 / n) * -x
  {
  }

  lemma InverseIsScaled(q: Quaternion)
    requires Long(q)
    ensures Inverse(q) == Scale(1.0 / Norm(q), Conjugate(q)) && (1.0 / Norm(q)) * Norm(q) == 1.0
  {
    var n := Norm(q);
    DivideIsMultiply(q.x, n); DivideIsMultiply(q.y, n); DivideIsMultiply(q.z, n); DivideIsMultiply(q.w, n);
    hide Norm;
  }

  lemma NormIsProductBefore(q: Quaternion)
    ensures Multiply(Conjugate(q), q) == Scalar(Norm(q))
  {
  }

  lemma InverseCancels(q: Quaternion)
    requires Long(q)
    ensures Multiply(q, Inverse(q)) == One && Multiply(Inverse(q), q) == One
  {
    InverseIsScaled(q);
    NormIsProduct(q); NormIsProductBefore(q);
    hide Multiply, Conjugate, Inverse, Norm;
    MulScale(1.0 / Norm(q), q, Conjugate(q));
    MulScale(1.0 / Norm(q), Conjugate(q), q);
  }

  /** What cancels with a long quaternion is its inverse. */
  lemma InverseIsUnique(q: Quaternion, z: Quaternion)
    requires Long(q) && Multiply(q, z) == One
    ensures Inverse(q) == z
  {
    InverseCancels(q);
    Neutral(z); Neutral(Inverse(q));
    Associative(Inverse(q), q, z);
  }

  lemma InverseProduct(a: Quaternion, b: Quaternion)
    requires Long(a) && Long(b) && Long(Multiply(a, b))
    ensures Inverse(Multiply(a, b)) == Multiply(Inverse(b), Inverse(a))
  {
    hide Multiply, Inverse, Norm;
    var a', b' := Inverse(a), Inverse(b);
    InverseCancels(a); InverseCancels(b);
    Associative(Multiply(a, b), b', a');
    Associative(a, b, b');
    Neutral(a);
    InverseIsUnique(Multiply(a, b), Multiply(b', a'));
  }

  lemma NormOfOne()
    ensures Norm(One) == 1.0
  {
  }

  lemma InverseNorm(q: Quaternion)
    requires Long(q)
    ensures Norm(Inverse(q)) * Norm(q) == 1.0 && (Long(Inverse(q)) ==> Inverse(Inverse(q)) == q)
  {
    hide Multiply, Inverse, Norm;
    InverseCancels(q);
    NormProduct(q, Inverse(q));
    NormOfOne();
    if Long(Inverse(q)) { InverseIsUnique(Inverse(q), q); }
  }

  /* ---------- rotations ---------- */

  /** The whole product behind a rotation with the computed inverse. */
  function Sandwich(p: Quaternion, q: Quaternion): Quaternion { Multiply(Multiply(q, p), Inverse(q)) }

  lemma SandwichIsPure(v: Vec, q: Quaternion)
    requires Long(q)
    ensures Pure(Rotate(v, q)) == Sandwich(Pure(v), q)
  {
    InverseIsScaled(q);
    TurnedIsPure(v, q);
    hide Multiply, Conjugate, Inverse, Norm;
    MulScale(1.0 / Norm(q), Multiply(q, Pure(v)), Conjugate(q));
  }

  lemma SandwichTwice(p: Quaternion, a: Quaternion, b: Quaternion)
    requires Long(a) && Long(b) && Long(Multiply(a, b))
    ensures Sandwich(p, Multiply(a, b)) == Sandwich(Sandwich(p, b), a)
  {
    hide Multiply, Inverse, Norm;
    var a', b' := Inverse(a), Inverse(b);
    InverseProduct(a, b);
    Associative(a, b, p);
    Associative(Multiply(a, Multiply(b, p)), b', a');
    Associative(a, Multiply(b, p), b');
  }

  function Plus(p: Quaternion, r: Quaternion): Quaternion { Q(p.x + r.x, p.y + r.y, p.z + r.z, p.w + r.w) }

  lemma MulPlusRight(q: Quaternion, p: Quaternion, r: Quaternion)
    ensures Multiply(q, Plus(p, r)) == Plus(Multiply(q, p), Multiply(q, r))
  {
  }

  lemma MulPlusLeft(q: Quaternion, p: Quaternion, r: Quaternion)
    ensures Multiply(Plus(p, r), q) == Plus(Multiply(p, q), Multiply(r, q))
  {
  }

  /** Rotation is linear, also where the inverse is not computed. */
  lemma RotateAdds(u: Vec, v: Vec, q: Quaternion)
    ensures Rotate(Add(u, v), q) == Add(Rotate(u, q), Rotate(v, q))
    ensures Rotate(Negate(u), q) == Negate(Rotate(u, q))
  {
    hide Multiply, Inverse;
    var i := Inverse(q);
    assert Pure(Add(u, v)) == Plus(Pure(u), Pure(v)) && Pure(Negate(u)) == Scale(-1.0, Pure(u));
    MulPlusRight(q, Pure(u), Pure(v));
    MulPlusLeft(i, Multiply(q, Pure(u)), Multiply(q, Pure(v)));
    MulScale(-1.0, q, Pure(u));
    MulScale(-1.0, Multiply(q, Pure(u)), i);
  }

  function Length2(v: Vec): real { Times(v.x, v.x) + Times(v.y, v.y) + Times(v.z, v.z) }

  const Origin := Vec(0.0, 0.0, 0.0)

  lemma PositiveProduct(x: real, y: real)
    requires (x > 0.0 && y > 0.0) || (x < 0.0 && y < 0.0)
    ensures Times(x, y) > 0.0
  {
    if x < 0.0 { assert (-x) * (-y) > 0.0; assert (-x) * (-y) == x * y; }
  }

  lemma ZeroProduct(x: real, y: real)
    requires x == 0.0
    ensures Times(x, y) == 0.0
  {
  }

  lemma Square(x: real)
    ensures Times(x, x) >= 0.0
    ensures x != 0.0 ==> Times(x, x) > 0.0
  {
    hide Times;
    if x == 0.0 { ZeroProduct(x, x); } else { PositiveProduct(x, x); }
  }

  lemma NoLength(v: Vec)
    ensures Length2(v) >= 0.0 && Norm(Pure(v)) == Length2(v)
  {
    hide Times;
    Square(v.x); Square(v.y); Square(v.z); ZeroProduct(0.0, 0.0);
  }

  lemma HasLength(v: Vec)
    requires v != Origin
    ensures Length2(v) > 0.0
  {
    hide Times;
    Square(v.x); Square(v.y); Square(v.z);
  }

  /** A rotation by a long quaternion keeps lengths. */
  lemma RotateKeepsLength(v: Vec, q: Quaternion)
    requires Long(q)
    ensures Length2(Rotate(v, q)) == Length2(v)
  {
    hide Multiply, Inverse, Norm, Rotate;
    SandwichIsPure(v, q);
    NormProduct(Multiply(q, Pure(v)), Inverse(q));
    NormProduct(q, Pure(v));
    InverseNorm(q);
    NoLength(v); NoLength(Rotate(v, q));
    Regroup(Norm(Inverse(q)), Norm(Pure(v)), Norm(q));
  }

  lemma Regroup(i: real, n: real, q: real)
    requires i * q == 1.0
    ensures i * (n * q) == n
  {
    assert i * (n * q) == (i * q) * n;
  }

  /** A rotation by a shorter one shrinks everything to almost nothing. */
  lemma ShortShrinks(v: Vec, q: Quaternion)
    requires !Long(q)
    ensures Length2(Rotate(v, q)) <= Epsilon * Length2(v)
  {
    var m := Multiply(q, Pure(v));
    ShortInverse(q, m);
    NormProduct(q, Pure(v));
    NoLength(v);
    PartOfNorm(m);
    assert Rotate(v, q) == Vec(m.x, m.y, m.z);
    hide Multiply, Norm, Inverse, Long, Length2, Rotate;
    Congruent(Norm(Pure(v)), Length2(v), Norm(q));
    Monotone(Norm(q), Epsilon, Length2(v));
  }

  lemma ShortInverse(q: Quaternion, m: Quaternion)
    requires !Long(q)
    ensures Norm(q) <= Epsilon && Multiply(m, Inverse(q)) == m
  {
    assert Inverse(q) == One;
    hide Inverse, Norm;
    Neutral(m);
  }

  lemma Congruent(a: real, b: real, u: real)
    requires a == b
    ensures a * u == b * u
  {
  }

  lemma PartOfNorm(m: Quaternion)
    ensures Length2(Vec(m.x, m.y, m.z)) <= Norm(m)
  {
    hide Times;
    Square(m.w);
  }

  lemma Monotone(x: real, y: real, z: real)
    requires x <= y && z >= 0.0
    ensures z * x <= y * z
  {
    assert (y - x) * z >= 0.0;
  }

  /** What is shrunk has not kept its length, unless it had none. */
  lemma ShrunkIsOther(u: Vec, v: Vec)
    requires Length2(u) <= Epsilon * Length2(v) && Length2(u) == Length2(v)
    ensures v == Origin
  {
    if v != Origin {
      HasLength(v);
      Scaled(Length2(v));
      assert false;
    }
  }

  lemma Scaled(n: real)
    requires n > 0.0
    ensures Epsilon * n < n
  {
  }

  lemma RotateNothing(q: Quaternion)
    ensures Rotate(Origin, q) == Origin
  {
    RotateAdds(Origin, Origin, q);
    hide Rotate;
    assert Add(Origin, Origin) == Origin;
  }

  /** Rotating by a product is rotating twice, exactly if the product is long, too, or there is nothing to rotate. */
  lemma RotateTwiceIff(v: Vec, a: Quaternion, b: Quaternion)
    requires Long(a) && Long(b)
    ensures Rotate(v, Multiply(a, b)) == Rotate(Rotate(v, b), a) <==> Long(Multiply(a, b)) || v == Origin
  {
    hide Multiply, Rotate, Sandwich, Long, Length2;
    if Long(Multiply(a, b)) {
      SandwichIsPure(v, Multiply(a, b));
      SandwichIsPure(v, b);
      SandwichIsPure(Rotate(v, b), a);
      SandwichTwice(Pure(v), a, b);
      PureInjective(Rotate(v, Multiply(a, b)), Rotate(Rotate(v, b), a));
    } else {
      ShortShrinks(v, Multiply(a, b));
      RotateKeepsLength(v, b);
      RotateKeepsLength(Rotate(v, b), a);
      RotateNothing(Multiply(a, b)); RotateNothing(b); RotateNothing(a);
      if Rotate(v, Multiply(a, b)) == Rotate(Rotate(v, b), a) { ShrunkIsOther(Rotate(v, Multiply(a, b)), v); }
    }
  }

  lemma OneIsLong()
    ensures Long(One) && Inverse(One) == One
  {
  }

  lemma RotateByOne(v: Vec)
    ensures Rotate(v, One) == v
  {
    hide Multiply, Inverse, Rotate, Long;
    OneIsLong();
    SandwichIsPure(v, One);
    Neutral(Pure(v));
    PureInjective(Rotate(v, One), v);
  }

  lemma ShortInverts(q: Quaternion)
    requires !Long(q)
    ensures Inverse(q) == One && q != One
  {
  }

  /** Both a quaternion and its inverse are long. */
  predicate Invertible(q: Quaternion) { Long(q) && Long(Inverse(q)) }

  /** Rotating back and forth, either way. */
  lemma RotateBackIff(v: Vec, q: Quaternion)
    ensures Rotate(Rotate(v, Inverse(q)), q) == v <==> Invertible(q) || v == Origin
    ensures Rotate(Rotate(v, q), Inverse(q)) == v <==> Invertible(q) || v == Origin
  {
    hide Multiply, Rotate, Long, Length2, Inverse;
    var i := Inverse(q);
    OneIsLong();
    RotateByOne(v);
    RotateNothing(q); RotateNothing(i);
    if Invertible(q) {
      InverseCancels(q);
      RotateTwiceIff(v, q, i);
      RotateTwiceIff(v, i, q);
    } else if Long(q) {
      ShortShrinks(v, i); ShortShrinks(Rotate(v, q), i);
      RotateKeepsLength(v, q); RotateKeepsLength(Rotate(v, i), q);
      if Rotate(Rotate(v, i), q) == v { ShrunkIsOther(Rotate(v, i), v); }
      if Rotate(Rotate(v, q), i) == v { ShrunkIsOther(Rotate(Rotate(v, q), i), v); }
    } else {
      ShortInverts(q);
      RotateByOne(Rotate(v, q));
      ShortShrinks(v, q);
      if Rotate(v, q) == v { ShrunkIsOther(v, v); }
    }
  }

  const Nought := Q(0.0, 0.0, 0.0, 0.0)

  lemma HasNorm(w: Quaternion)
    ensures Norm(w) >= 0.0 && (w != Nought ==> Norm(w) > 0.0)
  {
    hide Times;
    Square(w.x); Square(w.y); Square(w.z); Square(w.w);
  }

  lemma TimesNought(q: Quaternion)
    ensures Multiply(q, Nought) == Nought
  {
  }

  /** A short quaternion changes every other by multiplication, except nought. */
  lemma ShortFixesNought(q: Quaternion, w: Quaternion)
    requires !Long(q)
    ensures Multiply(q, w) == w <==> w == Nought
  {
    NormProduct(q, w);
    HasNorm(w);
    TimesNought(q);
    ShortNorm(q);
    hide Multiply, Norm;
    if Multiply(q, w) == w && w != Nought { Monotone(Norm(q), Epsilon, Norm(w)); Scaled(Norm(w)); }
  }

  lemma ShortNorm(q: Quaternion)
    requires !Long(q)
    ensures Norm(q) <= Epsilon
  {
  }

  /* ---------- main results ---------- */

  /** Composition of poses is associative exactly if the product of the rotations is long, too, or the last pose is not moved. */
  lemma ComposeAssociativeIff(a: Pose, b: Pose, c: Pose)
    requires Long(a.rotation) && Long(b.rotation)
    ensures Compose(Compose(a, b), c) == Compose(a, Compose(b, c)) <==> Long(Multiply(a.rotation, b.rotation)) || c.position == Origin
  {
    hide Rotate, Multiply, Long;
    Associative(a.rotation, b.rotation, c.rotation);
    RotateTwiceIff(c.position, a.rotation, b.rotation);
    RotateAdds(b.position, Rotate(c.position, b.rotation), a.rotation);
  }

  /** In particular for unit quaternions, whose product is one again. */
  lemma ComposeAssociative(a: Pose, b: Pose, c: Pose)
    requires Unit(a.rotation) && Unit(b.rotation)
    ensures Compose(Compose(a, b), c) == Compose(a, Compose(b, c)) && Unit(Multiply(a.rotation, b.rotation))
  {
    NormProduct(a.rotation, b.rotation);
    assert Long(a.rotation) && Long(b.rotation) && Long(Multiply(a.rotation, b.rotation));
    hide Compose, Norm, Multiply;
    ComposeAssociativeIff(a, b, c);
  }

  const Here := Pose(Origin, One)

  /**
   * A pose and its inverse cancel, one way exactly if the rotation is long, and the other way exactly if its inverse is long,
   * too, or the pose is not moved.
   */
  lemma InvertCancelsIff(p: Pose)
    ensures Compose(Invert(p), p) == Here <==> Long(p.rotation)
    ensures Compose(p, Invert(p)) == Here <==> Long(p.rotation) && (Long(Inverse(p.rotation)) || p.position == Origin)
  {
    hide Rotate, Multiply, Long, Inverse;
    var q, i := p.rotation, Inverse(p.rotation);
    if Long(q) { InverseCancels(q); } else { ShortInverts(q); Neutral(q); }
    RotateAdds(Rotate(p.position, i), Rotate(p.position, i), q);
    RotateBackIff(p.position, q);
  }

  /** A pose at this offset with this rotation is not changed by turning it back and forth. */
  predicate ComesBack(q: Quaternion, offset: Vec, rotation: Quaternion) {
    if Long(q) then Long(Inverse(q)) || offset == Origin else offset == Origin && rotation == Nought
  }

  /**
   * Composing the parent with a pose expressed in it gives the pose itself, exactly if the parent's rotation and its inverse are
   * long, or the rotation is and the pose stands where the parent does, or the pose does so and has no rotation to keep; and
   * expressing a composed pose in the parent likewise.
   */
  lemma RelativeComesBackIff(parent: Pose, world: Pose)
    ensures Compose(parent, RelativeTo(parent, world)) == world
      <==> ComesBack(parent.rotation, Add(world.position, Negate(parent.position)), world.rotation)
    ensures RelativeTo(parent, Compose(parent, world)) == world <==> ComesBack(parent.rotation, world.position, world.rotation)
  {
    hide Rotate, Multiply, Long, Inverse, Compose;
    RelativeThenBack(parent, world);
    BackThenRelative(parent, world);
    RotateBackIff(Add(world.position, Negate(parent.position)), parent.rotation);
    RotateBackIff(world.position, parent.rotation);
    if !Long(parent.rotation) { ShortFixesNought(parent.rotation, world.rotation); }
  }

  /** What is left of a rotation that was turned back and forth. */
  function TurnedBack(q: Quaternion, w: Quaternion): Quaternion { if Long(q) then w else Multiply(q, w) }

  lemma BackTurned(q: Quaternion, w: Quaternion)
    ensures Multiply(q, Multiply(Inverse(q), w)) == TurnedBack(q, w) == Multiply(Inverse(q), Multiply(q, w))
  {
    hide Multiply, Long, Inverse;
    var i := Inverse(q);
    if Long(q) {
      InverseCancels(q);
      Associative(q, i, w); Associative(i, q, w);
      Neutral(w);
    } else {
      ShortInverts(q);
      Neutral(w); Neutral(Multiply(q, w));
    }
  }

  /** The pose expressed in the parent and put back has its rotation, and the offset from the parent, turned back and forth. */
  lemma RelativeThenBack(parent: Pose, world: Pose)
    ensures var d := Add(world.position, Negate(parent.position));
      Compose(parent, RelativeTo(parent, world))
        == Pose(Add(parent.position, Rotate(Rotate(d, Inverse(parent.rotation)), parent.rotation)), TurnedBack(parent.rotation, world.rotation))
  {
    hide Rotate, Multiply, Long, Inverse, TurnedBack;
    var q, i, P, W := parent.rotation, Inverse(parent.rotation), parent.position, world.position;
    BackTurned(q, world.rotation);
    RotateAdds(W, Negate(P), i); RotateAdds(P, P, i);
    var d := Add(W, Negate(P));
    assert Add(Negate(Rotate(P, i)), Rotate(W, i)) == Rotate(d, i);
  }

  lemma BackThenRelative(parent: Pose, world: Pose)
    ensures RelativeTo(parent, Compose(parent, world))
      == Pose(Rotate(Rotate(world.position, parent.rotation), Inverse(parent.rotation)), TurnedBack(parent.rotation, world.rotation))
  {
    hide Rotate, Multiply, Long, Inverse, TurnedBack;
    var q, i, P, W := parent.rotation, Inverse(parent.rotation), parent.position, world.position;
    BackTurned(q, world.rotation);
    RotateAdds(P, Rotate(W, q), i);
  }

  /* ---------- what poses do to points ---------- */

  /** Where a pose takes a point. */
  function Act(pose: Pose, v: Vec): Vec { Add(pose.position, Rotate(v, pose.rotation)) }

  /** Composing poses is taking a point first by the child and then by the parent, under the same condition on the norms. */
  lemma ComposeActsIff(a: Pose, b: Pose, v: Vec)
    requires Long(a.rotation) && Long(b.rotation)
    ensures Act(Compose(a, b), v) == Act(a, Act(b, v)) <==> Long(Multiply(a.rotation, b.rotation)) || v == Origin
  {
    hide Rotate, Multiply, Long;
    RotateTwiceIff(v, a.rotation, b.rotation);
    RotateAdds(b.position, Rotate(v, b.rotation), a.rotation);
  }

  /** Turning by a quarter: the whole product behind it is twice the turned point. */
  lemma QuarterProduct(q: Quaternion, v: Vec, p: Quaternion, r: Vec)
    requires Norm(q) == 2.0 && Multiply(q, Pure(v)) == p && Multiply(p, Conjugate(q)) == Scale(2.0, Pure(r))
    ensures Rotate(v, q) == r
  {
    InverseIsScaled(q);
    hide Multiply, Inverse, Norm;
    MulScale(0.5, p, Conjugate(q));
  }

  lemma ProductOf(x: real, y: real, z: real, w: real, i: real, j: real, k: real, l: real)
    ensures Multiply(Q(x, y, z, w), Q(i, j, k, l))
      == Q(w * i + x * l + y * k - z * j, w * j - x * k + y * l + z * i,
           w * k + x * j - y * i + z * l, w * l - x * i - y * j - z * k)
  {
  }

  lemma ScaleOf(n: real, x: real, y: real, z: real, w: real)
    ensures Scale(n, Q(x, y, z, w)) == Q(n * x, n * y, n * z, n * w)
  {
  }

  lemma NormOf(x: real, y: real, z: real, w: real)
    ensures Norm(Q(x, y, z, w)) == x * x + y * y + z * z + w * w
  {
  }

  lemma PureOf(x: real, y: real, z: real)
    ensures Pure(Vec(x, y, z)) == Q(x, y, z, 0.0)
  {
  }

  lemma ConjugateOf(x: real, y: real, z: real, w: real)
    ensures Conjugate(Q(x, y, z, w)) == Q(-x, -y, -z, w)
  {
  }

  lemma TurnAboutZ()
    ensures Rotate(Vec(1.0, 0.0, 0.0), Q(0.0, 0.0, 1.0, 1.0)) == Vec(0.0, 1.0, 0.0)
  {
    hide *;
    NormOf(0.0, 0.0, 1.0, 1.0);
    ProductOf(0.0, 0.0, 1.0, 1.0, 1.0, 0.0, 0.0, 0.0);
    ProductOf(1.0, 1.0, 0.0, 0.0, 0.0, 0.0, -1.0, 1.0);
    PureOf(1.0, 0.0, 0.0); PureOf(0.0, 1.0, 0.0); ConjugateOf(0.0, 0.0, 1.0, 1.0);
    ScaleOf(2.0, 0.0, 1.0, 0.0, 0.0);
    QuarterProduct(Q(0.0, 0.0, 1.0, 1.0), Vec(1.0, 0.0, 0.0), Q(1.0, 1.0, 0.0, 0.0), Vec(0.0, 1.0, 0.0));
  }

  lemma TurnAboutX()
    ensures Rotate(Vec(0.0, 1.0, 0.0), Q(1.0, 0.0, 0.0, 1.0)) == Vec(0.0, 0.0, 1.0)
  {
    hide *;
    NormOf(1.0, 0.0, 0.0, 1.0);
    ProductOf(1.0, 0.0, 0.0, 1.0, 0.0, 1.0, 0.0, 0.0);
    ProductOf(0.0, 1.0, 1.0, 0.0, -1.0, 0.0, 0.0, 1.0);
    PureOf(0.0, 1.0, 0.0); PureOf(0.0, 0.0, 1.0); ConjugateOf(1.0, 0.0, 0.0, 1.0);
    ScaleOf(2.0, 0.0, 0.0, 1.0, 0.0);
    QuarterProduct(Q(1.0, 0.0, 0.0, 1.0), Vec(0.0, 1.0, 0.0), Q(0.0, 1.0, 1.0, 0.0), Vec(0.0, 0.0, 1.0));
  }

  lemma TurnAboutY()
    ensures Rotate(Vec(0.0, 0.0, 1.0), Q(0.0, 1.0, 0.0, 1.0)) == Vec(1.0, 0.0, 0.0)
  {
    hide *;
    NormOf(0.0, 1.0, 0.0, 1.0);
    ProductOf(0.0, 1.0, 0.0, 1.0, 0.0, 0.0, 1.0, 0.0);
    ProductOf(1.0, 0.0, 1.0, 0.0, 0.0, -1.0, 0.0, 1.0);
    PureOf(0.0, 0.0, 1.0); PureOf(1.0, 0.0, 0.0); ConjugateOf(0.0, 1.0, 0.0, 1.0);
    ScaleOf(2.0, 1.0, 0.0, 0.0, 0.0);
    QuarterProduct(Q(0.0, 1.0, 0.0, 1.0), Vec(0.0, 0.0, 1.0), Q(1.0, 0.0, 1.0, 0.0), Vec(1.0, 0.0, 0.0));
  }

  /** The sense of rotations: a quarter turn about an axis takes the next axis to the one after, right-handed. */
  lemma QuarterTurns()
    ensures Rotate(Vec(1.0, 0.0, 0.0), Q(0.0, 0.0, 1.0, 1.0)) == Vec(0.0, 1.0, 0.0)
    ensures Rotate(Vec(0.0, 1.0, 0.0), Q(1.0, 0.0, 0.0, 1.0)) == Vec(0.0, 0.0, 1.0)
    ensures Rotate(Vec(0.0, 0.0, 1.0), Q(0.0, 1.0, 0.0, 1.0)) == Vec(1.0, 0.0, 0.0)
  {
    hide *;
    TurnAboutZ(); TurnAboutX(); TurnAboutY();
  }

  /** A point expressed in a pose and put back: the inverse pose undoes the pose on points exactly if both norms allow it. */
  lemma InvertActsIff(p: Pose, v: Vec)
    ensures Act(p, Act(Invert(p), v)) == v <==> Invertible(p.rotation) || v == p.position
  {
    hide Rotate, Multiply, Long, Inverse;
    var q, i := p.rotation, Inverse(p.rotation);
    RotateAdds(v, Negate(p.position), i);
    RotateAdds(p.position, p.position, i);
    RotateBackIff(Add(v, Negate(p.position)), q);
    assert Act(Invert(p), v) == Rotate(Add(v, Negate(p.position)), i);
  }
}
