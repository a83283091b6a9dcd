/** What the matrix of a transform does to a point: it scales, rotates and moves it. */
module AssetTransforms {
  import opened AssetMatrices
  import opened Reals
  import Poses

  datatype Transform = Transform(position: Vec, quaternion: Poses.Quaternion, scale: Vec)

  /* The entries of the rotation, row and column. */

  function R00(q: Poses.Quaternion): real { 1.0 - 2.0 * (q.y * q.y + q.z * q.z) }
  function R10(q: Poses.Quaternion): real { 2.0 * (q.x * q.y + q.w * q.z) }
  function R20(q: Poses.Quaternion): real { 2.0 * (q.x * q.z - q.w * q.y) }
  function R01(q: Poses.Quaternion): real { 2.0 * (q.x * q.y - q.w * q.z) }
  function R11(q: Poses.Quaternion): real { 1.0 - 2.0 * (q.x * q.x + q.z * q.z) }
  function R21(q: Poses.Quaternion): real { 2.0 * (q.y * q.z + q.w * q.x) }
  function R02(q: Poses.Quaternion): real { 2.0 * (q.x * q.z + q.w * q.y) }
  function R12(q: Poses.Quaternion): real { 2.0 * (q.y * q.z - q.w * q.x) }
  function R22(q: Poses.Quaternion): real { 1.0 - 2.0 * (q.x * q.x + q.y * q.y) }

  function AssetTransformMatrix(t: Transform): Matrix {
    var q, s := t.quaternion, t.scale;
    [R00(q) * s.x, R10(q) * s.x, R20(q) * s.x, 0.0,
     R01(q) * s.y, R11(q) * s.y, R21(q) * s.y, 0.0,
     R02(q) * s.z, R12(q) * s.z, R22(q) * s.z, 0.0,
     t.position.x, t.position.y, t.position.z, 1.0]
  }

  function NormalizationMatrix(metersPerUnit: real, orientation: Poses.Quaternion, pivot: Vec): Matrix {
    var turn := AssetTransformMatrix(Transform(Vec(0.0, 0.0, 0.0), orientation, Vec(metersPerUnit, metersPerUnit, metersPerUnit)));
    Times(turn, Identity()[12 := -pivot.x][13 := -pivot.y][14 := -pivot.z])
  }

  function Scaled(p: Vec, s: Vec): Vec { Vec(s.x * p.x, s.y * p.y, s.z * p.z) }

  function Moved(r: Vec, d: Vec): Vec { Vec(r.x + d.x, r.y + d.y, r.z + d.z) }

  /** The rotation of a vector, multiplied out. */
  function Turn(q: Poses.Quaternion, v: Vec): Vec {
    Vec(R00(q) * v.x + R01(q) * v.y + R02(q) * v.z,
              R10(q) * v.x + R11(q) * v.y + R12(q) * v.z,
              R20(q) * v.x + R21(q) * v.y + R22(q) * v.z)
  }

  /* The entries on the diagonal before the length is taken to be one. */

  function W00(q: Poses.Quaternion): real { q.w * q.w + q.x * q.x - q.y * q.y - q.z * q.z }
  function W11(q: Poses.Quaternion): real { q.w * q.w - q.x * q.x + q.y * q.y - q.z * q.z }
  function W22(q: Poses.Quaternion): real { q.w * q.w - q.x * q.x - q.y * q.y + q.z * q.z }

  lemma Product(a: real, b: real, u: real, v: real)
    requires a == b && u == v
    ensures a * u == b * v
  {
  }

  lemma Half(q: Poses.Quaternion, v: Vec)
    ensures var m := Poses.Multiply(q, Poses.Pure(v));
      && m.w == -(q.x * v.x) - q.y * v.y - q.z * v.z && m.x == q.w * v.x + q.y * v.z - q.z * v.y
      && m.y == q.w * v.y - q.x * v.z + q.z * v.x && m.z == q.w * v.z + q.x * v.y - q.y * v.x
  {
  }

  lemma Formulas(q: Poses.Quaternion)
    ensures W00(q) == q.w * q.w + q.x * q.x - q.y * q.y - q.z * q.z && W11(q) == q.w * q.w - q.x * q.x + q.y * q.y - q.z * q.z
    ensures W22(q) == q.w * q.w - q.x * q.x - q.y * q.y + q.z * q.z
    ensures R10(q) == 2.0 * (q.x * q.y + q.w * q.z) && R01(q) == 2.0 * (q.x * q.y - q.w * q.z)
    ensures R20(q) == 2.0 * (q.x * q.z - q.w * q.y) && R02(q) == 2.0 * (q.x * q.z + q.w * q.y)
    ensures R21(q) == 2.0 * (q.y * q.z + q.w * q.x) && R12(q) == 2.0 * (q.y * q.z - q.w * q.x)
  {
  }

  lemma SumX(mx: real, my: real, mz: real, mw: real, cx: real, cy: real, cz: real, cw: real,
             r0: real, r1: real, r2: real, x: real, y: real, z: real, w: real, a: real, b: real, c: real)
    requires mw == -(x * a) - y * b - z * c && mx == w * a + y * c - z * b && my == w * b - x * c + z * a && mz == w * c + x * b - y * a
    requires cx == -x && cy == -y && cz == -z && cw == w
    requires r0 == w * w + x * x - y * y - z * z && r1 == 2.0 * (x * y - w * z) && r2 == 2.0 * (x * z + w * y)
    ensures mw * cx + mx * cw + my * cz - mz * cy == r0 * a + r1 * b + r2 * c
  {
    Product(mw, -(x * a) - y * b - z * c, cx, -x);
    Product(mx, w * a + y * c - z * b, cw, w);
    Product(my, w * b - x * c + z * a, cz, -z);
    Product(mz, w * c + x * b - y * a, cy, -y);
    Product(r0, w * w + x * x - y * y - z * z, a, a);
    Product(r1, 2.0 * (x * y - w * z), b, b);
    Product(r2, 2.0 * (x * z + w * y), c, c);
  }

  lemma WideX(q: Poses.Quaternion, v: Vec)
    ensures Poses.MulX(Poses.Multiply(q, Poses.Pure(v)), Poses.Conjugate(q)) == W00(q) * v.x + R01(q) * v.y + R02(q) * v.z
  {
    hide Poses.Multiply, Poses.Pure, R00, R01, R02, R10, R11, R12, R20, R21, R22, W00, W11, W22;
    var m, c := Poses.Multiply(q, Poses.Pure(v)), Poses.Conjugate(q);
    Half(q, v);
    Formulas(q);
    SumX(m.x, m.y, m.z, m.w, c.x, c.y, c.z, c.w, W00(q), R01(q), R02(q), q.x, q.y, q.z, q.w, v.x, v.y, v.z);
  }

  lemma SumY(mx: real, my: real, mz: real, mw: real, cx: real, cy: real, cz: real, cw: real,
             r0: real, r1: real, r2: real, x: real, y: real, z: real, w: real, a: real, b: real, c: real)
    requires mw == -(x * a) - y * b - z * c && mx == w * a + y * c - z * b && my == w * b - x * c + z * a && mz == w * c + x * b - y * a
    requires cx == -x && cy == -y && cz == -z && cw == w
    requires r0 == 2.0 * (x * y + w * z) && r1 == w * w - x * x + y * y - z * z && r2 == 2.0 * (y * z - w * x)
    ensures mw * cy - mx * cz + my * cw + mz * cx == r0 * a + r1 * b + r2 * c
  {
    Product(mw, -(x * a) - y * b - z * c, cy, -y);
    Product(mx, w * a + y * c - z * b, cz, -z);
    Product(my, w * b - x * c + z * a, cw, w);
    Product(mz, w * c + x * b - y * a, cx, -x);
    Product(r0, 2.0 * (x * y + w * z), a, a);
    Product(r1, w * w - x * x + y * y - z * z, b, b);
    Product(r2, 2.0 * (y * z - w * x), c, c);
  }

  lemma WideY(q: Poses.Quaternion, v: Vec)
    ensures Poses.MulY(Poses.Multiply(q, Poses.Pure(v)), Poses.Conjugate(q)) == R10(q) * v.x + W11(q) * v.y + R12(q) * v.z
  {
    hide Poses.Multiply, Poses.Pure, R00, R01, R02, R10, R11, R12, R20, R21, R22, W00, W11, W22;
    var m, c := Poses.Multiply(q, Poses.Pure(v)), Poses.Conjugate(q);
    Half(q, v);
    Formulas(q);
    SumY(m.x, m.y, m.z, m.w, c.x, c.y, c.z, c.w, R10(q), W11(q), R12(q), q.x, q.y, q.z, q.w, v.x, v.y, v.z);
  }

  lemma SumZ(mx: real, my: real, mz: real, mw: real, cx: real, cy: real, cz: real, cw: real,
             r0: real, r1: real, r2: real, x: real, y: real, z: real, w: real, a: real, b: real, c: real)
    requires mw == -(x * a) - y * b - z * c && mx == w * a + y * c - z * b && my == w * b - x * c + z * a && mz == w * c + x * b - y * a
    requires cx == -x && cy == -y && cz == -z && cw == w
    requires r0 == 2.0 * (x * z - w * y) && r1 == 2.0 * (y * z + w * x) && r2 == w * w - x * x - y * y + z * z
    ensures mw * cz + mx * cy - my * cx + mz * cw == r0 * a + r1 * b + r2 * c
  {
    Product(mw, -(x * a) - y * b - z * c, cz, -z);
    Product(mx, w * a + y * c - z * b, cy, -y);
    Product(my, w * b - x * c + z * a, cx, -x);
    Product(mz, w * c + x * b - y * a, cw, w);
    Product(r0, 2.0 * (x * z - w * y), a, a);
    Product(r1, 2.0 * (y * z + w * x), b, b);
    Product(r2, w * w - x * x - y * y + z * z, c, c);
  }

  lemma WideZ(q: Poses.Quaternion, v: Vec)
    ensures Poses.MulZ(Poses.Multiply(q, Poses.Pure(v)), Poses.Conjugate(q)) == R20(q) * v.x + R21(q) * v.y + W22(q) * v.z
  {
    hide Poses.Multiply, Poses.Pure, R00, R01, R02, R10, R11, R12, R20, R21, R22, W00, W11, W22;
    var m, c := Poses.Multiply(q, Poses.Pure(v)), Poses.Conjugate(q);
    Half(q, v);
    Formulas(q);
    SumZ(m.x, m.y, m.z, m.w, c.x, c.y, c.z, c.w, R20(q), R21(q), W22(q), q.x, q.y, q.z, q.w, v.x, v.y, v.z);
  }

  lemma Narrow(q: Poses.Quaternion)
    requires Poses.Unit(q)
    ensures W00(q) == R00(q) && W11(q) == R11(q) && W22(q) == R22(q)
  {
  }

  /** The rotation of a vector by a unit quaternion, multiplied out. */
  lemma TurnIsRotate(q: Poses.Quaternion, v: Vec)
    requires Poses.Unit(q)
    ensures Poses.Rotate(v, q) == Turn(q, v)
  {
    hide Poses.Rotate, Poses.Unit, Poses.Norm, Poses.MulX, Poses.MulY, Poses.MulZ, Poses.MulW, Poses.Multiply, Poses.Conjugate;
    hide R00, R01, R02, R10, R11, R12, R20, R21, R22, W00, W11, W22;
    Poses.RotateIsTurned(v, q);
    Poses.Coordinates(Poses.Multiply(q, Poses.Pure(v)), Poses.Conjugate(q));
    WideX(q, v); WideY(q, v); WideZ(q, v);
    Narrow(q);
  }

  lemma Regroup(a: real, b: real, c: real, s: Vec, p: Vec, m0: real, m1: real, m2: real, u: real, v: real, w: real)
    requires m0 == a * s.x && m1 == b * s.y && m2 == c * s.z && u == s.x * p.x && v == s.y * p.y && w == s.z * p.z
    ensures m0 * p.x + m1 * p.y + m2 * p.z == a * u + b * v + c * w
  {
    Product(m0, a * s.x, p.x, p.x); Product(m1, b * s.y, p.y, p.y); Product(m2, c * s.z, p.z, p.z);
    Product(a, a, u, s.x * p.x); Product(b, b, v, s.y * p.y); Product(c, c, w, s.z * p.z);
  }

  lemma Entries(t: Transform)
    ensures var m, q, s := AssetTransformMatrix(t), t.quaternion, t.scale;
      && Affine(m)
      && m[0] == R00(q) * s.x && m[4] == R01(q) * s.y && m[8] == R02(q) * s.z && m[12] == t.position.x
      && m[1] == R10(q) * s.x && m[5] == R11(q) * s.y && m[9] == R12(q) * s.z && m[13] == t.position.y
      && m[2] == R20(q) * s.x && m[6] == R21(q) * s.y && m[10] == R22(q) * s.z && m[14] == t.position.z
  {
    hide R00, R01, R02, R10, R11, R12, R20, R21, R22;
  }

  lemma MatrixTurns(t: Transform, p: Vec)
    ensures Affine(AssetTransformMatrix(t))
    ensures Place(AssetTransformMatrix(t), p) == Moved(Turn(t.quaternion, Scaled(p, t.scale)), t.position)
  {
    hide AssetTransformMatrix, Affine, R00, R01, R02, R10, R11, R12, R20, R21, R22;
    var q, m, v := t.quaternion, AssetTransformMatrix(t), Scaled(p, t.scale);
    Entries(t);
    Regroup(R00(q), R01(q), R02(q), t.scale, p, m[0], m[4], m[8], v.x, v.y, v.z);
    Regroup(R10(q), R11(q), R12(q), t.scale, p, m[1], m[5], m[9], v.x, v.y, v.z);
    Regroup(R20(q), R21(q), R22(q), t.scale, p, m[2], m[6], m[10], v.x, v.y, v.z);
  }

  /** The matrix of a transform scales a point, rotates it by the quaternion, and then moves it. */
  lemma TransformPlaces(t: Transform, p: Vec)
    requires Poses.Unit(t.quaternion)
    ensures Affine(AssetTransformMatrix(t))
    ensures Place(AssetTransformMatrix(t), p) == Moved(Poses.Rotate(Scaled(p, t.scale), t.quaternion), t.position)
  {
    hide AssetTransformMatrix, Place, Turn, Poses.Rotate, Affine;
    MatrixTurns(t, p);
    TurnIsRotate(t.quaternion, Scaled(p, t.scale));
  }

  /** The normalization takes the pivot to the origin, scales to metres and turns the asset upright. */
  lemma NormalizationPlaces(metersPerUnit: real, orientation: Poses.Quaternion, pivot: Vec, p: Vec)
    requires Poses.Unit(orientation)
    ensures Place(NormalizationMatrix(metersPerUnit, orientation, pivot), p)
      == Moved(Poses.Rotate(Scaled(Moved(Vec(p.x, p.y, p.z), Vec(-pivot.x, -pivot.y, -pivot.z)), Vec(metersPerUnit, metersPerUnit, metersPerUnit)), orientation),
               Vec(0.0, 0.0, 0.0))
  {
    hide AssetTransformMatrix, Poses.Rotate, Scaled;
    var turn := AssetTransformMatrix(Transform(Vec(0.0, 0.0, 0.0), orientation, Vec(metersPerUnit, metersPerUnit, metersPerUnit)));
    var shift: Matrix := Identity()[12 := -pivot.x][13 := -pivot.y][14 := -pivot.z];
    PlaceTwice(turn, shift, p);
    ShiftPlaces(pivot, p);
    TransformPlaces(Transform(Vec(0.0, 0.0, 0.0), orientation, Vec(metersPerUnit, metersPerUnit, metersPerUnit)), Place(shift, p));
  }

  lemma ShiftPlaces(pivot: Vec, p: Vec)
    ensures var shift: Matrix := Identity()[12 := -pivot.x][13 := -pivot.y][14 := -pivot.z];
      Affine(shift) && Place(shift, p) == Moved(Vec(p.x, p.y, p.z), Vec(-pivot.x, -pivot.y, -pivot.z))
  {
  }
}
