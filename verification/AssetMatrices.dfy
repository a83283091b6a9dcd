/** Column-major matrices of four rows, and the placement of parts along the hierarchy. */
module AssetMatrices {
  import opened Hierarchy
  import opened Reals

  type Matrix = m: seq<real> | |m| == 16 witness seq(16, _ => 0.0)

  /** The first n terms of row times column. */
  function Dot(a: Matrix, b: Matrix, row: nat, column: nat, n: nat): real
    requires row < 4 && column < 4 && n <= 4
  {
    if n == 0 then 0.0 else Dot(a, b, row, column, n - 1) + a[(n - 1) * 4 + row] * b[column * 4 + (n - 1)]
  }

  function Times(a: Matrix, b: Matrix): Matrix {
    seq(16, t requires 0 <= t < 16 => Dot(a, b, t % 4, t / 4, 4))
  }

  /** The product, summed up in place. */
  method MultiplyAssetMatrices(a: Matrix, b: Matrix) returns (result: array<real>)
    ensures fresh(result) && result.Length == 16 && result[..] == Times(a, b)
  {
    hide Dot, Times, Summed;
    result := new real[16](_ => 0.0);
    NothingSummed(result[..], a, b);
    var column := 0;
    while column < 4
      invariant 0 <= column <= 4 && Summed(result[..], a, b, column * 4)
    {
      var row := 0;
      while row < 4
        invariant 0 <= row <= 4 && Summed(result[..], a, b, column * 4 + row)
      {
        var inner := 0;
        var at := column * 4 + row;
        ghost var was := result[..];
        NextIsZero(was, a, b, row, column);
        while inner < 4
          invariant 0 <= inner <= 4 && result[..] == was[at := Dot(a, b, row, column, inner)]
        {
          NextTerm(a, b, row, column, inner);
          result[at] := result[at] + a[inner * 4 + row] * b[column * 4 + inner];
          inner := inner + 1;
        }
        OneMoreSummed(was, result[..], a, b, row, column);
        row := row + 1;
      }
      column := column + 1;
    }
    AllSummed(result[..], a, b);
  }

  /** The first entries are those of the product, the others still zero. */
  predicate Summed(m: seq<real>, a: Matrix, b: Matrix, n: int) {
    |m| == 16 && forall t :: 0 <= t < 16 ==> m[t] == if t < n then Dot(a, b, t % 4, t / 4, 4) else 0.0
  }

  lemma NothingSummed(m: seq<real>, a: Matrix, b: Matrix)
    requires |m| == 16 && forall t :: 0 <= t < 16 ==> m[t] == 0.0
    ensures Summed(m, a, b, 0)
  {
  }

  lemma NextIsZero(m: seq<real>, a: Matrix, b: Matrix, row: nat, column: nat)
    requires row < 4 && column < 4 && Summed(m, a, b, column * 4 + row)
    ensures |m| == 16 && m[column * 4 + row] == Dot(a, b, row, column, 0)
  {
  }

  lemma OneMoreSummed(was: seq<real>, m: seq<real>, a: Matrix, b: Matrix, row: nat, column: nat)
    requires row < 4 && column < 4 && |was| == 16 && Summed(was, a, b, column * 4 + row)
    requires m == was[column * 4 + row := Dot(a, b, row, column, 4)]
    ensures Summed(m, a, b, column * 4 + row + 1)
  {
    hide Dot;
    assert (column * 4 + row) % 4 == row && (column * 4 + row) / 4 == column;
  }

  lemma AllSummed(m: seq<real>, a: Matrix, b: Matrix)
    requires Summed(m, a, b, 16)
    ensures m == Times(a, b)
  {
    hide Dot;
  }

  lemma NoTerms(a: Matrix, b: Matrix, row: nat, column: nat)
    requires row < 4 && column < 4
    ensures Dot(a, b, row, column, 0) == 0.0
  {
  }

  lemma NextTerm(a: Matrix, b: Matrix, row: nat, column: nat, inner: nat)
    requires row < 4 && column < 4 && inner < 4
    ensures Dot(a, b, row, column, inner + 1) == Dot(a, b, row, column, inner) + a[inner * 4 + row] * b[column * 4 + inner]
  {
  }

  /** The last row is that of a motion of space: it leaves points points. */
  predicate Affine(m: Matrix) {
    m[3] == 0.0 && m[7] == 0.0 && m[11] == 0.0 && m[15] == 1.0
  }

  function Place(m: Matrix, p: Vec): Vec {
    Vec(m[0] * p.x + m[4] * p.y + m[8] * p.z + m[12],
        m[1] * p.x + m[5] * p.y + m[9] * p.z + m[13],
        m[2] * p.x + m[6] * p.y + m[10] * p.z + m[14])
  }

  function Dot4(a0: real, a1: real, a2: real, a3: real, b0: real, b1: real, b2: real, b3: real): real {
    a0 * b0 + a1 * b1 + a2 * b2 + a3 * b3
  }

  lemma Entry(a: Matrix, b: Matrix, row: nat, column: nat)
    requires row < 4 && column < 4
    ensures Times(a, b)[column * 4 + row]
      == Dot4(a[row], a[4 + row], a[8 + row], a[12 + row], b[column * 4], b[column * 4 + 1], b[column * 4 + 2], b[column * 4 + 3])
  {
    hide Dot;
    assert (column * 4 + row) % 4 == row && (column * 4 + row) / 4 == column;
    NoTerms(a, b, row, column);
    NextTerm(a, b, row, column, 0); NextTerm(a, b, row, column, 1); NextTerm(a, b, row, column, 2); NextTerm(a, b, row, column, 3);
  }

  lemma TimesAffine(a: Matrix, b: Matrix)
    requires Affine(a) && Affine(b)
    ensures Affine(Times(a, b))
  {
    Entry(a, b, 3, 0); Entry(a, b, 3, 1); Entry(a, b, 3, 2); Entry(a, b, 3, 3);
  }

  /** One coordinate of a placed point, from the entries of a row. */
  function Along(m0: real, m1: real, m2: real, m3: real, p: Vec): real { m0 * p.x + m1 * p.y + m2 * p.z + m3 }

  function InRow(m: Matrix, row: nat, p: Vec): real
    requires row < 4
  {
    Along(m[row], m[4 + row], m[8 + row], m[12 + row], p)
  }

  lemma PlaceIsRows(m: Matrix, p: Vec)
    ensures Place(m, p) == Vec(InRow(m, 0, p), InRow(m, 1, p), InRow(m, 2, p))
  {
  }

  lemma Congruent(a: real, b: real, u: real)
    requires a == b
    ensures a * u == b * u
  {
  }

  function Prod(x: real, y: real): real { x * y }

  lemma DistributeOver(a0: real, a1: real, a2: real, a3: real, b0: real, b1: real, b2: real, b4: real, b5: real, b6: real,
                       b8: real, b9: real, b10: real, b12: real, b13: real, b14: real, x: real, y: real, z: real,
                       m0: real, m1: real, m2: real, m3: real, u: real, v: real, w: real)
    requires m0 == Prod(a0, b0) + Prod(a1, b1) + Prod(a2, b2)
    requires m1 == Prod(a0, b4) + Prod(a1, b5) + Prod(a2, b6)
    requires m2 == Prod(a0, b8) + Prod(a1, b9) + Prod(a2, b10)
    requires m3 == Prod(a0, b12) + Prod(a1, b13) + Prod(a2, b14) + a3
    requires u == Prod(b0, x) + Prod(b4, y) + Prod(b8, z) + b12
    requires v == Prod(b1, x) + Prod(b5, y) + Prod(b9, z) + b13
    requires w == Prod(b2, x) + Prod(b6, y) + Prod(b10, z) + b14
    ensures Prod(m0, x) + Prod(m1, y) + Prod(m2, z) + m3 == Prod(a0, u) + Prod(a1, v) + Prod(a2, w) + a3
  {
    Congruent(m0, a0 * b0 + a1 * b1 + a2 * b2, x);
    Congruent(m1, a0 * b4 + a1 * b5 + a2 * b6, y);
    Congruent(m2, a0 * b8 + a1 * b9 + a2 * b10, z);
    Congruent(u, b0 * x + b4 * y + b8 * z + b12, a0);
    Congruent(v, b1 * x + b5 * y + b9 * z + b13, a1);
    Congruent(w, b2 * x + b6 * y + b10 * z + b14, a2);
  }

  lemma DotEnds(a0: real, a1: real, a2: real, a3: real, b0: real, b1: real, b2: real)
    ensures Dot4(a0, a1, a2, a3, b0, b1, b2, 0.0) == Prod(a0, b0) + Prod(a1, b1) + Prod(a2, b2)
    ensures Dot4(a0, a1, a2, a3, b0, b1, b2, 1.0) == Prod(a0, b0) + Prod(a1, b1) + Prod(a2, b2) + a3
  {
  }

  lemma AlongIs(m0: real, m1: real, m2: real, m3: real, p: Vec)
    ensures Along(m0, m1, m2, m3, p) == Prod(m0, p.x) + Prod(m1, p.y) + Prod(m2, p.z) + m3
  {
  }

  lemma Distribute(a0: real, a1: real, a2: real, a3: real, b: Matrix, p: Vec)
    ensures Along(Dot4(a0, a1, a2, a3, b[0], b[1], b[2], 0.0), Dot4(a0, a1, a2, a3, b[4], b[5], b[6], 0.0),
                  Dot4(a0, a1, a2, a3, b[8], b[9], b[10], 0.0), Dot4(a0, a1, a2, a3, b[12], b[13], b[14], 1.0), p)
      == Along(a0, a1, a2, a3, Vec(Along(b[0], b[4], b[8], b[12], p), Along(b[1], b[5], b[9], b[13], p), Along(b[2], b[6], b[10], b[14], p)))
  {
    hide Dot4, Along, Prod;
    AlongIs(b[0], b[4], b[8], b[12], p); AlongIs(b[1], b[5], b[9], b[13], p); AlongIs(b[2], b[6], b[10], b[14], p);
    AlongIs(a0, a1, a2, a3, Vec(Along(b[0], b[4], b[8], b[12], p), Along(b[1], b[5], b[9], b[13], p), Along(b[2], b[6], b[10], b[14], p)));
    AlongIs(Dot4(a0, a1, a2, a3, b[0], b[1], b[2], 0.0), Dot4(a0, a1, a2, a3, b[4], b[5], b[6], 0.0),
      Dot4(a0, a1, a2, a3, b[8], b[9], b[10], 0.0), Dot4(a0, a1, a2, a3, b[12], b[13], b[14], 1.0), p);
    DotEnds(a0, a1, a2, a3, b[0], b[1], b[2]); DotEnds(a0, a1, a2, a3, b[4], b[5], b[6]);
    DotEnds(a0, a1, a2, a3, b[8], b[9], b[10]); DotEnds(a0, a1, a2, a3, b[12], b[13], b[14]);
    DistributeOver(a0, a1, a2, a3, b[0], b[1], b[2], b[4], b[5], b[6], b[8], b[9], b[10], b[12], b[13], b[14], p.x, p.y, p.z,
      Dot4(a0, a1, a2, a3, b[0], b[1], b[2], 0.0), Dot4(a0, a1, a2, a3, b[4], b[5], b[6], 0.0),
      Dot4(a0, a1, a2, a3, b[8], b[9], b[10], 0.0), Dot4(a0, a1, a2, a3, b[12], b[13], b[14], 1.0),
      Along(b[0], b[4], b[8], b[12], p), Along(b[1], b[5], b[9], b[13], p), Along(b[2], b[6], b[10], b[14], p));
  }

  lemma PlaceRow(a: Matrix, b: Matrix, row: nat, p: Vec)
    requires row < 4 && Affine(b)
    ensures InRow(Times(a, b), row, p) == InRow(a, row, Place(b, p))
  {
    hide Along, Dot4, Times, Place;
    Entry(a, b, row, 0); Entry(a, b, row, 1); Entry(a, b, row, 2); Entry(a, b, row, 3);
    Distribute(a[row], a[4 + row], a[8 + row], a[12 + row], b, p);
    PlaceIsRows(b, p);
  }

  /** The product moves a point as its factors do, the right one first. */
  lemma PlaceTwice(a: Matrix, b: Matrix, p: Vec)
    requires Affine(b)
    ensures Place(Times(a, b), p) == Place(a, Place(b, p))
  {
    hide Times, Place, InRow, Affine;
    PlaceRow(a, b, 0, p); PlaceRow(a, b, 1, p); PlaceRow(a, b, 2, p);
    PlaceIsRows(Times(a, b), p); PlaceIsRows(a, Place(b, p));
  }

  /* ---------- the matrices of the parts ---------- */

  type MPart = Part<Matrix>

  function Identity(): Matrix {
    [1.0, 0.0, 0.0, 0.0, 0.0, 1.0, 0.0, 0.0, 0.0, 0.0, 1.0, 0.0, 0.0, 0.0, 0.0, 1.0]
  }

  function Local(parts: seq<MPart>, id: Id): Matrix {
    var i := Find(parts, id); if i == -1 then Identity() else parts[i].local
  }

  /** The product of the local matrices down the chain of ancestors, of which at most n are looked at. */
  function Global(parts: seq<MPart>, id: Id, n: nat): Matrix
    decreases n
  {
    if n <= 1 || Up(parts, id) == "" then Local(parts, id) else Times(Global(parts, Up(parts, id), n - 1), Local(parts, id))
  }

  /** A point carried through the local matrices of the part and of its ancestors in turn. */
  function Carried(parts: seq<MPart>, id: Id, n: nat, p: Vec): Vec
    decreases n
  {
    if n == 0 || id == "" then p else Carried(parts, Up(parts, id), n - 1, Place(Local(parts, id), p))
  }

  /** The n-th ancestor is the parent's one before. */
  lemma AboveFirst(parts: seq<MPart>, id: Id, n: nat)
    requires n > 0
    ensures Above(parts, id, n) == Above(parts, Up(parts, id), n - 1)
  {
    AboveAdds(parts, id, 1, n - 1);
    assert Above(parts, id, 1) == Up(parts, Above(parts, id, 0));
  }

  lemma AboveNone(parts: seq<MPart>, id: Id, n: nat)
    requires id != "" && Above(parts, id, n) == ""
    ensures n > 0
  {
  }

  /** How far one looks beyond the end of the chain makes no difference. */
  lemma {:induction false} GlobalIsOne(parts: seq<MPart>, id: Id, m: nat, n: nat)
    requires m > 0 && n > 0 && Above(parts, id, m) == "" && Above(parts, id, n) == ""
    ensures Global(parts, id, m) == Global(parts, id, n)
    decreases m
  {
    hide Above, Times, Up;
    var up := Up(parts, id);
    AboveFirst(parts, id, m);
    AboveFirst(parts, id, n);
    if up != "" {
      AboveNone(parts, up, m - 1);
      AboveNone(parts, up, n - 1);
      GlobalIsOne(parts, up, m - 1, n - 1);
    }
  }

  ghost predicate AllAffine(parts: seq<MPart>) {
    forall i :: 0 <= i < |parts| ==> Affine(parts[i].local)
  }

  /** The global matrix of a part carries a point through all local matrices of its chain. */
  lemma {:induction false} GlobalCarries(parts: seq<MPart>, id: Id, n: nat, p: Vec)
    requires AllAffine(parts) && id != "" && n > 0 && Above(parts, id, n) == ""
    ensures Affine(Global(parts, id, n)) && Place(Global(parts, id, n), p) == Carried(parts, id, n, p)
    decreases n
  {
    var up, local := Up(parts, id), Local(parts, id);
    assert Affine(local);
    AboveFirst(parts, id, n);
    hide Above, Times, Affine, Place, Up, Local;
    if up == "" {
      assert Carried(parts, id, n, p) == Carried(parts, "", n - 1, Place(local, p));
    } else {
      AboveNone(parts, up, n - 1);
      GlobalCarries(parts, up, n - 1, Place(local, p));
      PlaceTwice(Global(parts, up, n - 1), local, p);
      TimesAffine(Global(parts, up, n - 1), local);
    }
  }

  /* ---------- the memo ---------- */

  /** The matrix is the global one of the part. */
  ghost predicate IsGlobal(parts: seq<MPart>, id: Id, matrix: Matrix) {
    forall n: nat :: n > 0 && Above(parts, id, n) == "" ==> matrix == Global(parts, id, n)
  }

  ghost predicate Noted(parts: seq<MPart>, memo: map<Id, Matrix>) {
    forall id :: id in memo ==> IsGlobal(parts, id, memo[id])
  }

  /** A part without a parent is placed by its own matrix, any other below its parent. */
  lemma GlobalOfPart(parts: seq<MPart>, index: nat, above: Matrix)
    requires UniqueParts(parts) && index < |parts| && (parts[index].parent != "" ==> IsGlobal(parts, parts[index].parent, above))
    ensures IsGlobal(parts, parts[index].id, if parts[index].parent == "" then parts[index].local else Times(above, parts[index].local))
  {
    var part := parts[index];
    LookedUp(parts, index);
    hide Above, Times, Up, Local, UniqueParts;
    forall n: nat | n > 0 && Above(parts, part.id, n) == ""
      ensures Global(parts, part.id, n) == if part.parent == "" then part.local else Times(above, part.local)
    {
      AboveFirst(parts, part.id, n);
      if part.parent != "" { AboveNone(parts, part.parent, n - 1); }
    }
  }

  lemma LookedUp(parts: seq<MPart>, index: nat)
    requires UniqueParts(parts) && index < |parts|
    ensures Up(parts, parts[index].id) == parts[index].parent && Local(parts, parts[index].id) == parts[index].local
  {
    FindIs(parts, index);
  }

  lemma ParentEnds(parts: seq<MPart>, index: nat, end: nat)
    requires UniqueParts(parts) && index < |parts| && Above(parts, parts[index].id, end) == ""
    ensures end > 0 && Above(parts, parts[index].parent, end - 1) == ""
  {
    FindIs(parts, index);
    AboveNone(parts, parts[index].id, end);
    AboveFirst(parts, parts[index].id, end);
  }

  lemma ParentIsPart(parts: seq<MPart>, index: nat)
    requires ParentsExist(parts) && index < |parts| && parts[index].parent != ""
    ensures var i := Find(parts, parts[index].parent); i >= 0 && parts[i].id == parts[index].parent
  {
  }

  method Visit(parts: seq<MPart>, index: nat, memo: map<Id, Matrix>, ghost end: nat) returns (matrix: Matrix, noted: map<Id, Matrix>)
    requires UniqueParts(parts) && ParentsExist(parts) && Noted(parts, memo) && index < |parts|
    requires Above(parts, parts[index].id, end) == ""
    ensures Noted(parts, noted) && noted.Keys >= memo.Keys + {parts[index].id} && noted.Keys <= memo.Keys + Ids(parts)
    ensures matrix == noted[parts[index].id]
    decreases end
  {
    hide Up, Times, Above, Local, IsGlobal, Global, UniqueParts, ParentsExist;
    var part := parts[index];
    if part.id in memo { return memo[part.id], memo; }
    ParentEnds(parts, index, end);
    noted := memo;
    var above := part.local;
    if part.parent != "" {
      ParentIsPart(parts, index);
      above, noted := Visit(parts, Find(parts, part.parent), memo, end - 1);
      var product := MultiplyAssetMatrices(above, part.local);
      matrix := product[..];
    } else {
      matrix := part.local;
    }
    GlobalOfPart(parts, index, above);
    noted := noted[part.id := matrix];
  }

  /** The matrices of all parts, under the normalization of the whole asset. */
  method PartMatrices(parts: seq<MPart>, root: Matrix) returns (matrices: map<Id, Matrix>)
    requires UniqueParts(parts) && ParentsExist(parts) && WellFounded(parts)
    ensures matrices.Keys == Ids(parts)
    ensures forall id, n: nat :: id in matrices && n > 0 && Above(parts, id, n) == "" ==> matrices[id] == Times(root, Global(parts, id, n))
  {
    hide Times, Above, Global, IsGlobal, UniqueParts, ParentsExist;
    var memo: map<Id, Matrix> := map[];
    var index := 0;
    while index < |parts|
      invariant 0 <= index <= |parts| && Noted(parts, memo) && memo.Keys <= Ids(parts)
      invariant forall i :: 0 <= i < index ==> parts[i].id in memo
    {
      ghost var end: nat :| Above(parts, parts[index].id, end) == "";
      var matrix;
      matrix, memo := Visit(parts, index, memo, end);
      index := index + 1;
    }
    matrices := map id | id in memo :: Times(root, memo[id]);
    NotedAre(parts, memo);
  }

  lemma NotedAre(parts: seq<MPart>, memo: map<Id, Matrix>)
    requires Noted(parts, memo)
    ensures forall id, n: nat :: id in memo && n > 0 && Above(parts, id, n) == "" ==> memo[id] == Global(parts, id, n)
  {
    hide Above, Global;
  }

  /* ---------- main results ---------- */

  /** The matrix of a part moves every point through its own local matrix, those of its ancestors, and the normalization. */
  lemma MatrixIsChain(parts: seq<MPart>, root: Matrix, id: Id, n: nat, p: Vec)
    requires AllAffine(parts) && id != "" && n > 0 && Above(parts, id, n) == ""
    ensures Place(Times(root, Global(parts, id, n)), p) == Place(root, Carried(parts, id, n, p))
  {
    GlobalCarries(parts, id, n, p);
    PlaceTwice(root, Global(parts, id, n), p);
  }

  ghost predicate SameParts(parts: seq<MPart>, other: seq<MPart>) {
    forall part :: part in parts <==> part in other
  }

  lemma SameLookup(parts: seq<MPart>, other: seq<MPart>, id: Id)
    requires UniqueParts(parts) && UniqueParts(other) && SameParts(parts, other)
    ensures Up(parts, id) == Up(other, id) && Local(parts, id) == Local(other, id)
  {
    var i, j := Find(parts, id), Find(other, id);
    if i != -1 {
      assert parts[i] in other;
      var k :| 0 <= k < |other| && other[k] == parts[i];
      FindIs(other, k);
    } else {
      forall k | 0 <= k < |other| ensures other[k].id != id { assert other[k] in parts; }
    }
  }

  /** The matrices do not depend on the order in which the parts are listed. */
  lemma {:induction false} OrderDoesNotMatter(parts: seq<MPart>, other: seq<MPart>, id: Id, n: nat)
    requires UniqueParts(parts) && UniqueParts(other) && SameParts(parts, other)
    ensures Global(parts, id, n) == Global(other, id, n) && Above(parts, id, n) == Above(other, id, n)
    decreases n
  {
    hide Times, Up, Local;
    SameLookup(parts, other, id);
    if n > 0 {
      OrderDoesNotMatter(parts, other, id, n - 1);
      SameLookup(parts, other, Above(parts, id, n - 1));
      OrderDoesNotMatter(parts, other, Up(parts, id), n - 1);
    }
  }
}
