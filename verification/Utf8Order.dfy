/** Comparison of strings by their UTF-8 bytes, which is comparison by code points. */
module Utf8Order {
  import opened Bytes

  /** A Unicode scalar value: a code point that is no surrogate. */
  type Scalar = c: int | 0 <= c < 0xD800 || 0xE000 <= c < 0x110000

  /** The octets of one scalar value, as in section 3 of RFC 3629. */
  function Encode(c: Scalar): seq<Byte> {
    if c < 0x80 then [c]
    else if c < 0x800 then [0xC0 + c / 0x40, 0x80 + c % 0x40]
    else if c < 0x10000 then [0xE0 + c / 0x1000, 0x80 + c / 0x40 % 0x40, 0x80 + c % 0x40]
    else [0xF0 + c / 0x40000, 0x80 + c / 0x1000 % 0x40, 0x80 + c / 0x40 % 0x40, 0x80 + c % 0x40]
  }

  function EncodeAll(s: seq<Scalar>): seq<Byte> {
    if s == [] then [] else Encode(s[0]) + EncodeAll(s[1..])
  }

  /** Lexicographic comparison: the first difference decides, else the length. */
  function Lexicographic(a: seq<int>, b: seq<int>): int {
    if a == [] || b == [] then |a| - |b|
    else if a[0] != b[0] then a[0] - b[0]
    else Lexicographic(a[1..], b[1..])
  }

  method CompareUtf8Bytes(left: seq<Byte>, right: seq<Byte>) returns (order: int)
    ensures order == Lexicographic(left, right)
  {
    var length := if |left| < |right| then |left| else |right|;
    var index := 0;
    while index < length
      invariant 0 <= index <= length
      invariant Lexicographic(left, right) == Lexicographic(left[index..], right[index..])
    {
      if left[index] != right[index] { var l: int, r: int := left[index], right[index]; return l - r; }
      assert left[index..][1..] == left[index + 1..] && right[index..][1..] == right[index + 1..];
      index := index + 1;
    }
    return |left| - |right|;
  }

  method CompareUtf8(left: seq<Scalar>, right: seq<Scalar>) returns (r: int)
    ensures Sign(r) == Sign(Lexicographic(left, right))
  {
    r := CompareUtf8Bytes(EncodeAll(left), EncodeAll(right));
    BytesOrderIsCodePointOrder(left, right);
  }

  function Sign(n: int): int { if n < 0 then -1 else if n > 0 then 1 else 0 }

  /* ---------- one scalar value ---------- */

  lemma {:induction false} Prefix(p: seq<int>, a: seq<int>, b: seq<int>)
    ensures Lexicographic(p + a, p + b) == Lexicographic(a, b)
    decreases |p|
  {
    if p == [] { assert p + a == a && p + b == b; }
    else {
      assert (p + a)[1..] == p[1..] + a && (p + b)[1..] == p[1..] + b;
      Prefix(p[1..], a, b);
    }
  }

  /** The first difference is at place k, and it is the smaller octet on the left. */
  predicate DiffersAt(a: seq<int>, b: seq<int>, k: nat) {
    k < |a| && k < |b| && a[..k] == b[..k] && a[k] < b[k]
  }

  lemma Decides(a: seq<int>, b: seq<int>, k: nat, x: seq<int>, y: seq<int>)
    requires DiffersAt(a, b, k)
    ensures Lexicographic(a + x, b + y) < 0
  {
    var p := a[..k];
    assert a + x == p + (a[k..] + x) && b + y == p + (b[k..] + y);
    Prefix(p, a[k..] + x, b[k..] + y);
  }

  lemma Digits(c: nat, d: nat)
    requires c < d
    ensures c / 0x40 < d / 0x40 || (c / 0x40 == d / 0x40 && c % 0x40 < d % 0x40)
    ensures c / 0x40 / 0x40 == c / 0x1000 && c / 0x1000 / 0x40 == c / 0x40000
  {
  }

  lemma TwoOctets(c: Scalar, d: Scalar)
    requires 0x80 <= c < d < 0x800
    ensures exists k: nat :: DiffersAt(Encode(c), Encode(d), k)
  {
    Digits(c, d);
    if c / 0x40 < d / 0x40 { assert DiffersAt(Encode(c), Encode(d), 0); } else { assert DiffersAt(Encode(c), Encode(d), 1); }
  }

  lemma ThreeOctets(c: Scalar, d: Scalar)
    requires 0x800 <= c < d < 0x10000
    ensures exists k: nat :: DiffersAt(Encode(c), Encode(d), k)
  {
    Digits(c, d); Digits(d, d + 1);
    var a, b := Encode(c), Encode(d);
    if c / 0x40 < d / 0x40 { Digits(c / 0x40, d / 0x40); }
    if c / 0x1000 < d / 0x1000 { assert DiffersAt(a, b, 0); }
    else if c / 0x40 < d / 0x40 { assert DiffersAt(a, b, 1); }
    else { assert DiffersAt(a, b, 2); }
  }

  lemma FourOctets(c: Scalar, d: Scalar)
    requires 0x10000 <= c < d
    ensures exists k: nat :: DiffersAt(Encode(c), Encode(d), k)
  {
    Digits(c, d); Digits(d, d + 1);
    var a, b := Encode(c), Encode(d);
    if c / 0x40 < d / 0x40 { Digits(c / 0x40, d / 0x40); }
    if c / 0x1000 < d / 0x1000 { Digits(c / 0x1000, d / 0x1000); }
    if c / 0x40000 < d / 0x40000 { assert DiffersAt(a, b, 0); }
    else if c / 0x1000 < d / 0x1000 { assert DiffersAt(a, b, 1); }
    else if c / 0x40 < d / 0x40 { assert DiffersAt(a, b, 2); }
    else { assert DiffersAt(a, b, 3); }
  }

  /** The octets of a smaller scalar value are smaller at their first difference, which both have. */
  lemma EncodeOrdered(c: Scalar, d: Scalar)
    requires c < d
    ensures exists k: nat :: DiffersAt(Encode(c), Encode(d), k)
  {
    if 0x10000 <= c { FourOctets(c, d); }
    else if 0x800 <= c && d < 0x10000 { ThreeOctets(c, d); }
    else if 0x80 <= c && d < 0x800 { TwoOctets(c, d); }
    else { assert DiffersAt(Encode(c), Encode(d), 0); }
  }

  /* ---------- main results ---------- */

  /** Byte order of the encodings is lexicographic order of the scalar values. */
  lemma {:induction false} BytesOrderIsCodePointOrder(s: seq<Scalar>, t: seq<Scalar>)
    ensures Sign(Lexicographic(EncodeAll(s), EncodeAll(t))) == Sign(Lexicographic(s, t))
    decreases |s|
  {
    if s == [] || t == [] { }
    else if s[0] == t[0] {
      Prefix(Encode(s[0]), EncodeAll(s[1..]), EncodeAll(t[1..]));
      BytesOrderIsCodePointOrder(s[1..], t[1..]);
    } else if s[0] < t[0] {
      EncodeOrdered(s[0], t[0]);
      var k: nat :| DiffersAt(Encode(s[0]), Encode(t[0]), k);
      Decides(Encode(s[0]), Encode(t[0]), k, EncodeAll(s[1..]), EncodeAll(t[1..]));
    } else {
      EncodeOrdered(t[0], s[0]);
      var k: nat :| DiffersAt(Encode(t[0]), Encode(s[0]), k);
      Decides(Encode(t[0]), Encode(s[0]), k, EncodeAll(t[1..]), EncodeAll(s[1..]));
      Antisymmetric(EncodeAll(s), EncodeAll(t));
    }
  }

  lemma {:induction false} Antisymmetric(a: seq<int>, b: seq<int>)
    ensures Lexicographic(a, b) == -Lexicographic(b, a)
    decreases |a|
  {
    if a != [] && b != [] && a[0] == b[0] { Antisymmetric(a[1..], b[1..]); }
  }

  lemma {:induction false} Transitive(a: seq<int>, b: seq<int>, c: seq<int>)
    requires Lexicographic(a, b) < 0 && Lexicographic(b, c) < 0
    ensures Lexicographic(a, c) < 0
    decreases |a|
  {
    if a != [] && b != [] && c != [] && a[0] == b[0] == c[0] { Transitive(a[1..], b[1..], c[1..]); }
  }

  lemma {:induction false} ZeroIsEqual(a: seq<int>, b: seq<int>)
    ensures Lexicographic(a, b) == 0 <==> a == b
    decreases |a|
  {
    if a != [] && b != [] {
      if a[0] == b[0] { ZeroIsEqual(a[1..], b[1..]); }
      assert a == [a[0]] + a[1..] && b == [b[0]] + b[1..];
    }
  }

  /** Comparison by UTF-8 bytes is a strict total order on strings of scalar values. */
  lemma StrictTotalOrder(s: seq<Scalar>, t: seq<Scalar>, u: seq<Scalar>)
    ensures Lexicographic(EncodeAll(s), EncodeAll(t)) == 0 <==> s == t
    ensures Lexicographic(EncodeAll(s), EncodeAll(t)) == -Lexicographic(EncodeAll(t), EncodeAll(s))
    ensures Lexicographic(EncodeAll(s), EncodeAll(t)) < 0 && Lexicographic(EncodeAll(t), EncodeAll(u)) < 0 ==>
      Lexicographic(EncodeAll(s), EncodeAll(u)) < 0
  {
    BytesOrderIsCodePointOrder(s, t);
    ZeroIsEqual(s, t);
    Antisymmetric(EncodeAll(s), EncodeAll(t));
    if Lexicographic(EncodeAll(s), EncodeAll(t)) < 0 && Lexicographic(EncodeAll(t), EncodeAll(u)) < 0 {
      Transitive(EncodeAll(s), EncodeAll(t), EncodeAll(u));
    }
  }

  /** The code units of a scalar value in UTF-16, by which strings compare without this module. */
  function Utf16(c: Scalar): seq<int> {
    if c < 0x10000 then [c] else [0xD800 + (c - 0x10000) / 0x400, 0xDC00 + (c - 0x10000) % 0x400]
  }

  /** The two orders disagree exactly between a scalar value of two code units and one above the surrogates. */
  lemma Utf16DisagreesIff(c: Scalar, d: Scalar)
    requires c < d
    ensures Lexicographic(Encode(c), Encode(d)) < 0
    ensures Lexicographic(Utf16(c), Utf16(d)) > 0 <==> 0xE000 <= c < 0x10000 <= d
  {
    EncodeOrdered(c, d);
    var k: nat :| DiffersAt(Encode(c), Encode(d), k);
    Decides(Encode(c), Encode(d), k, [], []);
    assert Encode(c) + [] == Encode(c) && Encode(d) + [] == Encode(d);
    if c >= 0x10000 && Utf16(c)[0] == Utf16(d)[0] { assert Utf16(c)[1] < Utf16(d)[1]; }
  }

  /* ---------- the octets themselves ---------- */

  /** The octet carries six more bits. */
  predicate Continues(o: int) { 0x80 <= o < 0xC0 }

  /** What an octet holds besides its mark. */
  function Bits(o: int, mark: int): int { o - mark }

  /** The octets of a scalar value: as few as it needs, led by one that says how many they are, and it can be read off them. */
  lemma EncodesIts(c: Scalar)
    ensures var e := Encode(c);
      && |e| == (if c < 0x80 then 1 else if c < 0x800 then 2 else if c < 0x10000 then 3 else 4)
      && (|e| == 1 ==> c == e[0] < 0x80)
      && (|e| == 2 ==> 0xC0 <= e[0] < 0xE0 && Continues(e[1]) && c == Bits(e[0], 0xC0) * 0x40 + Bits(e[1], 0x80))
      && (|e| == 3 ==> 0xE0 <= e[0] < 0xF0 && Continues(e[1]) && Continues(e[2])
                       && c == Bits(e[0], 0xE0) * 0x1000 + Bits(e[1], 0x80) * 0x40 + Bits(e[2], 0x80))
      && (|e| == 4 ==> 0xF0 <= e[0] < 0xF5 && Continues(e[1]) && Continues(e[2]) && Continues(e[3])
                       && c == Bits(e[0], 0xF0) * 0x40000 + Bits(e[1], 0x80) * 0x1000 + Bits(e[2], 0x80) * 0x40 + Bits(e[3], 0x80))
  {
    Digits(c, c + 1);
    assert c == c / 0x40 * 0x40 + c % 0x40;
    assert c / 0x40 == c / 0x1000 * 0x40 + c / 0x40 % 0x40;
    assert c / 0x1000 == c / 0x40000 * 0x40 + c / 0x1000 % 0x40;
  }
}
