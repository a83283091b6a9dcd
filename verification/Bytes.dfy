/** Byte strings, little-endian integers and the text codec as `DataView` and `TextDecoder` see them. */
module Bytes {
  type Byte = x: int | 0 <= x < 256

  /** A string, given by its UTF-8 encoding. */
  type Text = seq<Byte>

  datatype Option<+T> = None | Some(value: T)

  function Pow256(w: nat): (p: nat)
    ensures p >= 1
  {
    if w == 0 then 1 else 256 * Pow256(w - 1)
  }

  /** What `setUintN(_, n, true)` and `setIntN` store: the low `w` bytes of n, whatever its sign or size. */
  function LE(n: int, w: nat): (s: seq<Byte>)
    ensures |s| == w
    decreases w
  {
    if w == 0 then [] else [n % 256] + LE(n / 256, w - 1)
  }

  function FromLE(s: seq<Byte>): nat {
    if s == [] then 0 else s[0] + 256 * FromLE(s[1..])
  }

  function ToSigned(u: int, w: nat): int {
    if 2 * u >= Pow256(w) then u - Pow256(w) else u
  }

  lemma MultipleOf(d: nat, x: int)
    ensures x >= 1 ==> d * x >= d
    ensures x <= -1 ==> d * x <= 0 - d
  {
    if x >= 1 {
      assert d * x == d + d * (x - 1);
    } else if x <= -1 {
      assert d * x == 0 - d + d * (x + 1);
    }
  }

  lemma ModUnique(n: int, d: nat, k: int, r: nat)
    requires r < d && n == d * k + r
    ensures n % d == r && n / d == k
  {
    var k', r' := n / d, n % d;
    assert n == d * k' + r';
    assert d * (k - k') == d * k - d * k';
    MultipleOf(d, k - k');
  }

  lemma ModSplit(n: int, p: nat)
    requires p >= 1
    ensures n % (256 * p) == n % 256 + 256 * ((n / 256) % p)
  {
    var q, r := n / 256, n % 256;
    var k, m := q / p, q % p;
    assert n == 256 * (p * k + m) + r;
    assert 256 * (p * k) == (256 * p) * k;
    ModUnique(n, 256 * p, k, 256 * m + r);
  }

  lemma {:induction false} FromLEofLE(n: int, w: nat)
    ensures FromLE(LE(n, w)) == n % Pow256(w)
    decreases w
  {
    if w == 0 {
    } else {
      FromLEofLE(n / 256, w - 1);
      assert LE(n, w)[1..] == LE(n / 256, w - 1);
      ModSplit(n, Pow256(w - 1));
    }
  }

  lemma {:induction false} FromLEBound(s: seq<Byte>)
    ensures FromLE(s) < Pow256(|s|)
  {
    if s != [] {
      FromLEBound(s[1..]);
    }
  }

  /** The bytes at `off` in b are s. */
  predicate At(b: seq<Byte>, off: nat, s: seq<Byte>) {
    off + |s| <= |b| && b[off..off + |s|] == s
  }

  lemma AtSplit(b: seq<Byte>, off: nat, x: seq<Byte>, y: seq<Byte>)
    requires At(b, off, x + y)
    ensures At(b, off, x) && At(b, off + |x|, y) && off + |x| + |y| <= |b|
  {
    var w := b[off..off + |x + y|];
    assert x == (x + y)[..|x|] == w[..|x|] == b[off..off + |x|];
    assert y == (x + y)[|x|..] == w[|x|..] == b[off + |x|..off + |x| + |y|];
  }

  lemma SliceOfSlice(b: seq<Byte>, i: nat, n: nat, k: nat, m: nat)
    requires i + n <= |b| && k + m <= n
    ensures b[i..i + n][k..k + m] == b[i + k..i + k + m]
  {
    var s, t := b[i..i + n][k..k + m], b[i + k..i + k + m];
    forall x | 0 <= x < m ensures s[x] == t[x] {
      assert b[i..i + n][k + x] == b[i + (k + x)];
    }
  }

  const BOM: seq<Byte> := [0xEF, 0xBB, 0xBF]

  predicate StartsWithBom(s: Text) {
    |s| >= 3 && s[..3] == BOM
  }

  /** `new TextDecoder().decode` on well-formed UTF-8: a leading byte-order mark is dropped. */
  function DecodeText(s: Text): Text {
    if StartsWithBom(s) then s[3..] else s
  }

  /** A string literal of ASCII characters as UTF-8. (No literal in this project has any other character.) */
  function Ascii(s: string): Text {
    seq(|s|, i requires 0 <= i < |s| => if s[i] as int < 128 then s[i] as int else 63)
  }
}
