/** Decoding depends on nothing but the bytes it consumes. */
module CodecLocality {
  import opened Bytes
  import opened TopicCodec
  import opened CodecRoundTrip

  /** The n bytes of b at i are the n bytes of c at j. */
  predicate Same(b: seq<Byte>, i: nat, c: seq<Byte>, j: nat, n: nat) {
    && i + n <= |b| && j + n <= |c|
    && b[i..i + n] == c[j..j + n]
  }

  lemma SamePart(b: seq<Byte>, i: nat, c: seq<Byte>, j: nat, n: nat, k: nat, m: nat)
    requires Same(b, i, c, j, n) && k + m <= n
    ensures Same(b, i + k, c, j + k, m) && b[i + k..i + k + m] == c[j + k..j + k + m]
    ensures m > 0 ==> b[i + k] == c[j + k]
  {
    SliceOfSlice(b, i, n, k, m);
    SliceOfSlice(c, j, n, k, m);
    if m > 0 { assert b[i + k..i + k + m][0] == c[j + k..j + k + m][0]; }
  }

  /** d, found at offset i, as it reads at offset j. */
  function Moved(d: Decoded, i: nat, j: nat): Result<Decoded>
    requires i <= d.next
  {
    Ok(Decoded(d.value, d.next - i + j))
  }

  lemma PrimLocal(p: Prim, b: seq<Byte>, i: nat, c: seq<Byte>, j: nat)
    requires i <= |b| && j <= |c| && DecodePrim(p, b, i).Ok?
    requires Same(b, i, c, j, DecodePrim(p, b, i).value.next - i)
    ensures DecodePrim(p, c, j) == Moved(DecodePrim(p, b, i).value, i, j)
  {
    hide Same, ToSigned, FromLE, DecodeText, StartsWithBom;
    var n := DecodePrim(p, b, i).value.next - i;
    SamePart(b, i, c, j, n, 0, n);
    match p
    case PString => StringLocal(b, i, c, j);
    case PDuration => SamePart(b, i, c, j, n, 0, 4); SamePart(b, i, c, j, n, 4, 4);
    case PTime => SamePart(b, i, c, j, n, 0, 4); SamePart(b, i, c, j, n, 4, 4);
    case _ =>
  }

  lemma StringLocal(b: seq<Byte>, i: nat, c: seq<Byte>, j: nat)
    requires i <= |b| && j <= |c| && DecodePrim(PString, b, i).Ok?
    requires Same(b, i, c, j, DecodePrim(PString, b, i).value.next - i)
    ensures DecodePrim(PString, c, j) == Moved(DecodePrim(PString, b, i).value, i, j)
  {
    hide Same, FromLE, DecodeText;
    var n := DecodePrim(PString, b, i).value.next - i;
    SamePart(b, i, c, j, n, 0, 4);
    SamePart(b, i, c, j, n, 4, n - 4);
    SameFits(b, i, c, j, n);
  }

  /** Whatever surrounds the bytes it consumed, the decoder finds the same value in them, of every type. */
  lemma {:induction false} DecodeLocal(reg: Registry, typeName: Text, b: seq<Byte>, i: nat, c: seq<Byte>, j: nat)
    requires Guarded(reg) && i <= |b| && j <= |c| && Decode(reg, typeName, b, i).Ok?
    requires Same(b, i, c, j, Decode(reg, typeName, b, i).value.next - i)
    ensures Decode(reg, typeName, c, j) == Moved(Decode(reg, typeName, b, i).value, i, j)
    decreases |b| - i, Rank(reg, Resolve(typeName)), 1, 0
  {
    hide DecodePrim, DecodeFields, Guarded, Resolve, PrimOf, Same;
    var t := Resolve(typeName);
    match PrimOf(t)
    case Some(p) => PrimLocal(p, b, i, c, j);
    case None => FieldsLocal(reg, t, reg[t], map[], b, i, c, j);
  }

  lemma {:induction false} FieldsLocal(reg: Registry, owner: Text, fs: seq<Field>, acc: map<Text, Value>, b: seq<Byte>, i: nat, c: seq<Byte>, j: nat)
    requires Guarded(reg) && Within(reg, owner, fs) && i <= |b| && j <= |c| && DecodeFields(reg, owner, fs, acc, b, i).Ok?
    requires Same(b, i, c, j, DecodeFields(reg, owner, fs, acc, b, i).value.next - i)
    ensures DecodeFields(reg, owner, fs, acc, c, j) == Moved(DecodeFields(reg, owner, fs, acc, b, i).value, i, j)
    decreases |b| - i, Rank(reg, owner), 0, 1 + |fs|
  {
    hide DecodeField, Guarded, Within, Same;
    if fs != [] {
      WithinParts(reg, owner, fs);
      var n := DecodeFields(reg, owner, fs, acc, b, i).value.next - i;
      var d := DecodeField(reg, owner, fs[0], b, i).value;
      var k := d.next - i;
      SamePart(b, i, c, j, n, 0, k);
      SamePart(b, i, c, j, n, k, n - k);
      FieldLocal(reg, owner, fs[0], b, i, c, j);
      assert j + k <= |c| by { SameFits(b, i, c, j, n); }
      FieldsLocal(reg, owner, fs[1..], Own(acc, fs[0].name, d.value), b, d.next, c, j + k);
    }
  }

  lemma SameFits(b: seq<Byte>, i: nat, c: seq<Byte>, j: nat, n: nat)
    requires Same(b, i, c, j, n)
    ensures i + n <= |b| && j + n <= |c|
  {
  }

  lemma {:induction false} FieldLocal(reg: Registry, owner: Text, f: Field, b: seq<Byte>, i: nat, c: seq<Byte>, j: nat)
    requires Guarded(reg) && Within(reg, owner, [f]) && i <= |b| && j <= |c| && DecodeField(reg, owner, f, b, i).Ok?
    requires Same(b, i, c, j, DecodeField(reg, owner, f, b, i).value.next - i)
    ensures DecodeField(reg, owner, f, c, j) == Moved(DecodeField(reg, owner, f, b, i).value, i, j)
    decreases |b| - i, Rank(reg, owner), 0, 0
  {
    hide Decode, DecodeArray, Guarded, Same, FromLE, Resolve;
    assert f in [f];
    var n := DecodeField(reg, owner, f, b, i).value.next - i;
    SameFits(b, i, c, j, n);
    if !f.isArray {
      DecodeLocal(reg, f.typeName, b, i, c, j);
    } else if f.arrayLen.Some? {
      ArrayLocal(reg, f, f.arrayLen.value, b, i, c, j);
    } else {
      SamePart(b, i, c, j, n, 0, 4);
      SamePart(b, i, c, j, n, 4, n - 4);
      ArrayLocal(reg, f, FromLE(b[i..i + 4]), b, i + 4, c, j + 4);
    }
  }

  lemma {:induction false} ArrayLocal(reg: Registry, f: Field, count: int, b: seq<Byte>, i: nat, c: seq<Byte>, j: nat)
    requires Guarded(reg) && i <= |b| && j <= |c| && DecodeArray(reg, f, count, b, i).Ok?
    requires Same(b, i, c, j, DecodeArray(reg, f, count, b, i).value.next - i)
    ensures DecodeArray(reg, f, count, c, j) == Moved(DecodeArray(reg, f, count, b, i).value, i, j)
    decreases |b| - i, Rank(reg, Resolve(f.typeName)), 3, 0
  {
    hide DecodeItems, Guarded, Resolve;
    if !IsByteArray(f) {
      ItemsLocal(reg, f.typeName, count, [], b, i, c, j);
    }
  }

  lemma {:induction false} ItemsLocal(reg: Registry, typeName: Text, count: int, acc: seq<Value>, b: seq<Byte>, i: nat, c: seq<Byte>, j: nat)
    requires Guarded(reg) && i <= |b| && j <= |c| && DecodeItems(reg, typeName, count, acc, b, i).Ok?
    requires Same(b, i, c, j, DecodeItems(reg, typeName, count, acc, b, i).value.next - i)
    ensures DecodeItems(reg, typeName, count, acc, c, j) == Moved(DecodeItems(reg, typeName, count, acc, b, i).value, i, j)
    decreases |b| - i, Rank(reg, Resolve(typeName)), 2, if count < 0 then 0 else count
  {
    hide Decode, Guarded, Resolve, Same;
    if count > 0 {
      var n := DecodeItems(reg, typeName, count, acc, b, i).value.next - i;
      var d := Decode(reg, typeName, b, i).value;
      var k := d.next - i;
      SameFits(b, i, c, j, n);
      SamePart(b, i, c, j, n, 0, k);
      SamePart(b, i, c, j, n, k, n - k);
      DecodeLocal(reg, typeName, b, i, c, j);
      ItemsLocal(reg, typeName, count - 1, acc + [d.value], b, d.next, c, j + k);
    }
  }
}
