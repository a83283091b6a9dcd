/** What decoding an encoded value gives back, for every value the encoder accepts, and what a decoder looks at. */
module CodecRoundTrip {
  import opened Bytes
  import opened TopicCodec

  /* ---------- the value that comes back ---------- */

  function Unsigned(i: int, w: nat): int {
    i % Pow256(w)
  }

  function Wrap(i: int, w: nat, signed: bool): int {
    if signed then ToSigned(Unsigned(i, w), w) else Unsigned(i, w)
  }

  function CanonPrim(p: Prim, v: Value): Result<Value> {
    match (p, v)
    case (PString, VNull) => Ok(VStr([]))
    case (PString, VStr(s)) => Ok(VStr(DecodeText(s)))
    case (PBool, VBits(_)) => Err(NotCoerced)
    case (PBool, _) => Ok(VBool(Truthy(v)))
    case (PChar, VNull) => Ok(VStr([0]))
    case (PChar, VStr(s)) => Ok(v)
    case (PChar, VInt(i)) => if 0 <= i <= 127 then Ok(VStr([i])) else Err(CharPayload)
    case (PInt(w, signed), VNull) => Ok(VInt(0))
    case (PInt(w, signed), VInt(i)) => Ok(VInt(Wrap(i, w, signed)))
    case (PFloat(w), VNull) => Ok(VBits(LE(0, w)))
    case (PFloat(w), VBits(s)) => Ok(v)
    case (PDuration, VNull) => Ok(VInt(0))
    case (PDuration, VInt(i)) => Ok(VInt(Wrap(i, 4, true)))
    case (PTime, VNull) => Ok(VTime(0, 0))
    case (PTime, VInt(i)) => Ok(VTime(Wrap(if i < 0 then 0 else i, 4, false), 0))
    case (PTime, VTime(s, n)) => Ok(VTime(Wrap(s, 4, false), Wrap(n, 4, false)))
    case _ => Err(NotCoerced)
  }

  function Canon(reg: Registry, typeName: Text, v: Value): Result<Value>
    requires Guarded(reg)
    decreases Weight(v), v, Rank(reg, Resolve(typeName)), 1, 0
  {
    var t := Resolve(typeName);
    if Inherited(typeName) then Err(InheritedName)
    else match PrimOf(t)
      case Some(p) => CanonPrim(p, v)
      case None => if v.VForeign? then Err(NotCoerced) else if t in reg then CanonFields(reg, t, reg[t], map[], v) else Err(UnknownSchema)
  }

  function CanonFields(reg: Registry, ghost owner: Text, fs: seq<Field>, acc: map<Text, Value>, v: Value): Result<Value>
    requires Guarded(reg) && Within(reg, owner, fs)
    decreases Weight(v), v, Rank(reg, owner), 0, 2 + |fs|
  {
    if fs == [] then Ok(VObj(acc))
    else
      var h := CanonField(reg, owner, fs[0], v);
      if h.Err? then h
      else CanonFields(reg, owner, fs[1..], Own(acc, fs[0].name, h.value), v)
  }

  function CanonField(reg: Registry, ghost owner: Text, f: Field, v: Value): Result<Value>
    requires Guarded(reg) && Within(reg, owner, [f])
    decreases Weight(v), v, Rank(reg, owner), 0, 1
  {
    assert f in [f];
    var fv := FieldOf(v, f.name);
    if !f.isArray then Canon(reg, f.typeName, fv)
    else CanonArray(reg, f, fv)
  }

  function CanonArray(reg: Registry, f: Field, fv: Value): Result<Value>
    requires Guarded(reg)
    decreases Weight(fv), fv, 0, 0, 0
  {
    if IsByteArray(f) then
      var bytes := Body(reg, f, fv);
      if bytes.Err? then Err(bytes.error) else Ok(VBytes(bytes.value))
    else if fv.VArr? then CanonItems(reg, f.typeName, [], fv.items)
    else Ok(VArr([]))
  }

  function CanonItems(reg: Registry, typeName: Text, acc: seq<Value>, vs: seq<Value>): Result<Value>
    requires Guarded(reg)
    decreases 1, vs, 0, 0, 0
  {
    if vs == [] then Ok(VArr(acc))
    else
      var h := Canon(reg, typeName, vs[0]);
      if h.Err? then h else CanonItems(reg, typeName, acc + [h.value], vs[1..])
  }

  /** Every string and array is short enough for its length to fit the 32-bit length prefix. */
  predicate Sized(v: Value) {
    match v
    case VStr(s) => |s| < 0x1_0000_0000
    case VBytes(s) => |s| < 0x1_0000_0000
    case VArr(vs) => |vs| < 0x1_0000_0000 && forall i :: 0 <= i < |vs| ==> Sized(vs[i])
    case VObj(m) => forall k :: k in m ==> Sized(m[k])
    case _ => true
  }

  /** The result of decoding n bytes at `off` when the value is known. */
  function Expected(v: Result<Value>, off: nat, n: nat): Result<Decoded> {
    match v
    case Ok(x) => Ok(Decoded(x, off + n))
    case Err(e) => Err(e)
  }

  /* ---------- the round trip, type by type ---------- */

  lemma PowValues()
    ensures Pow256(1) == 0x100 && Pow256(2) == 0x1_0000 && Pow256(4) == 0x1_0000_0000
  {
    assert Pow256(0) == 1;
    assert Pow256(1) == 256 * Pow256(0);
    assert Pow256(2) == 256 * Pow256(1);
    assert Pow256(3) == 256 * Pow256(2);
    assert Pow256(4) == 256 * Pow256(3);
  }

  lemma LengthPrefix(n: nat)
    requires n < 0x1_0000_0000
    ensures FromLE(LE(n, 4)) == n
  {
    FromLEofLE(n, 4);
    PowValues();
  }

  lemma LengthPrefixAt(b: seq<Byte>, off: nat, n: nat)
    requires n < 0x1_0000_0000
    ensures At(b, off, LE(n, 4)) ==> off + 4 <= |b| && FromLE(b[off..off + 4]) == n
  {
    LengthPrefix(n);
  }

  lemma OneByte(i: int)
    ensures LE(i, 1) == [i % 256] && FromLE(LE(i, 1)) == i % 256
  {
    FromLEofLE(i, 1);
    PowValues();
    assert LE(i / 256, 0) == [];
  }

  lemma IntAt(b: seq<Byte>, off: nat, i: int, w: nat)
    requires At(b, off, LE(i, w))
    ensures off + w <= |b| && FromLE(b[off..off + w]) == i % Pow256(w)
  {
    FromLEofLE(i, w);
  }

  lemma PairAt(b: seq<Byte>, off: nat, i: int, j: int)
    requires At(b, off, LE(i, 4) + LE(j, 4))
    ensures off + 8 <= |b| && FromLE(b[off..off + 4]) == i % Pow256(4) && FromLE(b[off + 4..off + 8]) == j % Pow256(4)
  {
    AtSplit(b, off, LE(i, 4), LE(j, 4));
    IntAt(b, off, i, 4);
    IntAt(b, off + 4, j, 4);
  }

  lemma AtIs(b: seq<Byte>, off: nat, s: seq<Byte>)
    requires At(b, off, s)
    ensures off + |s| <= |b| && b[off..off + |s|] == s
    ensures s != [] ==> b[off] == s[0]
  {
    if s != [] { assert b[off..off + |s|][0] == b[off]; }
  }

  lemma StringRoundTrip(s: Text, b: seq<Byte>, off: nat)
    requires off <= |b| && |s| < 0x1_0000_0000 && At(b, off, LE(|s|, 4) + s)
    ensures DecodePrim(PString, b, off) == Ok(Decoded(VStr(DecodeText(s)), off + 4 + |s|))
  {
    hide DecodeText, LE, FromLE, At;
    AtSplit(b, off, LE(|s|, 4), s);
    LengthPrefixAt(b, off, |s|);
    AtIs(b, off + 4, s);
  }

  lemma CharRoundTrip(i: int, b: seq<Byte>, off: nat)
    requires off <= |b| && -128 <= i <= 127 && At(b, off, LE(i, 1))
    ensures DecodePrim(PChar, b, off) == if i < 0 then Err(CharPayload) else Ok(Decoded(VStr([i]), off + 1))
  {
    hide LE, FromLE, At, Pow256;
    IntAt(b, off, i, 1);
    PowValues();
    OneByte(i);
    AtIs(b, off, LE(i, 1));
  }

  lemma PrimRoundTrip(p: Prim, v: Value, b: seq<Byte>, off: nat)
    requires off <= |b| && Sized(v)
    requires EncodePrim(p, v).Ok? && At(b, off, EncodePrim(p, v).value)
    ensures DecodePrim(p, b, off) == Expected(CanonPrim(p, v), off, |EncodePrim(p, v).value|)
  {
    match p
    case PString =>
      var s := if v.VStr? then v.text else [];
      assert LE(0, 4) == LE(0, 4) + [];
      StringRoundTrip(s, b, off);
    case PBool => BoolRoundTrip(v, b, off);
    case PChar =>
      var i := if v.VInt? then v.i else if v.VStr? then v.text[0] else 0;
      CharRoundTrip(i, b, off);
      assert v.VStr? ==> v.text == [i];
    case PInt(w, _) => IntRoundTrip(p, v, b, off);
    case PFloat(w) => FloatRoundTrip(p, v, b, off);
    case PDuration => DurationRoundTrip(v, b, off);
    case PTime => TimeRoundTrip(v, b, off);
  }

  lemma IntRoundTrip(p: Prim, v: Value, b: seq<Byte>, off: nat)
    requires off <= |b| && p.PInt?
    requires EncodePrim(p, v).Ok? && At(b, off, EncodePrim(p, v).value)
    ensures DecodePrim(p, b, off) == Expected(CanonPrim(p, v), off, |EncodePrim(p, v).value|)
  {
    hide LE, FromLE;
    IntAt(b, off, if v.VInt? then v.i else 0, p.width);
    ModUnique(0, Pow256(p.width), 0, 0);
  }

  lemma FloatRoundTrip(p: Prim, v: Value, b: seq<Byte>, off: nat)
    requires off <= |b| && p.PFloat?
    requires EncodePrim(p, v).Ok? && At(b, off, EncodePrim(p, v).value)
    ensures DecodePrim(p, b, off) == Expected(CanonPrim(p, v), off, |EncodePrim(p, v).value|)
  {
    hide LE, FromLE;
  }

  lemma DurationRoundTrip(v: Value, b: seq<Byte>, off: nat)
    requires off <= |b|
    requires EncodePrim(PDuration, v).Ok? && At(b, off, EncodePrim(PDuration, v).value)
    ensures DecodePrim(PDuration, b, off) == Expected(CanonPrim(PDuration, v), off, 8)
  {
    hide LE, FromLE, At;
    PairAt(b, off, if v.VInt? then v.i else 0, 0);
    PowValues();
  }

  lemma TimeRoundTrip(v: Value, b: seq<Byte>, off: nat)
    requires off <= |b|
    requires EncodePrim(PTime, v).Ok? && At(b, off, EncodePrim(PTime, v).value)
    ensures DecodePrim(PTime, b, off) == Expected(CanonPrim(PTime, v), off, 8)
  {
    hide LE, FromLE, At;
    var s := match v case VTime(s, _) => s case VInt(i) => (if i < 0 then 0 else i) case _ => 0;
    PairAt(b, off, s, if v.VTime? then v.nsec else 0);
    PowValues();
  }

  lemma BoolRoundTrip(v: Value, b: seq<Byte>, off: nat)
    requires off <= |b| && !v.VBits?
    requires At(b, off, [if Truthy(v) then 1 else 0])
    ensures DecodePrim(PBool, b, off) == Ok(Decoded(VBool(Truthy(v)), off + 1))
  {
    assert b[off] == b[off..off + 1][0];
  }

  /**
   * The decoder undoes the encoder wherever the encoding stands in a larger buffer, for every registered type and every
   * value the encoder accepts: it stops exactly behind the encoding and returns the canonical form of the value.
   */
  lemma {:induction false} RoundTripAt(reg: Registry, typeName: Text, v: Value, b: seq<Byte>, off: nat)
    requires Guarded(reg) && off <= |b| && Sized(v)
    requires Encode(reg, typeName, v).Ok? && At(b, off, Encode(reg, typeName, v).value)
    ensures Decode(reg, typeName, b, off) == Expected(Canon(reg, typeName, v), off, |Encode(reg, typeName, v).value|)
    decreases Weight(v), v, Rank(reg, Resolve(typeName)), 1, 0
  {
    var t := Resolve(typeName);
    match PrimOf(t)
    case Some(p) => PrimRoundTrip(p, v, b, off);
    case None => FieldsRoundTrip(reg, t, reg[t], map[], v, b, off);
  }

  lemma {:induction false} FieldsRoundTrip(reg: Registry, owner: Text, fs: seq<Field>, acc: map<Text, Value>, v: Value, b: seq<Byte>, off: nat)
    requires Guarded(reg) && Within(reg, owner, fs) && off <= |b| && Sized(v)
    requires EncodeFields(reg, owner, fs, v).Ok? && At(b, off, EncodeFields(reg, owner, fs, v).value)
    ensures DecodeFields(reg, owner, fs, acc, b, off)
         == Expected(CanonFields(reg, owner, fs, acc, v), off, |EncodeFields(reg, owner, fs, v).value|)
    decreases Weight(v), v, Rank(reg, owner), 0, 2 + |fs|
  {
    hide Encode, EncodeField, Decode, DecodeField, Canon, CanonField, Sized, Guarded, Within, At;
    if fs != [] {
      hide EncodeFields, DecodeFields, CanonFields;
      var f, rest := fs[0], fs[1..];
      WithinParts(reg, owner, fs);
      FieldsSplit(reg, owner, fs, v, b, off);
      FieldRoundTrip(reg, owner, f, v, b, off);
      var h, c := EncodeField(reg, owner, f, v).value, CanonField(reg, owner, f, v);
      if c.Ok? {
        FieldsRoundTrip(reg, owner, rest, Own(acc, f.name, c.value), v, b, off + |h|);
      }
      FieldsJoined(reg, owner, fs, acc, v, b, off, |h|);
    }
  }

  lemma FieldsJoined(reg: Registry, owner: Text, fs: seq<Field>, acc: map<Text, Value>, v: Value, b: seq<Byte>, off: nat, n: nat)
    requires Guarded(reg) && fs != [] && Within(reg, owner, fs) && Within(reg, owner, [fs[0]]) && Within(reg, owner, fs[1..])
    requires EncodeFields(reg, owner, fs, v).Ok? && EncodeFields(reg, owner, fs[1..], v).Ok? && off + n <= |b|
    requires |EncodeFields(reg, owner, fs, v).value| == n + |EncodeFields(reg, owner, fs[1..], v).value|
    requires var c := CanonField(reg, owner, fs[0], v);
      && DecodeField(reg, owner, fs[0], b, off) == Expected(c, off, n)
      && (c.Ok? ==> var acc' := Own(acc, fs[0].name, c.value);
           DecodeFields(reg, owner, fs[1..], acc', b, off + n)
             == Expected(CanonFields(reg, owner, fs[1..], acc', v), off + n, |EncodeFields(reg, owner, fs[1..], v).value|))
    ensures DecodeFields(reg, owner, fs, acc, b, off)
      == Expected(CanonFields(reg, owner, fs, acc, v), off, |EncodeFields(reg, owner, fs, v).value|)
  {
    hide EncodeFields, DecodeField, CanonField, Guarded, Within, Own;
  }

  /** The encoding of the fields is that of the first and that of the rest. */
  lemma FieldsSplit(reg: Registry, owner: Text, fs: seq<Field>, v: Value, b: seq<Byte>, off: nat)
    requires Guarded(reg) && Within(reg, owner, fs) && off <= |b| && fs != []
    requires EncodeFields(reg, owner, fs, v).Ok? && At(b, off, EncodeFields(reg, owner, fs, v).value)
    ensures Within(reg, owner, [fs[0]]) && Within(reg, owner, fs[1..])
    ensures EncodeField(reg, owner, fs[0], v).Ok? && EncodeFields(reg, owner, fs[1..], v).Ok?
    ensures var h, t := EncodeField(reg, owner, fs[0], v).value, EncodeFields(reg, owner, fs[1..], v).value;
      && EncodeFields(reg, owner, fs, v).value == h + t
      && At(b, off, h) && off + |h| <= |b| && At(b, off + |h|, t)
  {
    hide Encode, EncodeField, Guarded, Within, At;
    WithinParts(reg, owner, fs);
    AtSplit(b, off, EncodeField(reg, owner, fs[0], v).value, EncodeFields(reg, owner, fs[1..], v).value);
  }

  lemma WithinParts(reg: Registry, owner: Text, fs: seq<Field>)
    requires Guarded(reg) && Within(reg, owner, fs) && fs != []
    ensures Within(reg, owner, [fs[0]]) && Within(reg, owner, fs[1..])
  {
  }

  lemma {:induction false} FieldRoundTrip(reg: Registry, owner: Text, f: Field, v: Value, b: seq<Byte>, off: nat)
    requires Guarded(reg) && Within(reg, owner, [f]) && off <= |b| && Sized(v)
    requires EncodeField(reg, owner, f, v).Ok? && At(b, off, EncodeField(reg, owner, f, v).value)
    ensures DecodeField(reg, owner, f, b, off)
         == Expected(CanonField(reg, owner, f, v), off, |EncodeField(reg, owner, f, v).value|)
    decreases Weight(v), v, Rank(reg, owner), 0, 1
  {
    hide Encode, Decode, Canon, Guarded, EncodeItems, CanonItems, CanonArray, DecodeArray, At, LE, FromLE, Sized, Resolve;
    assert f in [f];
    var fv := FieldOf(v, f.name);
    FieldSized(v, f.name);
    if !f.isArray {
      RoundTripAt(reg, f.typeName, fv, b, off);
    } else {
      hide EncodeField, CanonField, DecodeField, Within;
      var n := ArrayParts(reg, owner, f, v, b, off);
      if fv.VArr? && !IsByteArray(f) {
        ItemsRoundTrip(reg, f.typeName, [], fv.items, b, off + n);
      }
      ArrayFieldRoundTrip(reg, owner, f, v, b, off, n);
    }
  }

  /** An array field is encoded as its length prefix, if it has one, and its elements behind. */
  lemma ArrayParts(reg: Registry, owner: Text, f: Field, v: Value, b: seq<Byte>, off: nat) returns (n: nat)
    requires Guarded(reg) && Within(reg, owner, [f]) && off <= |b| && f.isArray && Sized(v)
    requires EncodeField(reg, owner, f, v).Ok? && At(b, off, EncodeField(reg, owner, f, v).value)
    ensures n == if f.arrayLen.None? then 4 else 0
    ensures var fv := FieldOf(v, f.name); var body := Body(reg, f, fv);
      && (fv.VNull? || fv.VArr? || (fv.VBytes? && IsByteArray(f))) && (f.arrayLen.Some? ==> f.arrayLen.value == Count(fv))
      && body.Ok? && |EncodeField(reg, owner, f, v).value| == n + |body.value|
      && off + n <= |b| && At(b, off + n, body.value) && (n == 4 ==> FromLE(b[off..off + 4]) == Count(fv))
  {
    hide Encode, EncodeItems, Guarded, Within, At, LE, FromLE, Sized, Body;
    var fv := FieldOf(v, f.name);
    FieldSized(v, f.name);
    var prefix := if f.arrayLen.None? then LE(Count(fv), 4) else [];
    AtSplit(b, off, prefix, Body(reg, f, fv).value);
    LengthPrefixAt(b, off, Count(fv));
    n := |prefix|;
  }

  lemma ArrayFieldRoundTrip(reg: Registry, owner: Text, f: Field, v: Value, b: seq<Byte>, off: nat, n: nat)
    requires Guarded(reg) && Within(reg, owner, [f]) && off + n <= |b| && f.isArray && n == if f.arrayLen.None? then 4 else 0
    requires EncodeField(reg, owner, f, v).Ok?
    requires var fv := FieldOf(v, f.name); var body := Body(reg, f, fv);
      && (fv.VNull? || fv.VArr? || (fv.VBytes? && IsByteArray(f))) && (f.arrayLen.Some? ==> f.arrayLen.value == Count(fv))
      && body.Ok? && |EncodeField(reg, owner, f, v).value| == n + |body.value|
      && At(b, off + n, body.value) && (n == 4 ==> FromLE(b[off..off + 4]) == Count(fv))
      && (fv.VArr? && !IsByteArray(f) ==>
           DecodeItems(reg, f.typeName, |fv.items|, [], b, off + n) == Expected(CanonItems(reg, f.typeName, [], fv.items), off + n, |body.value|))
    ensures DecodeField(reg, owner, f, b, off) == Expected(CanonField(reg, owner, f, v), off, |EncodeField(reg, owner, f, v).value|)
  {
    hide Encode, Canon, EncodeField, EncodeItems, CanonItems, CanonArray, DecodeArray, DecodeItems, Guarded, At, FromLE, Body;
    ArrayRoundTrip(reg, f, FieldOf(v, f.name), b, off + n);
    assert f in [f];
  }

  lemma FieldSized(v: Value, name: Text)
    requires Sized(v)
    ensures var fv := FieldOf(v, name);
      Sized(fv) && Count(fv) < 0x1_0000_0000 && (fv.VArr? ==> forall i :: 0 <= i < |fv.items| ==> Sized(fv.items[i]))
  {
  }

  lemma ArrayRoundTrip(reg: Registry, f: Field, fv: Value, b: seq<Byte>, off: nat)
    requires Guarded(reg) && off <= |b| && f.isArray
    requires fv.VNull? || fv.VArr? || (fv.VBytes? && IsByteArray(f))
    requires Body(reg, f, fv).Ok? && At(b, off, Body(reg, f, fv).value)
    requires fv.VArr? && !IsByteArray(f) ==>
      DecodeItems(reg, f.typeName, |fv.items|, [], b, off) == Expected(CanonItems(reg, f.typeName, [], fv.items), off, |Body(reg, f, fv).value|)
    ensures DecodeArray(reg, f, Count(fv), b, off) == Expected(CanonArray(reg, f, fv), off, |Body(reg, f, fv).value|)
  {
    if IsByteArray(f) {
      ByteArrayRoundTrip(reg, f, fv, b, off);
    }
  }

  lemma ByteArrayRoundTrip(reg: Registry, f: Field, fv: Value, b: seq<Byte>, off: nat)
    requires Guarded(reg) && off <= |b| && IsByteArray(f)
    requires fv.VNull? || fv.VArr? || fv.VBytes?
    requires Body(reg, f, fv).Ok? && At(b, off, Body(reg, f, fv).value)
    ensures DecodeArray(reg, f, Count(fv), b, off) == Ok(Decoded(VBytes(Body(reg, f, fv).value), off + |Body(reg, f, fv).value|))
  {
    hide EncodeItems, DecodeItems, Guarded;
    if fv.VArr? { ByteItemsLength(fv.items); }
  }

  lemma {:induction false} ByteItemsLength(vs: seq<Value>)
    ensures ByteItems(vs).Ok? ==> |ByteItems(vs).value| == |vs|
  {
    if vs != [] { ByteItemsLength(vs[1..]); }
  }

  lemma {:induction false} ItemsRoundTrip(reg: Registry, typeName: Text, acc: seq<Value>, vs: seq<Value>, b: seq<Byte>, off: nat)
    requires Guarded(reg) && off <= |b| && forall i :: 0 <= i < |vs| ==> Sized(vs[i])
    requires EncodeItems(reg, typeName, vs).Ok? && At(b, off, EncodeItems(reg, typeName, vs).value)
    ensures DecodeItems(reg, typeName, |vs|, acc, b, off)
         == Expected(CanonItems(reg, typeName, acc, vs), off, |EncodeItems(reg, typeName, vs).value|)
    decreases 1, vs, 0, 0, 0
  {
    hide Encode, Decode, Canon, Guarded, At;
    if vs != [] {
      var h := Encode(reg, typeName, vs[0]).value;
      AtSplit(b, off, h, EncodeItems(reg, typeName, vs[1..]).value);
      RoundTripAt(reg, typeName, vs[0], b, off);
      var c := Canon(reg, typeName, vs[0]);
      if c.Ok? {
        ItemsRoundTrip(reg, typeName, acc + [c.value], vs[1..], b, off + |h|);
      }
    }
  }
}
