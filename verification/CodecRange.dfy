/** Exactly which values survive the round trip. */
module CodecRange {
  import opened Bytes
  import opened TopicCodec
  import opened CodecRoundTrip

  predicate InRangeInt(i: int, w: nat, signed: bool) {
    if signed then 0 <= Pow256(w) + 2 * i < 2 * Pow256(w) else 0 <= i < Pow256(w)
  }

  predicate InRangePrim(p: Prim, v: Value) {
    match p
    case PString => v.VStr? && !StartsWithBom(v.text)
    case PBool => v.VBool?
    case PChar => v.VStr? && |v.text| == 1 && v.text[0] < 128
    case PInt(w, signed) => v.VInt? && InRangeInt(v.i, w, signed)
    case PFloat(w) => v.VBits? && |v.bits| == w
    case PDuration => v.VInt? && InRangeInt(v.i, 4, true)
    case PTime => v.VTime? && InRangeInt(v.sec, 4, false) && InRangeInt(v.nsec, 4, false)
  }

  function Names(fs: seq<Field>): set<Text> {
    set f | f in fs :: f.name
  }

  /** The fields that a decoded message can have as properties of its own. */
  function OwnNames(fs: seq<Field>): set<Text> {
    Names(fs) - {PROTO}
  }

  /** The field accepts what every object inherits, whatever that is. */
  predicate TakesAnything(f: Field) {
    !f.isArray && !Inherited(f.typeName) && PrimOf(Resolve(f.typeName)) == Some(PBool)
  }

  /**
   * v is a value of the type as a reader of the message definition understands it. A field under the name of the prototype is
   * none: it is never a property of its own, neither before nor after.
   */
  predicate InRange(reg: Registry, typeName: Text, v: Value)
    decreases v, 1
  {
    var t := Resolve(typeName);
    !Inherited(typeName) &&
    match PrimOf(t)
    case Some(p) => InRangePrim(p, v)
    case None =>
      && t in reg && v.VObj? && v.fields.Keys == OwnNames(reg[t])
      && forall f :: f in reg[t] ==> if f.name == PROTO then TakesAnything(f) else FieldInRange(reg, f, v.fields[f.name])
  }

  predicate FieldInRange(reg: Registry, f: Field, fv: Value)
    decreases fv, 2
  {
    if !f.isArray then InRange(reg, f.typeName, fv)
    else
      && (f.arrayLen.Some? ==> f.arrayLen.value == Count(fv))
      && if IsByteArray(f) then fv.VBytes?
         else fv.VArr? && forall i :: 0 <= i < |fv.items| ==> InRange(reg, f.typeName, fv.items[i])
  }

  ghost predicate DistinctNames(fs: seq<Field>) {
    forall i, j :: 0 <= i < j < |fs| ==> fs[i].name != fs[j].name
  }

  lemma WrapIdentity(i: int, w: nat, signed: bool)
    ensures Wrap(i, w, signed) == i <==> InRangeInt(i, w, signed)
  {
    var p := Pow256(w);
    if 0 <= i < p { ModUnique(i, p, 0, i); }
    if -p <= i < 0 { ModUnique(i, p, -1, i + p); }
  }

  lemma BomDropped(s: Text)
    ensures DecodeText(s) == s <==> !StartsWithBom(s)
  {
  }

  lemma PrimIdentity(p: Prim, v: Value)
    ensures InRangePrim(p, v) ==> EncodePrim(p, v).Ok?
    ensures EncodePrim(p, v).Ok? ==> (CanonPrim(p, v) == Ok(v) <==> InRangePrim(p, v))
  {
    hide StartsWithBom, DecodeText, Pow256, LE, Wrap, InRangeInt;
    match (p, v)
    case (PString, VStr(s)) => BomDropped(s);
    case (PInt(w, signed), VInt(i)) => WrapIdentity(i, w, signed);
    case (PDuration, VInt(i)) => WrapIdentity(i, 4, true);
    case (PTime, VTime(s, n)) => WrapIdentity(s, 4, false); WrapIdentity(n, 4, false);
    case _ =>
  }

  lemma PrimComesBack(p: Prim, v: Value)
    requires InRangePrim(p, v)
    ensures EncodePrim(p, v).Ok? && CanonPrim(p, v) == Ok(v)
  {
    PrimIdentity(p, v);
  }

  ghost predicate AllDistinct(reg: Registry) {
    forall t :: t in reg ==> DistinctNames(reg[t])
  }

  /** c is the message v as far as the fields fs go, and acc elsewhere. */
  ghost predicate Merged(c: Value, acc: map<Text, Value>, fs: seq<Field>, v: Value) {
    && c.VObj? && c.fields.Keys == acc.Keys + OwnNames(fs)
    && (forall n :: n in acc && n !in OwnNames(fs) ==> c.fields[n] == acc[n])
    && (forall n :: n in OwnNames(fs) ==> c.fields[n] == FieldOf(v, n))
  }

  /** What a message in range has to offer to one field. */
  predicate Offers(reg: Registry, f: Field, v: Value) {
    if f.name == PROTO then v.VObj? && PROTO !in v.fields && TakesAnything(f)
    else v.VObj? && f.name in v.fields && FieldInRange(reg, f, v.fields[f.name])
  }

  /** A value in range encodes, and its canonical form is itself. */
  lemma {:induction false} InRangeComesBack(reg: Registry, typeName: Text, v: Value)
    requires Guarded(reg) && InRange(reg, typeName, v)
    ensures Encode(reg, typeName, v).Ok? && Canon(reg, typeName, v) == Ok(v)
    decreases v, 1, 0
  {
    hide EncodeFields, CanonFields, FieldInRange, EncodePrim, CanonPrim, InRangePrim, Guarded, Resolve, PrimOf, Inherited, TakesAnything;
    var t := Resolve(typeName);
    match PrimOf(t)
    case Some(p) =>
      PrimComesBack(p, v);
    case None =>
      forall f | f in reg[t] ensures Offers(reg, f, v) { assert f.name in Names(reg[t]); }
      FieldsComeBack(reg, t, reg[t], map[], v);
      assert CanonFields(reg, t, reg[t], map[], v).value.fields == v.fields;
  }

  lemma {:induction false} FieldsComeBack(reg: Registry, owner: Text, fs: seq<Field>, acc: map<Text, Value>, v: Value)
    requires Guarded(reg) && Within(reg, owner, fs) && v.VObj? && PROTO !in acc
    requires forall f :: f in fs ==> Offers(reg, f, v)
    ensures EncodeFields(reg, owner, fs, v).Ok?
    ensures CanonFields(reg, owner, fs, acc, v).Ok? && Merged(CanonFields(reg, owner, fs, acc, v).value, acc, fs, v)
    decreases v, 0, 2 + |fs|
  {
    hide EncodeField, CanonField, FieldInRange, Guarded, Within, FieldOf, TakesAnything, Offers;
    if fs != [] {
      WithinParts(reg, owner, fs);
      var f, rest := fs[0], fs[1..];
      assert f in fs && f.name in Names(fs);
      OfferComesBack(reg, owner, f, v);
      assert Names(fs) == {f.name} + Names(rest);
      FieldsComeBack(reg, owner, rest, Own(acc, f.name, CanonField(reg, owner, f, v).value), v);
    }
  }

  lemma {:induction false} OfferComesBack(reg: Registry, owner: Text, f: Field, v: Value)
    requires Guarded(reg) && Within(reg, owner, [f]) && v.VObj? && Offers(reg, f, v)
    ensures EncodeField(reg, owner, f, v).Ok? && CanonField(reg, owner, f, v).Ok?
    ensures f.name != PROTO ==> CanonField(reg, owner, f, v) == Ok(FieldOf(v, f.name))
    decreases v, 0, 1
  {
    hide Encode, Canon, Guarded, FieldInRange, PrimOf, Resolve, Inherited;
    if f.name == PROTO { ForeignIsTrue(reg, owner, f, v); } else { FieldComesBack(reg, owner, f, v); }
  }

  /** What is inherited under the name of the prototype encodes exactly as a flag, and the flag is set. */
  lemma ForeignIsTrue(reg: Registry, owner: Text, f: Field, v: Value)
    requires Guarded(reg) && Within(reg, owner, [f]) && v.VObj? && f.name == PROTO && PROTO !in v.fields
    ensures EncodeField(reg, owner, f, v).Ok? <==> TakesAnything(f)
    ensures TakesAnything(f) ==> CanonField(reg, owner, f, v) == Ok(VBool(true))
  {
    hide EncodeFields, CanonFields, Guarded, PrimOf, Resolve;
    assert f in [f];
    assert FieldOf(v, PROTO) == VForeign;
    hide Inherited;
  }

  lemma {:induction false} FieldComesBack(reg: Registry, owner: Text, f: Field, v: Value)
    requires Guarded(reg) && Within(reg, owner, [f]) && v.VObj? && f.name in v.fields
    requires FieldInRange(reg, f, v.fields[f.name])
    ensures EncodeField(reg, owner, f, v).Ok? && CanonField(reg, owner, f, v) == Ok(FieldOf(v, f.name))
    decreases v, 0, 0
  {
    hide Encode, Canon, Guarded, LE;
    assert f in [f];
    var fv := FieldOf(v, f.name);
    if !f.isArray {
      InRangeComesBack(reg, f.typeName, fv);
    } else {
      if !IsByteArray(f) {
        ItemsComeBack(reg, f.typeName, [], fv.items);
        assert [] + fv.items == fv.items;
      }
      assert CanonField(reg, owner, f, v) == CanonArray(reg, f, fv);
    }
  }

  lemma {:induction false} ItemsComeBack(reg: Registry, typeName: Text, acc: seq<Value>, vs: seq<Value>)
    requires Guarded(reg) && forall i :: 0 <= i < |vs| ==> InRange(reg, typeName, vs[i])
    ensures EncodeItems(reg, typeName, vs).Ok? && CanonItems(reg, typeName, acc, vs) == Ok(VArr(acc + vs))
    decreases vs, 0, 0
  {
    hide Encode, Canon, Guarded, InRange;
    if vs == [] {
      assert acc + vs == acc;
    } else {
      InRangeComesBack(reg, typeName, vs[0]);
      ItemsComeBack(reg, typeName, acc + [vs[0]], vs[1..]);
      assert acc + [vs[0]] + vs[1..] == acc + vs;
    }
  }

  /** Only values in range are their own canonical form, provided no message repeats a field name. */
  lemma {:induction false} OnlyInRange(reg: Registry, typeName: Text, v: Value)
    requires Guarded(reg) && AllDistinct(reg)
    requires Encode(reg, typeName, v).Ok? && Canon(reg, typeName, v) == Ok(v)
    ensures InRange(reg, typeName, v)
    decreases Weight(v), v, Rank(reg, Resolve(typeName)), 1, 0
  {
    hide Inherited, TakesAnything, FieldInRange, FieldOf, EncodeFields, CanonFields, EncodeField, CanonField, Resolve, PrimOf;
    var t := Resolve(typeName);
    match PrimOf(t)
    case Some(p) => PrimIdentity(p, v);
    case None =>
      var fs := reg[t];
      FieldsCanon(reg, t, fs, map[], v, v);
      forall f | f in fs ensures if f.name == PROTO then TakesAnything(f) else FieldInRange(reg, f, v.fields[f.name]) {
        assert f.name in Names(fs);
        WithinOne(reg, t, fs, f);
        if f.name == PROTO { ForeignIsTrue(reg, t, f, v); } else { FieldCanon(reg, t, fs, f, v); }
      }
  }

  lemma WithinOne(reg: Registry, owner: Text, fs: seq<Field>, f: Field)
    requires Guarded(reg) && Within(reg, owner, fs) && f in fs
    ensures Within(reg, owner, [f])
  {
  }

  lemma {:induction false} FieldsCanon(reg: Registry, owner: Text, fs: seq<Field>, acc: map<Text, Value>, v: Value, c: Value)
    requires Guarded(reg) && Within(reg, owner, fs) && DistinctNames(fs) && PROTO !in acc
    requires EncodeFields(reg, owner, fs, v).Ok? && CanonFields(reg, owner, fs, acc, v) == Ok(c)
    ensures c.VObj? && c.fields.Keys == acc.Keys + OwnNames(fs)
    ensures forall n :: n in acc && n !in OwnNames(fs) ==> c.fields[n] == acc[n]
    ensures forall f :: f in fs && Within(reg, owner, [f]) ==>
      f.name in Names(fs) && EncodeField(reg, owner, f, v).Ok? && (f.name != PROTO ==> CanonField(reg, owner, f, v) == Ok(c.fields[f.name]))
    decreases |fs|
  {
    hide EncodeField, CanonField, Guarded, Within;
    if fs != [] {
      WithinParts(reg, owner, fs);
      var f, rest := fs[0], fs[1..];
      FieldsCanon(reg, owner, rest, Own(acc, f.name, CanonField(reg, owner, f, v).value), v, c);
      assert Names(fs) == {f.name} + Names(rest);
      assert forall i :: 0 <= i < |rest| ==> rest[i] == fs[i + 1];
    }
  }

  lemma {:induction false} FieldCanon(reg: Registry, owner: Text, fs: seq<Field>, f: Field, v: Value)
    requires Guarded(reg) && AllDistinct(reg) && Within(reg, owner, fs) && f in fs && v.VObj? && f.name in v.fields
    requires Within(reg, owner, [f]) ==>
      EncodeField(reg, owner, f, v).Ok? && CanonField(reg, owner, f, v) == Ok(v.fields[f.name])
    ensures FieldInRange(reg, f, v.fields[f.name])
    decreases Weight(v), v, Rank(reg, owner), 0, 1
  {
    hide Encode, Canon, Guarded, LE;
    assert f in [f];
    assert Within(reg, owner, [f]);
    var fv := v.fields[f.name];
    if !f.isArray {
      OnlyInRange(reg, f.typeName, fv);
    } else {
      assert CanonField(reg, owner, f, v) == CanonArray(reg, f, fv);
      if fv.VArr? && !IsByteArray(f) {
        OnlyItemsInRange(reg, f.typeName, [], fv.items, fv.items);
      }
    }
  }

  lemma {:induction false} OnlyItemsInRange(reg: Registry, typeName: Text, acc: seq<Value>, vs: seq<Value>, all: seq<Value>)
    requires Guarded(reg) && AllDistinct(reg) && EncodeItems(reg, typeName, vs).Ok?
    requires CanonItems(reg, typeName, acc, vs) == Ok(VArr(all)) && |acc| + |vs| == |all| && all[|acc|..] == vs
    ensures all[..|acc|] == acc
    ensures forall i :: 0 <= i < |vs| ==> InRange(reg, typeName, vs[i])
    decreases 1, vs, 0, 0, 0
  {
    hide Encode, Canon, Guarded, InRange, AllDistinct;
    if vs != [] {
      var h := Canon(reg, typeName, vs[0]).value;
      assert all[|acc|] == vs[0];
      assert all[|acc| + 1..] == vs[1..];
      OnlyItemsInRange(reg, typeName, acc + [h], vs[1..], all);
      assert all[..|acc| + 1][..|acc|] == all[..|acc|];
      assert (acc + [h])[|acc|] == h;
      OnlyInRange(reg, typeName, vs[0]);
    }
  }

  /* ---------- the round trip ---------- */

  /**
   * For every registry and type, a value that encodes is decoded back to itself, consuming exactly its encoding and
   * whatever stands around it, if and only if it is in range.
   */
  lemma RoundTripIffInRange(reg: Registry, typeName: Text, v: Value, pre: seq<Byte>, post: seq<Byte>)
    requires Guarded(reg) && AllDistinct(reg) && Sized(v) && Encode(reg, typeName, v).Ok?
    ensures var e := Encode(reg, typeName, v).value;
      Decode(reg, typeName, pre + e + post, |pre|) == Ok(Decoded(v, |pre| + |e|)) <==> InRange(reg, typeName, v)
  {
    hide Encode, Decode, Canon, InRange, Guarded, AllDistinct, Sized;
    var e := Encode(reg, typeName, v).value;
    assert At(pre + e + post, |pre|, e);
    RoundTripAt(reg, typeName, v, pre + e + post, |pre|);
    if InRange(reg, typeName, v) { InRangeComesBack(reg, typeName, v); }
    if Canon(reg, typeName, v) == Ok(v) { OnlyInRange(reg, typeName, v); }
  }

  /** The encodings of a type form a prefix code: values in range that share the beginning of a stream are the same value. */
  lemma EncodingsUnambiguous(reg: Registry, typeName: Text, v: Value, w: Value, x: seq<Byte>, y: seq<Byte>)
    requires Guarded(reg) && Sized(v) && Sized(w) && InRange(reg, typeName, v) && InRange(reg, typeName, w)
    requires Encode(reg, typeName, v).Ok? && Encode(reg, typeName, w).Ok?
    requires Encode(reg, typeName, v).value + x == Encode(reg, typeName, w).value + y
    ensures v == w && x == y
  {
    hide Encode, Decode, Canon, InRange, Guarded, Sized;
    var e, f := Encode(reg, typeName, v).value, Encode(reg, typeName, w).value;
    InRangeComesBack(reg, typeName, v);
    InRangeComesBack(reg, typeName, w);
    assert At(e + x, 0, e) && At(f + y, 0, f);
    RoundTripAt(reg, typeName, v, e + x, 0);
    RoundTripAt(reg, typeName, w, e + x, 0);
    assert x == (e + x)[|e|..] == (f + y)[|f|..] == y;
  }

  /** A string that begins with U+FEFF comes back without it. */
  lemma LeadingBomIsLost(reg: Registry)
    requires Guarded(reg)
    ensures var v := VStr(BOM + Ascii("a"));
      && Encode(reg, Ascii("string"), v).Ok?
      && Canon(reg, Ascii("string"), v) == Ok(VStr(Ascii("a"))) && VStr(Ascii("a")) != v
  {
    StringIsPrimitive();
    var s := BOM + Ascii("a");
    assert s[..3] == BOM && s[3..] == Ascii("a");
  }

  lemma StringIsPrimitive()
    ensures PrimOf(Resolve(Ascii("string"))) == Some(PString) && !Inherited(Ascii("string"))
  {
    var s := Ascii("string");
    assert |s| == 6 && |Ascii("std_msgs/")| == 9;
    assert AliasOf(s) == None;
    assert SLASH !in s;
    assert Lower(s) == s;
  }

  /** A negative number is accepted as a char by the encoder and refused by the decoder. */
  lemma NegativeCharIsRefused(i: int)
    requires -128 <= i < 0
    ensures EncodePrim(PChar, VInt(i)).Ok?
    ensures DecodePrim(PChar, EncodePrim(PChar, VInt(i)).value, 0) == Err(CharPayload)
  {
    var e := EncodePrim(PChar, VInt(i)).value;
    assert At(e, 0, e);
    CharRoundTrip(i, e, 0);
  }

  /** A field under the name of the prototype is encoded and decoded, and lost all the same, for every message that has it. */
  lemma PrototypeFieldIsLost(reg: Registry, typeName: Text, v: Value, pre: seq<Byte>, post: seq<Byte>)
    requires Guarded(reg) && AllDistinct(reg) && Sized(v) && Encode(reg, typeName, v).Ok?
    requires v.VObj? && PROTO in v.fields && PrimOf(Resolve(typeName)).None?
    ensures var e := Encode(reg, typeName, v).value;
      Decode(reg, typeName, pre + e + post, |pre|) != Ok(Decoded(v, |pre| + |e|))
  {
    hide Encode, Decode, Guarded, AllDistinct, Sized, Inherited;
    RoundTripIffInRange(reg, typeName, v, pre, post);
  }

  /** Such a message: one string under the name of the prototype. */
  lemma PrototypeFieldEncodes(t: Text)
    requires !Inherited(t) && AliasOf(t).None? && NormalizeTypeName(t, None) == t && PrimOf(t).None?
    ensures var reg: Registry := map[t := [Field(PROTO, Ascii("string"), false, None)]]; var v := VObj(map[PROTO := VStr([65])]);
      Guarded(reg) && Encode(reg, t, v) == Ok(LE(1, 4) + [65])
  {
    var f := Field(PROTO, Ascii("string"), false, None);
    var reg: Registry := map[t := [f]];
    var v := VObj(map[PROTO := VStr([65])]);
    StringIsPrimitive();
    hide Inherited, LE, PrimOf, NormalizeTypeName;
    assert IsRank(reg, map[t := 0]);
    assert reg[t] == [f] && [f][1..] == [];
    assert FieldOf(v, PROTO) == VStr([65]);
    assert EncodeField(reg, t, f, v) == Ok(LE(1, 4) + [65]);
    assert EncodeFields(reg, t, [], v) == Ok([]);
    assert LE(1, 4) + [65] + [] == LE(1, 4) + [65];
  }

  /** A type with the name of something that every object inherits cannot be used, registered or not. */
  lemma InheritedTypeIsRefused(reg: Registry, typeName: Text, v: Value, b: seq<Byte>, off: nat)
    requires Guarded(reg) && Inherited(typeName) && off <= |b|
    ensures Encode(reg, typeName, v) == Err(InheritedName) && Decode(reg, typeName, b, off) == Err(InheritedName)
  {
  }
}
