/** What the names of the wire format mean, byte by byte: primitive types, their aliases and the type bytes of envelopes. */
module WireFormat {
  import opened Bytes
  import opened TopicCodec
  import opened CodecRoundTrip
  import opened CodecRange
  import opened TopicEnvelope

  /* ---------- the names of primitive types ---------- */

  /** A short name in lower case stands for itself. */
  lemma ShortName(s: Text)
    requires 1 <= |s| <= 8 && forall i :: 0 <= i < |s| ==> s[i] != SLASH && !(65 <= s[i] <= 90)
    ensures AliasOf(s).None? && !Inherited(s) && Lower(s) == s
    ensures PrimOf(s).Some? ==> Resolve(s) == s
  {
    assert |Ascii("std_msgs/")| == 9;
    assert Ascii("valueOf")[5] == 79 && Ascii("toString")[2] == 83;
    assert Lower(s) == s;
  }

  /* Names of one length differ in the places named here. */

  lemma FourLetters()
    ensures var b, i, c, y, m := Ascii("bool"), Ascii("int8"), Ascii("char"), Ascii("byte"), Ascii("time");
      |b| == |i| == |c| == |y| == |m| == 4 && (b[0], i[0], c[0], y[0], m[0]) == (98, 105, 99, 98, 116) && (b[1], y[1]) == (111, 121)
  {
  }

  lemma FiveLetters()
    ensures var u, i, j, k := Ascii("uint8"), Ascii("int16"), Ascii("int32"), Ascii("int64");
      |u| == |i| == |j| == |k| == 5 && (u[3], i[3], j[3], k[3]) == (116, 49, 51, 54)
  {
  }

  lemma SixLetters()
    ensures var s, i, j, k := Ascii("string"), Ascii("uint16"), Ascii("uint32"), Ascii("uint64");
      |s| == |i| == |j| == |k| == 6 && (s[4], i[4], j[4], k[4]) == (110, 49, 51, 54)
  {
  }

  lemma SevenLetters()
    ensures var i, j := Ascii("float32"), Ascii("float64");
      |i| == |j| == 7 && (i[5], j[5]) == (51, 54)
  {
  }

  lemma WordNames()
    ensures PrimOf(Ascii("string")) == Some(PString) && PrimOf(Ascii("bool")) == Some(PBool) && PrimOf(Ascii("char")) == Some(PChar)
    ensures PrimOf(Ascii("byte")) == Some(PInt(1, false)) && PrimOf(Ascii("duration")) == Some(PDuration) && PrimOf(Ascii("time")) == Some(PTime)
  {
    FourLetters(); SixLetters();
  }

  lemma SignedNames()
    ensures PrimOf(Ascii("int8")) == Some(PInt(1, true)) && PrimOf(Ascii("int16")) == Some(PInt(2, true))
    ensures PrimOf(Ascii("int32")) == Some(PInt(4, true)) && PrimOf(Ascii("int64")) == Some(PInt(8, true))
  {
    FourLetters(); FiveLetters();
  }

  lemma UnsignedNames()
    ensures PrimOf(Ascii("uint8")) == Some(PInt(1, false)) && PrimOf(Ascii("uint16")) == Some(PInt(2, false))
    ensures PrimOf(Ascii("uint32")) == Some(PInt(4, false)) && PrimOf(Ascii("uint64")) == Some(PInt(8, false))
  {
    FiveLetters(); SixLetters();
  }

  lemma FloatNames()
    ensures PrimOf(Ascii("float32")) == Some(PFloat(4)) && PrimOf(Ascii("float64")) == Some(PFloat(8))
  {
    SevenLetters();
  }

  /** The name, as it is written, stands for the primitive. */
  predicate Names(s: Text, p: Prim) { !Inherited(s) && PrimOf(Resolve(s)) == Some(p) }

  lemma LowerCase()
    ensures forall s :: s in Primitives ==> 1 <= |Ascii(s)| <= 8 && forall i :: 0 <= i < |Ascii(s)| ==> Ascii(s)[i] != SLASH && !(65 <= Ascii(s)[i] <= 90)
  {
  }

  const Primitives: set<string> := {"string", "bool", "int8", "char", "uint8", "byte", "int16", "uint16", "int32", "uint32", "int64", "uint64",
    "float32", "float64", "duration", "time"}

  lemma PrimitiveName(s: string)
    requires s in Primitives
    ensures var t := Ascii(s); PrimOf(t).Some? && Resolve(t) == t && Lower(t) == t && !Inherited(t) && 1 <= |t| <= 8 && SLASH !in t
  {
    hide Ascii, PrimOf, Resolve, Inherited, Lower;
    WordNames(); SignedNames(); UnsignedNames(); FloatNames();
    LowerCase();
    ShortName(Ascii(s));
  }

  lemma IntegerNames()
    ensures Names(Ascii("int8"), PInt(1, true)) && Names(Ascii("uint8"), PInt(1, false)) && Names(Ascii("byte"), PInt(1, false))
    ensures Names(Ascii("int16"), PInt(2, true)) && Names(Ascii("uint16"), PInt(2, false))
    ensures Names(Ascii("int32"), PInt(4, true)) && Names(Ascii("uint32"), PInt(4, false))
    ensures Names(Ascii("int64"), PInt(8, true)) && Names(Ascii("uint64"), PInt(8, false))
  {
    SignedNames(); UnsignedNames(); WordNames(); LowerCase();
    hide PrimOf, Inherited, Resolve, Ascii;
    ShortName(Ascii("int8")); ShortName(Ascii("uint8")); ShortName(Ascii("byte")); ShortName(Ascii("int16")); ShortName(Ascii("uint16"));
    ShortName(Ascii("int32")); ShortName(Ascii("uint32")); ShortName(Ascii("int64")); ShortName(Ascii("uint64"));
  }

  lemma OtherNames()
    ensures Names(Ascii("string"), PString) && Names(Ascii("bool"), PBool) && Names(Ascii("char"), PChar)
    ensures Names(Ascii("float32"), PFloat(4)) && Names(Ascii("float64"), PFloat(8))
    ensures Names(Ascii("duration"), PDuration) && Names(Ascii("time"), PTime)
  {
    WordNames(); FloatNames(); LowerCase();
    hide PrimOf, Inherited, Resolve, Ascii;
    ShortName(Ascii("string")); ShortName(Ascii("bool")); ShortName(Ascii("char")); ShortName(Ascii("float32")); ShortName(Ascii("float64"));
    ShortName(Ascii("duration")); ShortName(Ascii("time"));
  }

  /* ---------- bytes and numbers ---------- */

  function U16(b: seq<Byte>, off: nat): int
    requires off + 2 <= |b|
  {
    var x: int, y: int := b[off], b[off + 1]; x + 0x100 * y
  }

  function U32(b: seq<Byte>, off: nat): int
    requires off + 4 <= |b|
  {
    var x: int, y: int, z: int, w: int := b[off], b[off + 1], b[off + 2], b[off + 3];
    x + 0x100 * y + 0x1_0000 * z + 0x100_0000 * w
  }

  function U64(b: seq<Byte>, off: nat): int
    requires off + 8 <= |b|
  {
    0x1_0000_0000 * U32(b, off + 4) + U32(b, off)
  }

  /** The number with the sign bit of weight `half`. */
  function Signed(u: int, half: int): int { if u < half then u else u - 2 * half }

  lemma OneRead(b: seq<Byte>, off: nat)
    requires off + 1 <= |b|
    ensures FromLE(b[off..off + 1]) == b[off]
  {
    assert b[off..off + 1] == [b[off]] && [b[off]][1..] == [];
  }

  lemma {:induction false} NextRead(b: seq<Byte>, off: nat, n: nat)
    requires off + n + 1 <= |b|
    ensures FromLE(b[off..off + n + 1]) == b[off] + 256 * FromLE(b[off + 1..off + 1 + n])
  {
    var s := b[off..off + n + 1];
    assert s[1..] == b[off + 1..off + 1 + n];
  }

  lemma TwoRead(b: seq<Byte>, off: nat)
    requires off + 2 <= |b|
    ensures FromLE(b[off..off + 2]) == U16(b, off)
  {
    NextRead(b, off, 1); OneRead(b, off + 1);
  }

  lemma FourRead(b: seq<Byte>, off: nat)
    requires off + 4 <= |b|
    ensures FromLE(b[off..off + 4]) == U32(b, off)
  {
    NextRead(b, off, 3); NextRead(b, off + 1, 2); TwoRead(b, off + 2);
  }

  lemma EightRead(b: seq<Byte>, off: nat)
    requires off + 8 <= |b|
    ensures FromLE(b[off..off + 8]) == U64(b, off)
  {
    NextRead(b, off, 7); NextRead(b, off + 1, 6); NextRead(b, off + 2, 5); NextRead(b, off + 3, 4); FourRead(b, off + 4);
  }

  lemma Powers()
    ensures Pow256(1) == 0x100 && Pow256(2) == 0x1_0000 && Pow256(4) == 0x1_0000_0000 && Pow256(8) == 0x1_0000_0000_0000_0000
  {
    PowValues();
    assert Pow256(8) == 256 * Pow256(7) && Pow256(7) == 256 * Pow256(6) && Pow256(6) == 256 * Pow256(5) && Pow256(5) == 256 * Pow256(4);
  }

  lemma PrimIsRead(reg: Registry, s: Text, p: Prim, b: seq<Byte>, off: nat)
    requires Guarded(reg) && Names(s, p) && off <= |b|
    ensures Decode(reg, s, b, off) == DecodePrim(p, b, off)
  {
    hide Inherited, PrimOf;
  }

  lemma PrimIsWritten(reg: Registry, s: Text, p: Prim, v: Value)
    requires Guarded(reg) && Names(s, p)
    ensures Encode(reg, s, v) == EncodePrim(p, v)
  {
    hide Inherited, PrimOf;
  }

  /* ---------- decoding by name ---------- */

  lemma SmallIntegersAreRead(reg: Registry, b: seq<Byte>, off: nat)
    requires Guarded(reg) && off <= |b|
    ensures off < |b| ==> Decode(reg, Ascii("uint8"), b, off) == Ok(Decoded(VInt(b[off]), off + 1))
    ensures off < |b| ==> Decode(reg, Ascii("byte"), b, off) == Ok(Decoded(VInt(b[off]), off + 1))
    ensures off < |b| ==> Decode(reg, Ascii("int8"), b, off) == Ok(Decoded(VInt(Signed(b[off], 0x80)), off + 1))
    ensures off + 2 <= |b| ==> Decode(reg, Ascii("uint16"), b, off) == Ok(Decoded(VInt(U16(b, off)), off + 2))
    ensures off + 2 <= |b| ==> Decode(reg, Ascii("int16"), b, off) == Ok(Decoded(VInt(Signed(U16(b, off), 0x8000)), off + 2))
    ensures off == |b| ==> forall s :: s in {"uint8", "byte", "int8"} ==> Decode(reg, Ascii(s), b, off) == Err(Truncated)
    ensures off + 2 > |b| ==> forall s :: s in {"uint16", "int16"} ==> Decode(reg, Ascii(s), b, off) == Err(Truncated)
  {
    IntegerNames(); Powers();
    hide Ascii, Names, FromLE, Pow256, Decode, U16;
    PrimIsRead(reg, Ascii("uint8"), PInt(1, false), b, off); PrimIsRead(reg, Ascii("byte"), PInt(1, false), b, off);
    PrimIsRead(reg, Ascii("int8"), PInt(1, true), b, off);
    PrimIsRead(reg, Ascii("uint16"), PInt(2, false), b, off); PrimIsRead(reg, Ascii("int16"), PInt(2, true), b, off);
    if off < |b| { OneRead(b, off); }
    if off + 2 <= |b| { TwoRead(b, off); }
  }

  lemma IntegersAreRead(reg: Registry, b: seq<Byte>, off: nat)
    requires Guarded(reg) && off <= |b|
    ensures off + 4 <= |b| ==> Decode(reg, Ascii("uint32"), b, off) == Ok(Decoded(VInt(U32(b, off)), off + 4))
    ensures off + 4 <= |b| ==> Decode(reg, Ascii("int32"), b, off) == Ok(Decoded(VInt(Signed(U32(b, off), 0x8000_0000)), off + 4))
    ensures off + 8 <= |b| ==> Decode(reg, Ascii("uint64"), b, off) == Ok(Decoded(VInt(U64(b, off)), off + 8))
    ensures off + 8 <= |b| ==> Decode(reg, Ascii("int64"), b, off) == Ok(Decoded(VInt(Signed(U64(b, off), 0x8000_0000_0000_0000)), off + 8))
    ensures off + 4 > |b| ==> forall s :: s in {"uint32", "int32"} ==> Decode(reg, Ascii(s), b, off) == Err(Truncated)
    ensures off + 8 > |b| ==> forall s :: s in {"uint64", "int64"} ==> Decode(reg, Ascii(s), b, off) == Err(Truncated)
  {
    IntegerNames(); Powers();
    hide Ascii, Names, FromLE, Pow256, Decode, U32, U64;
    PrimIsRead(reg, Ascii("uint32"), PInt(4, false), b, off); PrimIsRead(reg, Ascii("int32"), PInt(4, true), b, off);
    PrimIsRead(reg, Ascii("uint64"), PInt(8, false), b, off); PrimIsRead(reg, Ascii("int64"), PInt(8, true), b, off);
    if off + 4 <= |b| { FourRead(b, off); }
    if off + 8 <= |b| { EightRead(b, off); }
  }

  lemma WordsAreRead(reg: Registry, b: seq<Byte>, off: nat)
    requires Guarded(reg) && off <= |b|
    ensures off < |b| ==> Decode(reg, Ascii("bool"), b, off) == Ok(Decoded(VBool(b[off] != 0), off + 1))
    ensures off < |b| ==> Decode(reg, Ascii("char"), b, off) == if b[off] < 128 then Ok(Decoded(VStr([b[off]]), off + 1)) else Err(CharPayload)
    ensures off + 4 <= |b| ==> Decode(reg, Ascii("float32"), b, off) == Ok(Decoded(VBits(b[off..off + 4]), off + 4))
    ensures off + 8 <= |b| ==> Decode(reg, Ascii("float64"), b, off) == Ok(Decoded(VBits(b[off..off + 8]), off + 8))
    ensures off == |b| ==> forall s :: s in {"bool", "char"} ==> Decode(reg, Ascii(s), b, off) == Err(Truncated)
    ensures off + 4 > |b| ==> Decode(reg, Ascii("float32"), b, off) == Err(Truncated)
    ensures off + 8 > |b| ==> Decode(reg, Ascii("float64"), b, off) == Err(Truncated)
  {
    OtherNames(); Powers();
    hide Ascii, Names, FromLE, Pow256, Decode;
    PrimIsRead(reg, Ascii("bool"), PBool, b, off); PrimIsRead(reg, Ascii("char"), PChar, b, off);
    PrimIsRead(reg, Ascii("float32"), PFloat(4), b, off); PrimIsRead(reg, Ascii("float64"), PFloat(8), b, off);
    if off < |b| { OneRead(b, off); }
  }

  /** The text of a string field: n bytes of UTF-8, without a byte order mark at their head. */
  function Unmarked(s: Text): Text {
    if |s| >= 3 && s[0] == 0xEF && s[1] == 0xBB && s[2] == 0xBF then s[3..] else s
  }

  lemma UnmarkedIsDecoded(s: Text)
    ensures DecodeText(s) == Unmarked(s)
  {
    if |s| >= 3 { assert s[..3] == [s[0], s[1], s[2]]; }
  }

  lemma CompoundsAreRead(reg: Registry, b: seq<Byte>, off: nat)
    requires Guarded(reg) && off <= |b|
    ensures off + 8 <= |b| ==> Decode(reg, Ascii("time"), b, off) == Ok(Decoded(VTime(U32(b, off), U32(b, off + 4)), off + 8))
    ensures off + 8 <= |b| ==>
      var sec, nsec := Signed(U32(b, off), 0x8000_0000), Signed(U32(b, off + 4), 0x8000_0000);
      Decode(reg, Ascii("duration"), b, off) == Ok(Decoded(if nsec == 0 then VInt(sec) else VFraction(sec, nsec), off + 8))
    ensures off + 4 <= |b| && off + 4 + U32(b, off) <= |b| ==>
      var n := U32(b, off);
      Decode(reg, Ascii("string"), b, off) == Ok(Decoded(VStr(Unmarked(b[off + 4..off + 4 + n])), off + 4 + n))
    ensures off + 8 > |b| ==> forall s :: s in {"time", "duration"} ==> Decode(reg, Ascii(s), b, off) == Err(Truncated)
    ensures off + 4 > |b| || off + 4 + U32(b, off) > |b| ==> Decode(reg, Ascii("string"), b, off) == Err(Truncated)
  {
    OtherNames(); Powers();
    hide Ascii, Names, FromLE, Pow256, Decode, U32, DecodeText, Unmarked;
    PrimIsRead(reg, Ascii("time"), PTime, b, off); PrimIsRead(reg, Ascii("duration"), PDuration, b, off); PrimIsRead(reg, Ascii("string"), PString, b, off);
    if off + 8 <= |b| { FourRead(b, off); FourRead(b, off + 4); }
    if off + 4 <= |b| {
      FourRead(b, off);
      if off + 4 + U32(b, off) <= |b| { UnmarkedIsDecoded(b[off + 4..off + 4 + U32(b, off)]); }
    }
  }

  /* ---------- encoding by name ---------- */

  function Low1(i: int): seq<Byte> { [i % 0x100] }
  function Low2(i: int): seq<Byte> { [i % 0x100, i / 0x100 % 0x100] }
  function Low4(i: int): seq<Byte> { [i % 0x100, i / 0x100 % 0x100, i / 0x1_0000 % 0x100, i / 0x100_0000 % 0x100] }
  function Low8(i: int): seq<Byte> { Low4(i) + Low4(i / 0x1_0000_0000) }

  lemma NextStored(i: int, w: nat)
    requires w >= 1
    ensures LE(i, w) == [i % 256] + LE(i / 256, w - 1)
  {
  }

  lemma DivTwice(i: int)
    ensures i / 0x100 / 0x100 == i / 0x1_0000 && i / 0x1_0000 / 0x100 == i / 0x100_0000 && i / 0x100_0000 / 0x100 == i / 0x1_0000_0000
  {
  }

  lemma TwoStored(i: int)
    ensures LE(i, 1) == Low1(i) && LE(i, 2) == Low2(i)
  {
    assert LE(i / 256 / 256, 0) == [];
    NextStored(i, 1); NextStored(i, 2); NextStored(i / 256, 1);
  }

  lemma FourStored(i: int)
    ensures LE(i, 4) == Low4(i)
  {
    NextStored(i, 4); NextStored(i / 256, 3); TwoStored(i / 256 / 256);
    DivTwice(i);
    hide LE;
  }

  lemma EightStored(i: int)
    ensures LE(i, 8) == Low8(i)
  {
    var j, k, l := i / 0x100, i / 0x1_0000, i / 0x100_0000;
    NextStored(i, 8); NextStored(j, 7); NextStored(k, 6); NextStored(l, 5);
    DivTwice(i);
    FourStored(i / 0x1_0000_0000);
    hide LE;
  }

  lemma IntIsWritten(reg: Registry, s: string, w: nat, signed: bool, i: int)
    requires Guarded(reg) && Names(Ascii(s), PInt(w, signed))
    ensures Encode(reg, Ascii(s), VInt(i)) == Ok(LE(i, w)) && Encode(reg, Ascii(s), VNull) == Ok(LE(0, w))
  {
    hide Names, LE, Encode;
    PrimIsWritten(reg, Ascii(s), PInt(w, signed), VInt(i)); PrimIsWritten(reg, Ascii(s), PInt(w, signed), VNull);
  }

  lemma IntegersAreWritten(reg: Registry, i: int)
    requires Guarded(reg)
    ensures forall s :: s in {"int8", "uint8", "byte"} ==> Encode(reg, Ascii(s), VInt(i)) == Ok(Low1(i)) && Encode(reg, Ascii(s), VNull) == Ok(Low1(0))
    ensures forall s :: s in {"int16", "uint16"} ==> Encode(reg, Ascii(s), VInt(i)) == Ok(Low2(i)) && Encode(reg, Ascii(s), VNull) == Ok(Low2(0))
    ensures forall s :: s in {"int32", "uint32"} ==> Encode(reg, Ascii(s), VInt(i)) == Ok(Low4(i)) && Encode(reg, Ascii(s), VNull) == Ok(Low4(0))
    ensures forall s :: s in {"int64", "uint64"} ==> Encode(reg, Ascii(s), VInt(i)) == Ok(Low8(i)) && Encode(reg, Ascii(s), VNull) == Ok(Low8(0))
  {
    IntegerNames();
    TwoStored(i); FourStored(i); EightStored(i); TwoStored(0); FourStored(0); EightStored(0);
    hide Ascii, Names, Encode, LE, Low1, Low2, Low4, Low8;
    IntIsWritten(reg, "int8", 1, true, i); IntIsWritten(reg, "uint8", 1, false, i); IntIsWritten(reg, "byte", 1, false, i);
    IntIsWritten(reg, "int16", 2, true, i); IntIsWritten(reg, "uint16", 2, false, i);
    IntIsWritten(reg, "int32", 4, true, i); IntIsWritten(reg, "uint32", 4, false, i);
    IntIsWritten(reg, "int64", 8, true, i); IntIsWritten(reg, "uint64", 8, false, i);
  }

  lemma BoolIsWritten(reg: Registry, v: Value)
    requires Guarded(reg) && !v.VBits?
    ensures Encode(reg, Ascii("bool"), v) == Ok([if v.VNull? || v == VBool(false) || v == VInt(0) || (v.VStr? && v.text == []) then 0 else 1])
  {
    OtherNames();
    hide Ascii, Names, Encode;
    PrimIsWritten(reg, Ascii("bool"), PBool, v);
  }

  lemma CharIsWritten(reg: Registry, v: Value)
    requires Guarded(reg)
    ensures v.VStr? ==> Encode(reg, Ascii("char"), v) == if |v.text| == 1 && v.text[0] <= 127 then Ok([v.text[0]]) else Err(CharValue)
    ensures v.VInt? ==> Encode(reg, Ascii("char"), v) == if -128 <= v.i <= 127 then Ok(Low1(v.i)) else Err(CharValue)
    ensures v.VNull? ==> Encode(reg, Ascii("char"), v) == Ok([0])
  {
    OtherNames();
    hide Ascii, Names, Encode, LE;
    PrimIsWritten(reg, Ascii("char"), PChar, v);
    TwoStored(if v.VInt? then v.i else if v.VStr? && |v.text| == 1 then v.text[0] else 0);
  }

  lemma FloatsAreWritten(reg: Registry, v: Value)
    requires Guarded(reg)
    ensures v.VBits? && |v.bits| == 4 ==> Encode(reg, Ascii("float32"), v) == Ok(v.bits)
    ensures v.VBits? && |v.bits| == 8 ==> Encode(reg, Ascii("float64"), v) == Ok(v.bits)
    ensures v.VNull? ==> Encode(reg, Ascii("float32"), v) == Ok(Low4(0)) && Encode(reg, Ascii("float64"), v) == Ok(Low8(0))
  {
    OtherNames();
    hide Ascii, Names, Encode, LE, Low4, Low8;
    PrimIsWritten(reg, Ascii("float32"), PFloat(4), v); PrimIsWritten(reg, Ascii("float64"), PFloat(8), v);
    FourStored(0); EightStored(0);
  }

  lemma StringIsWritten(reg: Registry, v: Value)
    requires Guarded(reg)
    ensures v.VStr? ==> Encode(reg, Ascii("string"), v) == Ok(Low4(|v.text|) + v.text)
    ensures v.VNull? ==> Encode(reg, Ascii("string"), v) == Ok([0, 0, 0, 0])
  {
    OtherNames();
    hide Ascii, Names, Encode, LE, Low4;
    PrimIsWritten(reg, Ascii("string"), PString, v);
    Zeros();
    FourStored(if v.VStr? then |v.text| else 0);
  }

  lemma TimesAreWritten(reg: Registry, v: Value)
    requires Guarded(reg)
    ensures v.VTime? ==> Encode(reg, Ascii("time"), v) == Ok(Low4(v.sec) + Low4(v.nsec))
    ensures v.VInt? ==> Encode(reg, Ascii("time"), v) == Ok(Low4(if v.i < 0 then 0 else v.i) + [0, 0, 0, 0])
    ensures v.VInt? ==> Encode(reg, Ascii("duration"), v) == Ok(Low4(v.i) + [0, 0, 0, 0])
    ensures v.VNull? ==> Encode(reg, Ascii("time"), v) == Encode(reg, Ascii("duration"), v) == Ok([0, 0, 0, 0, 0, 0, 0, 0])
  {
    OtherNames();
    hide Ascii, Names, Encode, LE, Low4;
    PrimIsWritten(reg, Ascii("time"), PTime, v); PrimIsWritten(reg, Ascii("duration"), PDuration, v);
    Zeros();
    var i, j := if v.VTime? then v.sec else if v.VInt? then v.i else 0, if v.VTime? then v.nsec else 0;
    FourStored(i); FourStored(j);
  }

  lemma Zeros()
    ensures LE(0, 4) == [0, 0, 0, 0] == Low4(0) && LE(0, 4) + LE(0, 4) == [0, 0, 0, 0, 0, 0, 0, 0]
  {
    FourStored(0);
  }

  /* ---------- which numbers come back ---------- */

  lemma IntComesBackIff(reg: Registry, s: string, w: nat, signed: bool, i: int, pre: seq<Byte>, post: seq<Byte>)
    requires Guarded(reg) && Names(Ascii(s), PInt(w, signed))
    ensures var e := Encode(reg, Ascii(s), VInt(i)).value;
      Decode(reg, Ascii(s), pre + e + post, |pre|) == Ok(Decoded(VInt(i), |pre| + w)) <==> InRangeInt(i, w, signed)
  {
    hide LE, DecodePrim;
    var p, e, b := PInt(w, signed), LE(i, w), pre + LE(i, w) + post;
    IntIsWritten(reg, s, w, signed, i);
    PrimIsRead(reg, Ascii(s), p, b, |pre|);
    assert b[|pre|..|pre| + |e|] == e;
    PrimRoundTrip(p, VInt(i), b, |pre|);
    WrapIdentity(i, w, signed);
    hide Names, Ascii, Encode, Decode, Wrap, InRangeInt;
  }

  predicate ComesBack(reg: Registry, s: string, i: int, n: nat, pre: seq<Byte>, post: seq<Byte>)
    requires Guarded(reg)
  {
    var e := Encode(reg, Ascii(s), VInt(i));
    e.Ok? && Decode(reg, Ascii(s), pre + e.value + post, |pre|) == Ok(Decoded(VInt(i), |pre| + n))
  }

  lemma IntegersComeBackIff(reg: Registry, i: int, pre: seq<Byte>, post: seq<Byte>)
    requires Guarded(reg)
    ensures ComesBack(reg, "int8", i, 1, pre, post) <==> -0x80 <= i < 0x80
    ensures ComesBack(reg, "uint8", i, 1, pre, post) <==> 0 <= i < 0x100
    ensures ComesBack(reg, "byte", i, 1, pre, post) <==> 0 <= i < 0x100
    ensures ComesBack(reg, "int16", i, 2, pre, post) <==> -0x8000 <= i < 0x8000
    ensures ComesBack(reg, "uint16", i, 2, pre, post) <==> 0 <= i < 0x1_0000
    ensures ComesBack(reg, "int32", i, 4, pre, post) <==> -0x8000_0000 <= i < 0x8000_0000
    ensures ComesBack(reg, "uint32", i, 4, pre, post) <==> 0 <= i < 0x1_0000_0000
    ensures ComesBack(reg, "int64", i, 8, pre, post) <==> -0x8000_0000_0000_0000 <= i < 0x8000_0000_0000_0000
    ensures ComesBack(reg, "uint64", i, 8, pre, post) <==> 0 <= i < 0x1_0000_0000_0000_0000
  {
    IntegerNames(); Powers();
    hide Names, Encode, Decode, Pow256, LE, Ascii;
    IntIsWritten(reg, "int8", 1, true, i); IntComesBackIff(reg, "int8", 1, true, i, pre, post);
    IntIsWritten(reg, "uint8", 1, false, i); IntComesBackIff(reg, "uint8", 1, false, i, pre, post);
    IntIsWritten(reg, "byte", 1, false, i); IntComesBackIff(reg, "byte", 1, false, i, pre, post);
    IntIsWritten(reg, "int16", 2, true, i); IntComesBackIff(reg, "int16", 2, true, i, pre, post);
    IntIsWritten(reg, "uint16", 2, false, i); IntComesBackIff(reg, "uint16", 2, false, i, pre, post);
    IntIsWritten(reg, "int32", 4, true, i); IntComesBackIff(reg, "int32", 4, true, i, pre, post);
    IntIsWritten(reg, "uint32", 4, false, i); IntComesBackIff(reg, "uint32", 4, false, i, pre, post);
    IntIsWritten(reg, "int64", 8, true, i); IntComesBackIff(reg, "int64", 8, true, i, pre, post);
    IntIsWritten(reg, "uint64", 8, false, i); IntComesBackIff(reg, "uint64", 8, false, i, pre, post);
  }
}
