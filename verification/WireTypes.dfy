/** Which type names are which: the letter case of primitive names, the aliases of standard messages, and their type bytes. */
module WireTypes {
  import opened Bytes
  import opened TopicCodec
  import opened CodecRoundTrip
  import opened TopicEnvelope
  import opened WireFormat
  import opened CodecRuntime

  /* ---------- aliases ---------- */

  /* Standard names of one length differ in the places named here. */

  lemma ThirteenLetters()
    ensures var b, y, c := Ascii("std_msgs/Bool"), Ascii("std_msgs/Byte"), Ascii("std_msgs/Char");
      |b| == |y| == |c| == 13 && (b[10], y[10], c[10]) == (111, 121, 104) && b[0] == y[0] == c[0] == 115 && b[8] == y[8] == c[8] == SLASH
  {
  }

  lemma FourteenLetters()
    ensures var i, j := Ascii("std_msgs/Int32"), Ascii("std_msgs/Int64");
      |i| == |j| == 14 && (i[12], j[12]) == (51, 54) && i[0] == j[0] == 115 && i[8] == j[8] == SLASH
  {
  }

  lemma FifteenLetters()
    ensures var s, i, j := Ascii("std_msgs/String"), Ascii("std_msgs/UInt32"), Ascii("std_msgs/UInt64");
      |s| == |i| == |j| == 15 && (s[13], i[13], j[13]) == (110, 51, 54) && s[0] == i[0] == j[0] == 115 && s[8] == i[8] == j[8] == SLASH
  {
  }

  lemma SixteenLetters()
    ensures var i, j := Ascii("std_msgs/Float32"), Ascii("std_msgs/Float64");
      |i| == |j| == 16 && (i[14], j[14]) == (51, 54) && i[0] == j[0] == 115 && i[8] == j[8] == SLASH
  {
  }

  lemma LongerNames()
    ensures var d, c := Ascii("std_msgs/Duration"), Ascii("std_msgs/ColorRGBA");
      |d| == 17 && |c| == 18 && d[0] == c[0] == 115 && d[8] == c[8] == SLASH
  {
  }

  lemma NotInherited(s: Text)
    requires s != [] && s[0] == 115
    ensures !Inherited(s)
  {
  }

  lemma AliasesOfWords()
    ensures AliasOf(Ascii("std_msgs/Bool")) == Some(Ascii("bool")) && AliasOf(Ascii("std_msgs/Byte")) == Some(Ascii("byte"))
    ensures AliasOf(Ascii("std_msgs/Char")) == Some(Ascii("char")) && AliasOf(Ascii("std_msgs/String")) == Some(Ascii("string"))
    ensures AliasOf(Ascii("std_msgs/Duration")) == Some(Ascii("duration"))
  {
    ThirteenLetters(); FifteenLetters(); LongerNames();
  }

  lemma AliasesOfNumbers()
    ensures AliasOf(Ascii("std_msgs/Int32")) == Some(Ascii("int32")) && AliasOf(Ascii("std_msgs/Int64")) == Some(Ascii("int64"))
    ensures AliasOf(Ascii("std_msgs/UInt32")) == Some(Ascii("uint32")) && AliasOf(Ascii("std_msgs/UInt64")) == Some(Ascii("uint64"))
    ensures AliasOf(Ascii("std_msgs/Float32")) == Some(Ascii("float32")) && AliasOf(Ascii("std_msgs/Float64")) == Some(Ascii("float64"))
  {
    FourteenLetters(); FifteenLetters(); SixteenLetters();
  }

  lemma AliasIs(reg: Registry, a: Text, s: Text, v: Value, b: seq<Byte>, off: nat)
    requires Guarded(reg) && off <= |b| && AliasOf(a) == Some(s) && !Inherited(a) && !Inherited(s)
    requires PrimOf(s).Some? && Resolve(s) == s
    ensures Encode(reg, a, v) == Encode(reg, s, v) && Decode(reg, a, b, off) == Decode(reg, s, b, off)
  {
    hide AliasOf, Inherited, PrimOf;
  }

  predicate Same(reg: Registry, a: string, s: string, v: Value, b: seq<Byte>, off: nat)
    requires Guarded(reg) && off <= |b|
  {
    Encode(reg, Ascii(a), v) == Encode(reg, Ascii(s), v) && Decode(reg, Ascii(a), b, off) == Decode(reg, Ascii(s), b, off)
  }

  lemma AliasesAreTheirTypes(reg: Registry, v: Value, b: seq<Byte>, off: nat)
    requires Guarded(reg) && off <= |b|
    ensures Same(reg, "std_msgs/String", "string", v, b, off) && Same(reg, "std_msgs/Bool", "bool", v, b, off)
    ensures Same(reg, "std_msgs/Byte", "byte", v, b, off) && Same(reg, "std_msgs/Char", "char", v, b, off)
    ensures Same(reg, "std_msgs/Int32", "int32", v, b, off) && Same(reg, "std_msgs/Int64", "int64", v, b, off)
    ensures Same(reg, "std_msgs/UInt32", "uint32", v, b, off) && Same(reg, "std_msgs/UInt64", "uint64", v, b, off)
    ensures Same(reg, "std_msgs/Float32", "float32", v, b, off) && Same(reg, "std_msgs/Float64", "float64", v, b, off)
    ensures Same(reg, "std_msgs/Duration", "duration", v, b, off)
  {
    AliasesOfWords(); AliasesOfNumbers();
    hide Ascii, AliasOf, Encode, Decode, PrimOf, Inherited, Resolve;
    OneAlias(reg, "std_msgs/String", "string", v, b, off); OneAlias(reg, "std_msgs/Bool", "bool", v, b, off);
    OneAlias(reg, "std_msgs/Byte", "byte", v, b, off); OneAlias(reg, "std_msgs/Char", "char", v, b, off);
    OneAlias(reg, "std_msgs/Int32", "int32", v, b, off); OneAlias(reg, "std_msgs/Int64", "int64", v, b, off);
    OneAlias(reg, "std_msgs/UInt32", "uint32", v, b, off); OneAlias(reg, "std_msgs/UInt64", "uint64", v, b, off);
    OneAlias(reg, "std_msgs/Float32", "float32", v, b, off); OneAlias(reg, "std_msgs/Float64", "float64", v, b, off);
    OneAlias(reg, "std_msgs/Duration", "duration", v, b, off);
  }

  lemma OneAlias(reg: Registry, a: string, s: string, v: Value, b: seq<Byte>, off: nat)
    requires Guarded(reg) && off <= |b| && AliasOf(Ascii(a)) == Some(Ascii(s)) && s in Primitives
    ensures Same(reg, a, s, v, b, off)
  {
    hide Ascii, AliasOf, Encode, Decode, PrimOf, Inherited, Resolve;
    AliasIsStandard(Ascii(a));
    NotInherited(Ascii(a));
    PrimitiveName(s);
    AliasIs(reg, Ascii(a), Ascii(s), v, b, off);
  }

  lemma AliasIsStandard(a: Text)
    requires AliasOf(a).Some?
    ensures a != [] && a[0] == 115
  {
    ThirteenLetters(); FourteenLetters(); FifteenLetters(); SixteenLetters(); LongerNames();
  }

  /* ---------- letter case, and all other names ---------- */

  /** The texts are the same but for the case of ASCII letters in s; t has none in upper case. */
  predicate InAnyCase(s: Text, t: Text) {
    |s| == |t| && forall i :: 0 <= i < |s| ==> s[i] == t[i] || (65 <= s[i] <= 90 && s[i] + 32 == t[i])
  }

  lemma InAnyCaseIsLower(s: Text, t: Text)
    requires InAnyCase(s, t) && Lower(t) == t && SLASH !in t
    ensures Lower(s) == t && SLASH !in s
  {
    forall i | 0 <= i < |s| ensures Lower(s)[i] == t[i] && s[i] != SLASH { assert Lower(t)[i] == t[i]; }
  }

  lemma CasedIsNotInherited(s: Text, t: string)
    requires t in Primitives && InAnyCase(s, Ascii(t))
    ensures !Inherited(s)
  {
    PrimitiveName(t);
    FourLetters(); SevenLetters();
    assert Ascii("duration")[0] == 100 && Ascii("duration")[2] == 114;
    assert Ascii("valueOf")[0] == 118 && Ascii("toString")[0] == 116;
  }

  lemma ShortIsNoAlias(s: Text)
    requires |s| <= 8
    ensures AliasOf(s).None?
  {
    ThirteenLetters(); FourteenLetters(); FifteenLetters(); SixteenLetters(); LongerNames();
  }

  /** The name of a primitive type means the same in any letter case. */
  lemma CaseDoesNotMatter(reg: Registry, s: Text, t: string, v: Value, b: seq<Byte>, off: nat)
    requires Guarded(reg) && off <= |b| && t in Primitives && InAnyCase(s, Ascii(t))
    ensures Encode(reg, s, v) == Encode(reg, Ascii(t), v) && Decode(reg, s, b, off) == Decode(reg, Ascii(t), b, off)
  {
    CasedIsNotInherited(s, t);
    hide Ascii, AliasOf, PrimOf, Inherited, Lower;
    PrimitiveName(t);
    InAnyCaseIsLower(s, Ascii(t));
    ShortIsNoAlias(s);
    assert Resolve(s) == Ascii(t);
    CasedIs(reg, s, Ascii(t), v, b, off);
  }

  lemma CasedIs(reg: Registry, s: Text, t: Text, v: Value, b: seq<Byte>, off: nat)
    requires Guarded(reg) && off <= |b| && Resolve(s) == t == Resolve(t) && PrimOf(t).Some? && !Inherited(s) && !Inherited(t)
    ensures Encode(reg, s, v) == Encode(reg, t, v) && Decode(reg, s, b, off) == Decode(reg, t, b, off)
  {
    hide Resolve, Inherited, PrimOf;
  }

  const Aliases: set<string> := {"std_msgs/String", "std_msgs/Bool", "std_msgs/Byte", "std_msgs/Char", "std_msgs/Int32", "std_msgs/Int64",
    "std_msgs/UInt32", "std_msgs/UInt64", "std_msgs/Float32", "std_msgs/Float64", "std_msgs/Duration"}

  lemma PrimIsNamed(t: Text)
    requires PrimOf(t).Some?
    ensures exists n :: n in Primitives && t == Ascii(n)
  {
    hide Ascii;
  }

  lemma StandsForItself(s: Text)
    requires (forall t :: t in Primitives ==> !InAnyCase(s, Ascii(t))) && (forall a :: a in Aliases ==> s != Ascii(a))
    ensures Resolve(s) == s && PrimOf(s).None?
  {
    NotAliased(s);
    hide Ascii, PrimOf, AliasOf;
    if PrimOf(Lower(s)).Some? { LowerNamed(s); }
    if PrimOf(s).Some? { SelfNamed(s); }
  }

  /** Any other name is looked up among the registered messages, as it is. */
  lemma OthersAreRegistered(reg: Registry, s: Text, v: Value, b: seq<Byte>, off: nat)
    requires Guarded(reg) && off <= |b| && !Inherited(s) && s !in reg && !v.VForeign?
    requires (forall t :: t in Primitives ==> !InAnyCase(s, Ascii(t))) && (forall a :: a in Aliases ==> s != Ascii(a))
    ensures Encode(reg, s, v) == Err(UnknownSchema) && Decode(reg, s, b, off) == Err(UnknownSchema)
  {
    hide Ascii, Inherited, PrimOf, Resolve, InAnyCase;
    StandsForItself(s);
  }

  lemma LowerNamed(s: Text)
    requires PrimOf(Lower(s)).Some?
    ensures exists n :: n in Primitives && InAnyCase(s, Ascii(n))
  {
    hide Ascii, PrimOf;
    PrimIsNamed(Lower(s));
    assert InAnyCase(s, Lower(s));
  }

  lemma SelfNamed(s: Text)
    requires PrimOf(s).Some?
    ensures exists n :: n in Primitives && InAnyCase(s, Ascii(n))
  {
    PrimIsNamed(s);
    hide Ascii;
  }

  lemma NotAliased(s: Text)
    requires forall a :: a in Aliases ==> s != Ascii(a)
    ensures AliasOf(s).None?
  {
    hide Ascii;
  }

  /* ---------- envelopes ---------- */

  /** The bytes of an envelope: its type byte, the length of the payload, the payload. */
  function Wrapped(code: Byte, payload: Result<seq<Byte>>): Result<seq<Byte>> {
    if payload.Err? then payload else Ok([code] + Low4(|payload.value|) + payload.value)
  }

  lemma EnvelopedIsWrapped(code: Byte, payload: seq<Byte>)
    ensures Ok(Enveloped(code, payload)) == Wrapped(code, Ok(payload))
  {
    FourStored(|payload|);
    hide LE;
  }

  /** Standard name, type byte and primitive belong together. */
  predicate Coded(s: string, code: Byte, t: string, p: Prim) {
    && code != 255 && StdCode(Ascii(s)) == Some(code) && StdType(code) == Some((Ascii(s), Primitive(p))) && !Inherited(Ascii(s))
    && PrimOf(Ascii(t)) == Some(p) && t in Primitives
  }

  lemma CodesOfWords()
    ensures StdCode(Ascii("std_msgs/String")) == Some(1) && StdCode(Ascii("std_msgs/Bool")) == Some(4) && StdCode(Ascii("std_msgs/Byte")) == Some(9)
    ensures StdCode(Ascii("std_msgs/Char")) == Some(10) && StdCode(Ascii("std_msgs/ColorRGBA")) == Some(11) && StdCode(Ascii("std_msgs/Duration")) == Some(12)
  {
    ThirteenLetters(); FifteenLetters(); LongerNames();
  }

  lemma CodesOfNumbers()
    ensures StdCode(Ascii("std_msgs/Int32")) == Some(2) && StdCode(Ascii("std_msgs/Float32")) == Some(3) && StdCode(Ascii("std_msgs/Float64")) == Some(5)
    ensures StdCode(Ascii("std_msgs/Int64")) == Some(6) && StdCode(Ascii("std_msgs/UInt32")) == Some(7) && StdCode(Ascii("std_msgs/UInt64")) == Some(8)
  {
    FourteenLetters(); FifteenLetters(); SixteenLetters();
  }

  lemma TypesOfCodes()
    ensures StdType(1) == Some((Ascii("std_msgs/String"), Primitive(PString))) && StdType(2) == Some((Ascii("std_msgs/Int32"), Primitive(PInt(4, true))))
    ensures StdType(3) == Some((Ascii("std_msgs/Float32"), Primitive(PFloat(4)))) && StdType(4) == Some((Ascii("std_msgs/Bool"), Primitive(PBool)))
    ensures StdType(5) == Some((Ascii("std_msgs/Float64"), Primitive(PFloat(8)))) && StdType(6) == Some((Ascii("std_msgs/Int64"), Primitive(PInt(8, true))))
    ensures StdType(7) == Some((Ascii("std_msgs/UInt32"), Primitive(PInt(4, false)))) && StdType(8) == Some((Ascii("std_msgs/UInt64"), Primitive(PInt(8, false))))
    ensures StdType(9) == Some((Ascii("std_msgs/Byte"), RawBytes)) && StdType(10) == Some((Ascii("std_msgs/Char"), Primitive(PChar)))
    ensures StdType(11) == Some((Ascii("std_msgs/ColorRGBA"), Color)) && StdType(12) == Some((Ascii("std_msgs/Duration"), Primitive(PDuration)))
  {
    hide Ascii;
  }

  lemma StandardIsOwn(s: Text)
    requires StdCode(s).Some?
    ensures !Inherited(s)
  {
    ThirteenLetters(); FourteenLetters(); FifteenLetters(); SixteenLetters(); LongerNames();
    hide Inherited;
    NotInherited(s);
  }

  lemma CodedWords()
    ensures Coded("std_msgs/String", 1, "string", PString) && Coded("std_msgs/Bool", 4, "bool", PBool)
    ensures Coded("std_msgs/Char", 10, "char", PChar) && Coded("std_msgs/Duration", 12, "duration", PDuration)
    ensures StdCode(Ascii("std_msgs/Byte")) == Some(9) && StdCode(Ascii("std_msgs/ColorRGBA")) == Some(11)
    ensures !Inherited(Ascii("std_msgs/Byte")) && !Inherited(Ascii("std_msgs/ColorRGBA"))
  {
    hide Inherited, PrimOf, Ascii, StdCode, StdType;
    WordNames(); CodesOfWords(); TypesOfCodes();
    StandardIsOwn(Ascii("std_msgs/String")); StandardIsOwn(Ascii("std_msgs/Bool")); StandardIsOwn(Ascii("std_msgs/Char"));
    StandardIsOwn(Ascii("std_msgs/Duration")); StandardIsOwn(Ascii("std_msgs/Byte")); StandardIsOwn(Ascii("std_msgs/ColorRGBA"));
  }

  lemma CodedNumbers()
    ensures Coded("std_msgs/Int32", 2, "int32", PInt(4, true)) && Coded("std_msgs/Int64", 6, "int64", PInt(8, true))
    ensures Coded("std_msgs/UInt32", 7, "uint32", PInt(4, false)) && Coded("std_msgs/UInt64", 8, "uint64", PInt(8, false))
    ensures Coded("std_msgs/Float32", 3, "float32", PFloat(4)) && Coded("std_msgs/Float64", 5, "float64", PFloat(8))
  {
    hide Inherited, PrimOf, Ascii, StdCode, StdType;
    SignedNames(); UnsignedNames(); FloatNames(); CodesOfNumbers(); TypesOfCodes();
    StandardIsOwn(Ascii("std_msgs/Int32")); StandardIsOwn(Ascii("std_msgs/Int64")); StandardIsOwn(Ascii("std_msgs/UInt32"));
    StandardIsOwn(Ascii("std_msgs/UInt64")); StandardIsOwn(Ascii("std_msgs/Float32")); StandardIsOwn(Ascii("std_msgs/Float64"));
  }

  /** Sending under the standard name s: the type byte and the value as a t. */
  predicate Sends(reg: Registry, s: string, code: Byte, t: string, v: Value)
    requires Guarded(reg)
  {
    EncodeValue(reg, Ascii(s), v) == Wrapped(code, Encode(reg, Ascii(t), v))
  }

  lemma OneSends(reg: Registry, s: string, code: Byte, t: string, p: Prim, v: Value)
    requires Guarded(reg) && Coded(s, code, t, p)
    ensures Sends(reg, s, code, t, v)
  {
    hide Ascii, Inherited, PrimOf, StdCode, StdType, LE, EncodePrim;
    PrimitiveName(t);
    PrimIsWritten(reg, Ascii(t), p, v);
    var e := EncodePrim(p, v);
    if e.Ok? { EnvelopedIsWrapped(code, e.value); }
  }

  lemma StandardIsSent(reg: Registry, v: Value)
    requires Guarded(reg)
    ensures Sends(reg, "std_msgs/String", 1, "string", v) && Sends(reg, "std_msgs/Int32", 2, "int32", v)
    ensures Sends(reg, "std_msgs/Float32", 3, "float32", v) && Sends(reg, "std_msgs/Bool", 4, "bool", v)
    ensures Sends(reg, "std_msgs/Float64", 5, "float64", v) && Sends(reg, "std_msgs/Int64", 6, "int64", v)
    ensures Sends(reg, "std_msgs/UInt32", 7, "uint32", v) && Sends(reg, "std_msgs/UInt64", 8, "uint64", v)
    ensures Sends(reg, "std_msgs/Char", 10, "char", v) && Sends(reg, "std_msgs/Duration", 12, "duration", v)
  {
    CodedWords(); CodedNumbers();
    hide Ascii, Coded, Sends;
    OneSends(reg, "std_msgs/String", 1, "string", PString, v); OneSends(reg, "std_msgs/Int32", 2, "int32", PInt(4, true), v);
    OneSends(reg, "std_msgs/Float32", 3, "float32", PFloat(4), v); OneSends(reg, "std_msgs/Bool", 4, "bool", PBool, v);
    OneSends(reg, "std_msgs/Float64", 5, "float64", PFloat(8), v); OneSends(reg, "std_msgs/Int64", 6, "int64", PInt(8, true), v);
    OneSends(reg, "std_msgs/UInt32", 7, "uint32", PInt(4, false), v); OneSends(reg, "std_msgs/UInt64", 8, "uint64", PInt(8, false), v);
    OneSends(reg, "std_msgs/Char", 10, "char", PChar, v); OneSends(reg, "std_msgs/Duration", 12, "duration", PDuration, v);
  }

  /** The two standard types without a primitive: raw bytes, and a colour of four floats. */
  lemma BytesAndColorsAreSent(reg: Registry, v: Value)
    requires Guarded(reg)
    ensures v.VBytes? ==> EncodeValue(reg, Ascii("std_msgs/Byte"), v) == Wrapped(9, Ok(v.bytes))
    ensures v.VNull? ==> EncodeValue(reg, Ascii("std_msgs/Byte"), v) == Wrapped(9, Ok([]))
    ensures v.VArr? && |v.items| == 4 && (forall i :: 0 <= i < 4 ==> v.items[i].VBits? && |v.items[i].bits| == 4) ==>
      EncodeValue(reg, Ascii("std_msgs/ColorRGBA"), v)
        == Wrapped(11, Ok(v.items[0].bits + v.items[1].bits + v.items[2].bits + v.items[3].bits))
    ensures !(v.VArr? && |v.items| == 4) ==> EncodeValue(reg, Ascii("std_msgs/ColorRGBA"), v) == Err(ColorShape)
  {
    CodedWords();
    hide Ascii, Inherited, StdCode, LE, Coded, Enveloped, Wrapped;
    if v.VBytes? { EnvelopedIsWrapped(9, v.bytes); }
    if v.VNull? { EnvelopedIsWrapped(9, []); }
    var c := EncodeColor(v);
    if c.Ok? { EnvelopedIsWrapped(11, c.value); }
  }

  /** Any other type is sent under its own name, behind the byte 255. */
  lemma OthersAreSentByName(reg: Registry, s: Text, v: Value)
    requires Guarded(reg) && !Inherited(s) && (forall a :: a in Aliases ==> s != Ascii(a)) && s != Ascii("std_msgs/ColorRGBA")
    ensures var t := NormalizeTypeName(s, None);
      var e := Encode(reg, t, if v.VNull? then VObj(map[]) else v);
      EncodeValue(reg, s, v) ==
        if |t| > 65535 then Err(TypeNameTooLong) else if e.Err? then e else Wrapped(255, Ok(Low2(|t|) + t + e.value))
  {
    var t := NormalizeTypeName(s, None);
    hide Ascii, Inherited, StdCode, LE, Low2, Encode, NormalizeTypeName, Enveloped, Wrapped;
    NotCoded(s);
    TwoStored(|t|);
    var e := Encode(reg, t, OrEmpty(v));
    if |t| <= 65535 && e.Ok? { EnvelopedIsWrapped(255, LE(|t|, 2) + t + e.value); }
  }

  lemma NotCoded(s: Text)
    requires (forall a :: a in Aliases ==> s != Ascii(a)) && s != Ascii("std_msgs/ColorRGBA")
    ensures StdCode(s).None?
  {
    hide Ascii;
  }

  /* ---------- what a receiver makes of a type byte ---------- */

  function Opened(s: Text, d: Result<Decoded>, next: nat): Result<Message> {
    match d
    case Ok(x) => Ok(Message(Typed(s, x.value), next))
    case Err(e) => Err(e)
  }

  /** An envelope with the type byte, in any buffer, is read as the named type. */
  predicate Opens(reg: Registry, s: string, code: Byte, t: string, payload: seq<Byte>, b: seq<Byte>, off: nat)
    requires Guarded(reg) && off <= |b|
  {
    At(b, off, [code] + Low4(|payload|) + payload) ==>
      DecodeValue(reg, b, off) == Opened(Ascii(s), Decode(reg, Ascii(t), payload, 0), off + 5 + |payload|)
  }

  lemma EnvelopeIsFound(reg: Registry, code: Byte, payload: seq<Byte>, b: seq<Byte>, off: nat)
    requires Guarded(reg) && |payload| < 0x1_0000_0000 && At(b, off, [code] + Low4(|payload|) + payload)
    ensures off <= |b| && DecodeValue(reg, b, off) ==
      match DecodePayload(reg, code, payload) case Err(e) => Err(e) case Ok(m) => Ok(Message(m, off + 5 + |payload|))
  {
    FourStored(|payload|);
    hide LE, DecodePayload, Low4;
    EnvelopeAt(reg, code, payload, b, off);
  }

  lemma OneOpens(reg: Registry, s: string, code: Byte, t: string, p: Prim, payload: seq<Byte>, b: seq<Byte>, off: nat)
    requires Guarded(reg) && off <= |b| && |payload| < 0x1_0000_0000 && Coded(s, code, t, p)
    ensures Opens(reg, s, code, t, payload, b, off)
  {
    hide Ascii, Inherited, PrimOf, StdCode, StdType, LE, DecodePrim, DecodeValue, At, Low4;
    if At(b, off, [code] + Low4(|payload|) + payload) {
      EnvelopeIsFound(reg, code, payload, b, off);
      PrimitiveName(t);
      PrimIsRead(reg, Ascii(t), p, payload, 0);
    }
  }

  lemma StandardIsOpened(reg: Registry, payload: seq<Byte>, b: seq<Byte>, off: nat)
    requires Guarded(reg) && off <= |b| && |payload| < 0x1_0000_0000
    ensures Opens(reg, "std_msgs/String", 1, "string", payload, b, off) && Opens(reg, "std_msgs/Int32", 2, "int32", payload, b, off)
    ensures Opens(reg, "std_msgs/Float32", 3, "float32", payload, b, off) && Opens(reg, "std_msgs/Bool", 4, "bool", payload, b, off)
    ensures Opens(reg, "std_msgs/Float64", 5, "float64", payload, b, off) && Opens(reg, "std_msgs/Int64", 6, "int64", payload, b, off)
    ensures Opens(reg, "std_msgs/UInt32", 7, "uint32", payload, b, off) && Opens(reg, "std_msgs/UInt64", 8, "uint64", payload, b, off)
    ensures Opens(reg, "std_msgs/Char", 10, "char", payload, b, off) && Opens(reg, "std_msgs/Duration", 12, "duration", payload, b, off)
  {
    CodedWords(); CodedNumbers();
    hide Ascii, Coded, Opens;
    OneOpens(reg, "std_msgs/String", 1, "string", PString, payload, b, off); OneOpens(reg, "std_msgs/Int32", 2, "int32", PInt(4, true), payload, b, off);
    OneOpens(reg, "std_msgs/Float32", 3, "float32", PFloat(4), payload, b, off); OneOpens(reg, "std_msgs/Bool", 4, "bool", PBool, payload, b, off);
    OneOpens(reg, "std_msgs/Float64", 5, "float64", PFloat(8), payload, b, off); OneOpens(reg, "std_msgs/Int64", 6, "int64", PInt(8, true), payload, b, off);
    OneOpens(reg, "std_msgs/UInt32", 7, "uint32", PInt(4, false), payload, b, off); OneOpens(reg, "std_msgs/UInt64", 8, "uint64", PInt(8, false), payload, b, off);
    OneOpens(reg, "std_msgs/Char", 10, "char", PChar, payload, b, off); OneOpens(reg, "std_msgs/Duration", 12, "duration", PDuration, payload, b, off);
  }

  /** Raw bytes, colours, and type bytes that stand for nothing. */
  lemma OtherBytesAreOpened(reg: Registry, code: Byte, payload: seq<Byte>, b: seq<Byte>, off: nat)
    requires Guarded(reg) && off <= |b| && |payload| < 0x1_0000_0000 && At(b, off, [code] + Low4(|payload|) + payload)
    ensures code == 9 ==> DecodeValue(reg, b, off) == Ok(Message(Typed(Ascii("std_msgs/Byte"), VBytes(payload)), off + 5 + |payload|))
    ensures code == 11 && |payload| >= 16 ==>
      DecodeValue(reg, b, off) == Ok(Message(Typed(Ascii("std_msgs/ColorRGBA"),
        VArr([VBits(payload[0..4]), VBits(payload[4..8]), VBits(payload[8..12]), VBits(payload[12..16])])), off + 5 + |payload|))
    ensures code == 11 && |payload| < 16 ==> DecodeValue(reg, b, off) == Err(Truncated)
    ensures code == 0 || 13 <= code <= 254 ==> DecodeValue(reg, b, off) == Err(UnknownTypeByte)
  {
    hide Ascii, LE, DecodeValue, At, Low4;
    EnvelopeIsFound(reg, code, payload, b, off);
  }

  /** Under the type byte of raw bytes nothing is sent as under the alias of a single byte. */
  lemma ByteAliasIsNotItsEnvelope(reg: Registry, v: Value)
    requires Guarded(reg)
    ensures var e := Encode(reg, Ascii("std_msgs/Byte"), v); e.Ok? ==> EncodeValue(reg, Ascii("std_msgs/Byte"), v) != Wrapped(9, e)
  {
    hide Ascii, Names, Inherited, StdCode, Coded, Encode, EncodePrim, EncodeValue, Wrapped;
    AliasesAreTheirTypes(reg, v, [], 0);
    IntegerNames();
    PrimIsWritten(reg, Ascii("byte"), PInt(1, false), v);
    OneByteOnly(v);
    var e := Encode(reg, Ascii("std_msgs/Byte"), v);
    if e.Ok? { WrappedLength(9, e.value); WrappedLength(9, []); }
    if v.VNull? { BytesAndColorsAreSent(reg, v); } else if v.VInt? { NoBytes(reg, v); }
  }

  lemma WrappedLength(code: Byte, payload: seq<Byte>)
    ensures var w := Wrapped(code, Ok(payload)); w.Ok? && |w.value| == 5 + |payload|
  {
  }

  lemma OneByteOnly(v: Value)
    ensures EncodePrim(PInt(1, false), v).Ok? ==> (v.VNull? || v.VInt?) && |EncodePrim(PInt(1, false), v).value| == 1
  {
    hide LE;
  }

  lemma NoBytes(reg: Registry, v: Value)
    requires Guarded(reg) && v.VInt?
    ensures EncodeValue(reg, Ascii("std_msgs/Byte"), v) == Err(NotCoerced)
  {
    hide Ascii, Inherited, StdCode, Coded, EncodePrim;
    CodedWords();
  }

  /* ---------- names within a package ---------- */

  lemma PackageIs(package: Text, message: Text)
    requires SLASH !in package
    ensures PackageOf(package + [SLASH] + message) == Some(package)
  {
    var name := package + [SLASH] + message;
    assert name[|package|] == SLASH;
    var p := BeforeSlash(name);
    assert forall k :: 0 <= k < |package| ==> name[k] == package[k] && name[k] != SLASH;
    assert forall k :: 0 <= k < |p| ==> name[k] == p[k] && name[k] != SLASH;
    assert name[|p|] == SLASH;
    assert p == name[..|package|] == package;
  }

  /** A field of a message in a package: a name with a slash stays, a primitive is lowered, any other name is in the package. */
  lemma FieldTypeInPackage(package: Text, message: Text, s: Text)
    requires SLASH !in package && package != []
    ensures var own := package + [SLASH] + message; var p := PackageOf(own); var f := NormalizeTypeName(s, p);
      && NormalizeTypeName(own, p) == own
      && (s == [] || SLASH in s ==> f == s)
      && (forall t :: t in Primitives && InAnyCase(s, Ascii(t)) ==> f == Ascii(t))
      && (s != [] && SLASH !in s && (forall t :: t in Primitives ==> !InAnyCase(s, Ascii(t))) ==> f == package + [SLASH] + s)
  {
    hide Ascii, PrimOf, PackageOf, Lower;
    var own := package + [SLASH] + message;
    PackageIs(package, message);
    assert own[|package|] == SLASH;
    forall t | t in Primitives && InAnyCase(s, Ascii(t)) ensures NormalizeTypeName(s, Some(package)) == Ascii(t) {
      PrimitiveName(t);
      InAnyCaseIsLower(s, Ascii(t));
    }
    if PrimOf(Lower(s)).Some? { LowerNamed(s); }
  }
}
