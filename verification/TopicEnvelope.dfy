/** The typed envelope around an encoded value, and the frames of a multi-topic update. */
module TopicEnvelope {
  import opened Bytes
  import opened TopicCodec
  import opened CodecRoundTrip
  import opened CodecLocality

  const DYNAMIC_TYPE_BYTE := 0xff
  const MAX_TOPIC_NAME_LEN := 255

  /* ---------- the types with a byte of their own ---------- */

  datatype Payload = Primitive(p: Prim) | RawBytes | Color

  function StdCode(t: Text): Option<Byte> {
    if t == Ascii("std_msgs/String") then Some(1)
    else if t == Ascii("std_msgs/Int32") then Some(2)
    else if t == Ascii("std_msgs/Float32") then Some(3)
    else if t == Ascii("std_msgs/Bool") then Some(4)
    else if t == Ascii("std_msgs/Float64") then Some(5)
    else if t == Ascii("std_msgs/Int64") then Some(6)
    else if t == Ascii("std_msgs/UInt32") then Some(7)
    else if t == Ascii("std_msgs/UInt64") then Some(8)
    else if t == Ascii("std_msgs/Byte") then Some(9)
    else if t == Ascii("std_msgs/Char") then Some(10)
    else if t == Ascii("std_msgs/ColorRGBA") then Some(11)
    else if t == Ascii("std_msgs/Duration") then Some(12)
    else None
  }

  function StdType(code: Byte): Option<(Text, Payload)> {
    if code == 1 then Some((Ascii("std_msgs/String"), Primitive(PString)))
    else if code == 2 then Some((Ascii("std_msgs/Int32"), Primitive(PInt(4, true))))
    else if code == 3 then Some((Ascii("std_msgs/Float32"), Primitive(PFloat(4))))
    else if code == 4 then Some((Ascii("std_msgs/Bool"), Primitive(PBool)))
    else if code == 5 then Some((Ascii("std_msgs/Float64"), Primitive(PFloat(8))))
    else if code == 6 then Some((Ascii("std_msgs/Int64"), Primitive(PInt(8, true))))
    else if code == 7 then Some((Ascii("std_msgs/UInt32"), Primitive(PInt(4, false))))
    else if code == 8 then Some((Ascii("std_msgs/UInt64"), Primitive(PInt(8, false))))
    else if code == 9 then Some((Ascii("std_msgs/Byte"), RawBytes))
    else if code == 10 then Some((Ascii("std_msgs/Char"), Primitive(PChar)))
    else if code == 11 then Some((Ascii("std_msgs/ColorRGBA"), Color))
    else if code == 12 then Some((Ascii("std_msgs/Duration"), Primitive(PDuration)))
    else None
  }

  lemma StdCodeNamesType(t: Text)
    requires StdCode(t).Some?
    ensures var code := StdCode(t).value; code != DYNAMIC_TYPE_BYTE && StdType(code).Some? && StdType(code).value.0 == t
  {
  }

  function StdPayload(t: Text): Payload
    requires StdCode(t).Some?
  {
    StdCodeNamesType(t);
    StdType(StdCode(t).value).value.1
  }

  /* ---------- the envelope ---------- */

  function EncodeColor(v: Value): Result<seq<Byte>> {
    if !(v.VArr? && |v.items| == 4) then Err(ColorShape)
    else if forall i :: 0 <= i < 4 ==> v.items[i].VBits? && |v.items[i].bits| == 4 then
      Ok(v.items[0].bits + v.items[1].bits + v.items[2].bits + v.items[3].bits)
    else Err(NotCoerced)
  }

  function DecodeColor(b: seq<Byte>): Result<Value> {
    if 16 > |b| then Err(Truncated)
    else Ok(VArr([VBits(b[0..4]), VBits(b[4..8]), VBits(b[8..12]), VBits(b[12..16])]))
  }

  function EncodeStd(kind: Payload, v: Value): Result<seq<Byte>> {
    match kind
    case Primitive(p) => EncodePrim(p, v)
    case Color => EncodeColor(v)
    case RawBytes =>
      match v
      case VBytes(bs) => Ok(bs)
      case VArr(vs) => ByteItems(vs)
      case VNull => Ok([])
      case _ => Err(NotCoerced)
  }

  function DecodeStd(kind: Payload, b: seq<Byte>): Result<Value> {
    match kind
    case Primitive(p) => (match DecodePrim(p, b, 0) case Ok(d) => Ok(d.value) case Err(e) => Err(e))
    case Color => DecodeColor(b)
    case RawBytes => Ok(VBytes(b))
  }

  function Enveloped(code: Byte, payload: seq<Byte>): seq<Byte> {
    [code] + LE(|payload|, 4) + payload
  }

  function OrEmpty(v: Value): Value {
    if v.VNull? then VObj(map[]) else v
  }

  function DynamicPayload(reg: Registry, t: Text, v: Value): Result<seq<Byte>>
    requires Guarded(reg)
  {
    if |t| > 0xffff then Err(TypeNameTooLong)
    else
      var e := Encode(reg, t, OrEmpty(v));
      if e.Err? then e else Ok(LE(|t|, 2) + t + e.value)
  }

  /** The typed payload. A name that every object inherits is found in the table of type bytes, but stands for no type. */
  function PayloadOf(reg: Registry, typeName: Text, v: Value): Result<seq<Byte>>
    requires Guarded(reg)
  {
    if Inherited(typeName) then Err(InheritedName)
    else if StdCode(typeName).Some? then EncodeStd(StdPayload(typeName), v)
    else DynamicPayload(reg, NormalizeTypeName(typeName, None), v)
  }

  function TypeByte(typeName: Text): Byte {
    match StdCode(typeName) case Some(code) => code case None => DYNAMIC_TYPE_BYTE
  }

  function EncodeValue(reg: Registry, typeName: Text, v: Value): Result<seq<Byte>>
    requires Guarded(reg)
  {
    var p := PayloadOf(reg, typeName, v);
    if p.Err? then p else Ok(Enveloped(TypeByte(typeName), p.value))
  }

  datatype Typed = Typed(typeName: Text, value: Value)
  datatype Message = Message(content: Typed, next: nat)

  /** What a receiver makes of the bytes e, announced under the type name t. */
  function Received(reg: Registry, t: Text, e: seq<Byte>): Result<Typed>
    requires Guarded(reg)
  {
    match Decode(reg, DecodeText(t), e, 0)
    case Err(x) => Err(if x.UnknownSchema? then NotFullyDecoded else x)
    case Ok(d) => if d.next != |e| then Err(NotFullyDecoded) else Ok(Typed(DecodeText(t), d.value))
  }

  function DecodeDynamic(reg: Registry, b: seq<Byte>): Result<Typed>
    requires Guarded(reg)
  {
    if 2 > |b| then Err(Truncated)
    else
      var n := FromLE(b[0..2]);
      if 2 + n > |b| then Err(Truncated) else Received(reg, b[2..2 + n], b[2 + n..])
  }

  /** What the slice of an envelope with the given type byte holds. */
  function DecodePayload(reg: Registry, code: Byte, b: seq<Byte>): Result<Typed>
    requires Guarded(reg)
  {
    if code == DYNAMIC_TYPE_BYTE then DecodeDynamic(reg, b)
    else match StdType(code)
      case None => Err(UnknownTypeByte)
      case Some(std) =>
        match DecodeStd(std.1, b)
        case Err(e) => Err(e)
        case Ok(v) => Ok(Typed(std.0, v))
  }

  function DecodeValue(reg: Registry, b: seq<Byte>, off: nat): (r: Result<Message>)
    requires Guarded(reg) && off <= |b|
    ensures r.Ok? ==> off + 5 <= r.value.next <= |b|
  {
    if off + 5 > |b| then Err(Truncated)
    else
      var count := FromLE(b[off + 1..off + 5]);
      if off + 5 + count > |b| then Err(Truncated)
      else match DecodePayload(reg, b[off], b[off + 5..off + 5 + count])
        case Err(e) => Err(e)
        case Ok(m) => Ok(Message(m, off + 5 + count))
  }

  /* ---------- what comes back from an envelope ---------- */

  function CanonStd(kind: Payload, v: Value): Result<Value> {
    match kind
    case Primitive(p) => CanonPrim(p, v)
    case Color => Ok(v)
    case RawBytes => (match EncodeStd(RawBytes, v) case Ok(bs) => Ok(VBytes(bs)) case Err(e) => Err(e))
  }

  /** The type and value a receiver sees; a type name that starts with a byte order mark is read without it. */
  function CanonTyped(reg: Registry, typeName: Text, v: Value): Result<Typed>
    requires Guarded(reg)
  {
    var t := NormalizeTypeName(typeName, None);
    if StdCode(typeName).Some? then Under(typeName, CanonStd(StdPayload(typeName), v))
    else if !StartsWithBom(t) then Under(t, Canon(reg, t, OrEmpty(v)))
    else
      var e := Encode(reg, t, OrEmpty(v));
      if e.Err? then Err(e.error) else Received(reg, t, e.value)
  }

  function Under(t: Text, c: Result<Value>): Result<Typed> {
    if c.Ok? then Ok(Typed(t, c.value)) else Err(c.error)
  }

  lemma WholeAt(b: seq<Byte>)
    ensures At(b, 0, b) && b[0..|b|] == b
  {
  }

  lemma ColorRoundTrip(v: Value)
    requires EncodeColor(v).Ok?
    ensures DecodeColor(EncodeColor(v).value) == Ok(v)
  {
    var x, y, z, w := v.items[0].bits, v.items[1].bits, v.items[2].bits, v.items[3].bits;
    var e := EncodeColor(v).value;
    assert e[0..4] == x && e[4..8] == y && e[8..12] == z && e[12..16] == w;
    assert v.items == [VBits(x), VBits(y), VBits(z), VBits(w)];
  }

  lemma StdRoundTrip(kind: Payload, v: Value)
    requires Sized(v) && EncodeStd(kind, v).Ok?
    ensures DecodeStd(kind, EncodeStd(kind, v).value) == CanonStd(kind, v)
  {
    hide EncodePrim, DecodePrim, CanonPrim, EncodeColor, DecodeColor, Sized;
    var e := EncodeStd(kind, v).value;
    match kind
    case Primitive(p) => WholeAt(e); PrimRoundTrip(p, v, e, 0);
    case Color => ColorRoundTrip(v);
    case RawBytes =>
  }

  lemma DynamicIsReceived(reg: Registry, t: Text, v: Value)
    requires Guarded(reg) && DynamicPayload(reg, t, v).Ok?
    ensures Encode(reg, t, OrEmpty(v)).Ok?
    ensures DecodeDynamic(reg, DynamicPayload(reg, t, v).value) == Received(reg, t, Encode(reg, t, OrEmpty(v)).value)
  {
    hide Encode, LE, FromLE, Guarded, Received;
    var e := Encode(reg, t, OrEmpty(v)).value;
    var b := DynamicPayload(reg, t, v).value;
    FromLEofLE(|t|, 2);
    PowValues();
    assert b[0..2] == LE(|t|, 2) && b[2..2 + |t|] == t && b[2 + |t|..] == e;
  }

  /** Under a plain name the receiver finds the canonical value. */
  lemma ReceivedIsCanonical(reg: Registry, t: Text, v: Value)
    requires Guarded(reg) && Sized(v) && !StartsWithBom(t) && Encode(reg, t, v).Ok?
    ensures var c, d := Canon(reg, t, v), Received(reg, t, Encode(reg, t, v).value);
      if c.Ok? then d == Ok(Typed(t, c.value)) else d.Err?
  {
    hide Encode, Decode, Canon, StartsWithBom, Guarded, Sized;
    var e := Encode(reg, t, v).value;
    WholeAt(e);
    RoundTripAt(reg, t, v, e, 0);
  }

  lemma EmptySized(v: Value)
    requires Sized(v)
    ensures Sized(OrEmpty(v))
  {
  }

  lemma PayloadRoundTrip(reg: Registry, typeName: Text, v: Value)
    requires Guarded(reg) && Sized(v) && PayloadOf(reg, typeName, v).Ok?
    ensures var d := DecodePayload(reg, TypeByte(typeName), PayloadOf(reg, typeName, v).value);
      if CanonTyped(reg, typeName, v).Ok? then d == CanonTyped(reg, typeName, v) else d.Err?
  {
    hide Guarded, Canon, Encode, DecodeDynamic, DynamicPayload, EncodeStd, DecodeStd, CanonStd, Sized, StartsWithBom, NormalizeTypeName, StdCode, StdType, Inherited, Received, OrEmpty;
    if StdCode(typeName).Some? {
      StdCodeNamesType(typeName);
      StdRoundTrip(StdPayload(typeName), v);
    } else {
      var t := NormalizeTypeName(typeName, None);
      DynamicIsReceived(reg, t, v);
      EmptySized(v);
      if !StartsWithBom(t) { ReceivedIsCanonical(reg, t, OrEmpty(v)); }
    }
  }

  /* ---------- type names that start with a byte order mark ---------- */

  lemma {:induction false} SameFields(reg: Registry, owner: Text, other: Text, fs: seq<Field>, v: Value)
    requires Guarded(reg) && Within(reg, owner, fs) && Within(reg, other, fs)
    ensures EncodeFields(reg, owner, fs, v) == EncodeFields(reg, other, fs, v)
    decreases |fs|
  {
    hide Guarded, Within, Encode;
    if fs != [] {
      WithinParts(reg, owner, fs); WithinParts(reg, other, fs);
      SameFields(reg, owner, other, fs[1..], v);
      SameField(reg, owner, other, fs[0], v);
    }
  }

  lemma SameField(reg: Registry, owner: Text, other: Text, f: Field, v: Value)
    requires Guarded(reg) && Within(reg, owner, [f]) && Within(reg, other, [f])
    ensures EncodeField(reg, owner, f, v) == EncodeField(reg, other, f, v)
  {
    hide Guarded, Encode, Body;
  }

  lemma SchemaWithin(reg: Registry, t: Text)
    requires Guarded(reg) && t in reg && PrimOf(t).None?
    ensures Within(reg, t, reg[t])
  {
  }

  /** The name under which a receiver reads the type stands for the same message. */
  predicate Twin(reg: Registry, t: Text) {
    var s, r := Resolve(t), Resolve(DecodeText(t));
    s in reg && r in reg && reg[s] == reg[r] && PrimOf(s).None? && PrimOf(r).None? && !Inherited(DecodeText(t))
  }

  /**
   * A value sent under a type name that starts with a byte order mark is read under the name without the mark: as its
   * canonical form if that name stands for the same message, and not at all if it stands for nothing.
   */
  lemma MarkedNameIsStripped(reg: Registry, typeName: Text, v: Value, b: seq<Byte>, off: nat)
    requires Guarded(reg) && Sized(v) && off <= |b| && StartsWithBom(NormalizeTypeName(typeName, None)) && StdCode(typeName).None?
    requires EncodeValue(reg, typeName, v).Ok? && |EncodeValue(reg, typeName, v).value| < 0x1_0000_0000
    requires At(b, off, EncodeValue(reg, typeName, v).value)
    ensures var t := NormalizeTypeName(typeName, None); var s := t[3..];
      && (DecodeValue(reg, b, off).Ok? ==> DecodeValue(reg, b, off).value.content.typeName == s)
      && (PrimOf(Resolve(s)).None? && Resolve(s) !in reg ==> DecodeValue(reg, b, off).Err?)
      && (Twin(reg, t) && Canon(reg, s, OrEmpty(v)).Ok? ==>
           DecodeValue(reg, b, off) == Ok(Message(Typed(s, Canon(reg, s, OrEmpty(v)).value), off + |EncodeValue(reg, typeName, v).value|)))
  {
    hide DecodeValue, PayloadOf, EncodeValue, DynamicPayload, Guarded, At, Sized, Encode, Canon, NormalizeTypeName, Inherited, PrimOf, OrEmpty, StdCode, LE;
    var t := NormalizeTypeName(typeName, None);
    EnvelopeRoundTrip(reg, typeName, v, b, off);
    DynamicEncodes(reg, typeName, v);
    var e := Encode(reg, t, OrEmpty(v)).value;
    if Twin(reg, t) {
      EmptySized(v);
      TwinEncodes(reg, t, OrEmpty(v));
      WholeAt(e);
      RoundTripAt(reg, t[3..], OrEmpty(v), e, 0);
    }
  }

  lemma DynamicEncodes(reg: Registry, typeName: Text, v: Value)
    requires Guarded(reg) && StdCode(typeName).None? && EncodeValue(reg, typeName, v).Ok?
    ensures Encode(reg, NormalizeTypeName(typeName, None), OrEmpty(v)).Ok?
  {
    hide Encode, Guarded;
  }

  lemma TwinEncodes(reg: Registry, t: Text, v: Value)
    requires Guarded(reg) && Twin(reg, t) && Encode(reg, t, v).Ok?
    ensures Encode(reg, DecodeText(t), v) == Encode(reg, t, v)
  {
    hide Guarded, EncodeFields, Resolve, PrimOf, Inherited, DecodeText;
    SchemaWithin(reg, Resolve(t)); SchemaWithin(reg, Resolve(DecodeText(t)));
    SameFields(reg, Resolve(t), Resolve(DecodeText(t)), reg[Resolve(t)], v);
  }

  lemma EnvelopeAt(reg: Registry, code: Byte, payload: seq<Byte>, b: seq<Byte>, off: nat)
    requires Guarded(reg) && off <= |b| && |payload| < 0x1_0000_0000 && At(b, off, Enveloped(code, payload))
    ensures var m := DecodePayload(reg, code, payload);
      DecodeValue(reg, b, off) == if m.Ok? then Ok(Message(m.value, off + 5 + |payload|)) else Err(m.error)
  {
    hide DecodePayload, LE, FromLE, Guarded, At;
    assert Enveloped(code, payload) == [code] + (LE(|payload|, 4) + payload);
    AtSplit(b, off, [code], LE(|payload|, 4) + payload);
    AtSplit(b, off + 1, LE(|payload|, 4), payload);
    LengthPrefixAt(b, off + 1, |payload|);
    AtBytes(b, off, [code]);
    AtBytes(b, off + 5, payload);
    assert b[off] == b[off..off + 1][0];
  }

  lemma AtBytes(b: seq<Byte>, off: nat, s: seq<Byte>)
    requires At(b, off, s)
    ensures off + |s| <= |b| && b[off..off + |s|] == s
  {
  }

  /**
   * A message encoded for any registered or standard type is decoded, wherever it stands in a buffer, to the canonical
   * form of its value under the normalized name of its type, and consumed exactly; it is refused only if its value has
   * no canonical form. Only a name that starts with a byte order mark is read as another name.
   */
  lemma EnvelopeRoundTrip(reg: Registry, typeName: Text, v: Value, b: seq<Byte>, off: nat)
    requires Guarded(reg) && Sized(v) && off <= |b|
    requires EncodeValue(reg, typeName, v).Ok? && |EncodeValue(reg, typeName, v).value| < 0x1_0000_0000
    requires At(b, off, EncodeValue(reg, typeName, v).value)
    ensures var m := CanonTyped(reg, typeName, v);
      if m.Ok? then DecodeValue(reg, b, off) == Ok(Message(m.value, off + |EncodeValue(reg, typeName, v).value|))
      else DecodeValue(reg, b, off).Err?
  {
    hide DecodePayload, DecodeValue, CanonTyped, PayloadOf, LE, Guarded, At, Sized;
    PayloadRoundTrip(reg, typeName, v);
    EnvelopeAt(reg, TypeByte(typeName), PayloadOf(reg, typeName, v).value, b, off);
  }

  /* ---------- frames ---------- */

  datatype Topic = Topic(name: Text, typeName: Text, value: Value)

  function Frame(name: Text, encoded: seq<Byte>): Result<seq<Byte>> {
    if |name| > MAX_TOPIC_NAME_LEN then Err(TopicNameTooLong) else Ok([|name|] + name + encoded)
  }

  function TopicFrame(reg: Registry, t: Topic): Result<seq<Byte>>
    requires Guarded(reg)
  {
    if |t.name| > MAX_TOPIC_NAME_LEN then Err(TopicNameTooLong)
    else
      var e := EncodeValue(reg, t.typeName, t.value);
      if e.Err? then e else Frame(t.name, e.value)
  }

  function Frames(reg: Registry, ts: seq<Topic>): Result<seq<Byte>>
    requires Guarded(reg)
  {
    if ts == [] then Ok([])
    else
      var h := TopicFrame(reg, ts[0]);
      if h.Err? then h
      else
        var t := Frames(reg, ts[1..]);
        if t.Err? then t else Ok(h.value + t.value)
  }

  function ParseFrames(reg: Registry, total: nat, out: map<Text, Typed>, b: seq<Byte>, off: nat): Result<map<Text, Typed>>
    requires Guarded(reg) && off <= |b|
    decreases total
  {
    if total == 0 then Ok(out)
    else if off + 1 > |b| then Err(Truncated)
    else
      var n := b[off];
      if off + 1 + n > |b| then Err(Truncated)
      else
        var name := DecodeText(b[off + 1..off + 1 + n]);
        match DecodeValue(reg, b, off + 1 + n)
        case Err(e) => Err(e)
        case Ok(m) => ParseFrames(reg, total - 1, Own(out, name, m.content), b, m.next)
  }

  function ParseBigUpdate(reg: Registry, b: seq<Byte>): Result<map<Text, Typed>>
    requires Guarded(reg)
  {
    if 4 > |b| then Err(Truncated) else ParseFrames(reg, FromLE(b[0..4]), map[], b, 4)
  }

  /** The topics a receiver sees after the update ts, on top of those in out. */
  function Seen(reg: Registry, ts: seq<Topic>, out: map<Text, Typed>): Result<map<Text, Typed>>
    requires Guarded(reg)
  {
    if ts == [] then Ok(out)
    else match CanonTyped(reg, ts[0].typeName, ts[0].value)
      case Err(e) => Err(e)
      case Ok(m) => Seen(reg, ts[1..], Own(out, DecodeText(ts[0].name), m))
  }

  /** Short enough for its length prefixes. */
  ghost predicate Sendable(reg: Registry, t: Topic)
    requires Guarded(reg)
  {
    && Sized(t.value)
    && (EncodeValue(reg, t.typeName, t.value).Ok? ==> |EncodeValue(reg, t.typeName, t.value).value| < 0x1_0000_0000)
  }

  lemma FrameAt(reg: Registry, t: Topic, b: seq<Byte>, off: nat)
    requires Guarded(reg) && TopicFrame(reg, t).Ok? && At(b, off, TopicFrame(reg, t).value)
    ensures var e := EncodeValue(reg, t.typeName, t.value);
      && e.Ok? && off + 1 + |t.name| + |e.value| <= |b| && |TopicFrame(reg, t).value| == 1 + |t.name| + |e.value|
      && b[off] == |t.name| && b[off + 1..off + 1 + |t.name|] == t.name
      && At(b, off + 1 + |t.name|, e.value)
  {
    hide EncodeValue, At, Guarded;
    var e := EncodeValue(reg, t.typeName, t.value).value;
    assert [|t.name|] + t.name + e == [|t.name|] + (t.name + e);
    AtSplit(b, off, [|t.name|], t.name + e);
    AtSplit(b, off + 1, t.name, e);
    AtBytes(b, off, [|t.name|]);
    AtBytes(b, off + 1, t.name);
    assert b[off] == b[off..off + 1][0];
  }

  lemma {:induction false} FramesParse(reg: Registry, ts: seq<Topic>, out: map<Text, Typed>, b: seq<Byte>, off: nat)
    requires Guarded(reg) && off <= |b| && forall t :: t in ts ==> Sendable(reg, t)
    requires Frames(reg, ts).Ok? && At(b, off, Frames(reg, ts).value)
    ensures if Seen(reg, ts, out).Ok? then ParseFrames(reg, |ts|, out, b, off) == Seen(reg, ts, out)
            else ParseFrames(reg, |ts|, out, b, off).Err?
  {
    hide EncodeValue, TopicFrame, DecodeValue, CanonTyped, DecodeText, At, Guarded;
    if ts != [] {
      var t, rest := ts[0], ts[1..];
      var h := TopicFrame(reg, t).value;
      AtSplit(b, off, h, Frames(reg, rest).value);
      FrameAt(reg, t, b, off);
      assert t in ts && Sendable(reg, t);
      EnvelopeRoundTrip(reg, t.typeName, t.value, b, off + 1 + |t.name|);
      var m := CanonTyped(reg, t.typeName, t.value);
      if m.Ok? {
        FramesParse(reg, rest, Own(out, DecodeText(t.name), m.value), b, off + |h|);
      }
    }
  }

  /**
   * An update made of a count and that many frames is parsed to exactly the topics sent, whatever follows it; it is
   * refused only if the value of one of them has no canonical form.
   */
  lemma BigUpdateRoundTrip(reg: Registry, ts: seq<Topic>, post: seq<Byte>)
    requires Guarded(reg) && |ts| < 0x1_0000_0000 && forall t :: t in ts ==> Sendable(reg, t)
    requires Frames(reg, ts).Ok?
    ensures var r := ParseBigUpdate(reg, LE(|ts|, 4) + Frames(reg, ts).value + post);
      if Seen(reg, ts, map[]).Ok? then r == Seen(reg, ts, map[]) else r.Err?
  {
    hide Frames, ParseFrames, Seen, Guarded, LE, FromLE, Sendable;
    var f := Frames(reg, ts).value;
    var b := LE(|ts|, 4) + f + post;
    assert b[0..4] == LE(|ts|, 4) && b[4..4 + |f|] == f;
    LengthPrefix(|ts|);
    FramesParse(reg, ts, map[], b, 4);
  }

  lemma {:induction false} OtherNamesKept(reg: Registry, ts: seq<Topic>, out: map<Text, Typed>, n: Text)
    requires Guarded(reg) && Seen(reg, ts, out).Ok? && forall i :: 0 <= i < |ts| ==> DecodeText(ts[i].name) != n
    ensures var r := Seen(reg, ts, out).value; n in r <==> n in out
    ensures n in out ==> Seen(reg, ts, out).value[n] == out[n]
  {
    hide CanonTyped, DecodeText, Guarded;
    if ts != [] {
      OtherNamesKept(reg, ts[1..], Own(out, DecodeText(ts[0].name), CanonTyped(reg, ts[0].typeName, ts[0].value).value), n);
    }
  }

  /** In what a receiver sees, the last frame of each name wins. */
  lemma {:induction false} LastFrameWins(reg: Registry, ts: seq<Topic>, out: map<Text, Typed>, i: nat)
    requires Guarded(reg) && Seen(reg, ts, out).Ok? && i < |ts| && DecodeText(ts[i].name) != PROTO
    requires forall j :: i < j < |ts| ==> DecodeText(ts[j].name) != DecodeText(ts[i].name)
    ensures var r, n := Seen(reg, ts, out).value, DecodeText(ts[i].name);
      n in r && CanonTyped(reg, ts[i].typeName, ts[i].value) == Ok(r[n])
  {
    hide CanonTyped, DecodeText, Guarded;
    var out' := Own(out, DecodeText(ts[0].name), CanonTyped(reg, ts[0].typeName, ts[0].value).value);
    if i == 0 {
      OtherNamesKept(reg, ts[1..], out', DecodeText(ts[0].name));
    } else {
      LastFrameWins(reg, ts[1..], out', i - 1);
    }
  }

  /** A receiver sees a topic exactly if some frame carries its name and that is not the name of the prototype. */
  lemma {:induction false} SeenNames(reg: Registry, ts: seq<Topic>, out: map<Text, Typed>, n: Text)
    requires Guarded(reg) && Seen(reg, ts, out).Ok?
    ensures n in Seen(reg, ts, out).value <==> n in out || (n != PROTO && exists i :: 0 <= i < |ts| && DecodeText(ts[i].name) == n)
    decreases |ts|
  {
    hide CanonTyped, DecodeText, Guarded;
    if ts != [] {
      SeenNames(reg, ts[1..], Own(out, DecodeText(ts[0].name), CanonTyped(reg, ts[0].typeName, ts[0].value).value), n);
      assert forall i :: 0 < i < |ts| ==> ts[i] == ts[1..][i - 1];
    }
  }

  /** A receiver reads the same message in the same bytes, wherever they stand. */
  lemma DecodeValueLocal(reg: Registry, b: seq<Byte>, i: nat, c: seq<Byte>, j: nat)
    requires Guarded(reg) && i <= |b| && j <= |c| && DecodeValue(reg, b, i).Ok?
    requires Same(b, i, c, j, DecodeValue(reg, b, i).value.next - i)
    ensures var m := DecodeValue(reg, b, i).value;
      DecodeValue(reg, c, j) == Ok(Message(m.content, m.next - i + j))
  {
    hide DecodePayload, FromLE, Same, Guarded;
    var n := DecodeValue(reg, b, i).value.next - i;
    SamePart(b, i, c, j, n, 0, 1);
    SamePart(b, i, c, j, n, 1, 4);
    SamePart(b, i, c, j, n, 5, n - 5);
    SameFits(b, i, c, j, n);
  }

  const PUBLISH: Byte := 0x02

  /** A published topic: the opcode and a frame. */
  function Packet(name: Text, encoded: seq<Byte>): Result<seq<Byte>> {
    var f := Frame(name, encoded); if f.Err? then f else Ok([PUBLISH] + f.value)
  }

  /** Behind its opcode a published value is read back as the one topic that was sent. */
  lemma PublishedIsSeen(reg: Registry, t: Topic)
    requires Guarded(reg) && Sendable(reg, t) && EncodeValue(reg, t.typeName, t.value).Ok? && |t.name| <= MAX_TOPIC_NAME_LEN
    ensures var p := Packet(t.name, EncodeValue(reg, t.typeName, t.value).value);
      && p.Ok? && p.value[0] == PUBLISH
      && var r := ParseFrames(reg, 1, map[], p.value, 1);
         if Seen(reg, [t], map[]).Ok? then r == Seen(reg, [t], map[]) else r.Err?
  {
    hide EncodeValue, ParseFrames, Seen, Guarded, Sendable;
    var frame, p := TopicFrame(reg, t).value, Packet(t.name, EncodeValue(reg, t.typeName, t.value).value).value;
    var ts := [t];
    assert Frames(reg, ts[1..]) == Ok([]);
    assert Frames(reg, ts) == Ok(frame) by { assert frame + [] == frame; }
    assert p[1..1 + |frame|] == frame;
    FramesParse(reg, ts, map[], p, 1);
  }
}
