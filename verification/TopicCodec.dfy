/**
 * The wire format of typed topics: type names, message schemas, and the encoding and decoding of values.
 * The functions here say what bytes a value becomes and what value bytes become; CodecRuntime.dfy holds the loops.
 */
module TopicCodec {
  import opened Bytes

  /** Why a call throws. `UnknownSchema` is also the `null` with which the decoder reports a type it does not know. */
  datatype Error =
    | Truncated | CharPayload | CharValue | UnknownSchema | NotAnArray | WrongLength | NotCoerced
    | TypeNameTooLong | TopicNameTooLong | UnknownTypeByte | NotFullyDecoded | ColorShape | InheritedName

  datatype Result<+T> = Ok(value: T) | Err(error: Error)

  /**
   * A topic value. Floating-point numbers are their bit patterns, strings their UTF-8. `VNull` is null or a missing field,
   * `VForeign` what a missing field reads as when every object inherits a property of its name.
   */
  datatype Value =
    | VNull
    | VBool(flag: bool)
    | VInt(i: int)
    | VStr(text: Text)
    | VBits(bits: seq<Byte>)
    | VTime(sec: int, nsec: int)
    | VFraction(whole: int, billionths: int)
    | VBytes(bytes: seq<Byte>)
    | VArr(items: seq<Value>)
    | VObj(fields: map<Text, Value>)
    | VForeign

  datatype Field = Field(name: Text, typeName: Text, isArray: bool, arrayLen: Option<int>)

  type Registry = map<Text, seq<Field>>

  /* ---------- type names ---------- */

  datatype Prim = PString | PBool | PChar | PInt(width: nat, signed: bool) | PFloat(fwidth: nat) | PDuration | PTime

  const SLASH: Byte := 47

  function LowerByte(c: Byte): Byte {
    if 65 <= c <= 90 then c + 32 else c
  }

  function Lower(s: Text): (r: Text)
    ensures |r| == |s|
  {
    seq(|s|, i requires 0 <= i < |s| => LowerByte(s[i]))
  }

  function PrimOf(t: Text): Option<Prim> {
    if t == Ascii("string") then Some(PString)
    else if t == Ascii("bool") then Some(PBool)
    else if t == Ascii("int8") then Some(PInt(1, true))
    else if t == Ascii("char") then Some(PChar)
    else if t == Ascii("uint8") || t == Ascii("byte") then Some(PInt(1, false))
    else if t == Ascii("int16") then Some(PInt(2, true))
    else if t == Ascii("uint16") then Some(PInt(2, false))
    else if t == Ascii("int32") then Some(PInt(4, true))
    else if t == Ascii("uint32") then Some(PInt(4, false))
    else if t == Ascii("int64") then Some(PInt(8, true))
    else if t == Ascii("uint64") then Some(PInt(8, false))
    else if t == Ascii("float32") then Some(PFloat(4))
    else if t == Ascii("float64") then Some(PFloat(8))
    else if t == Ascii("duration") then Some(PDuration)
    else if t == Ascii("time") then Some(PTime)
    else None
  }

  function NormalizeTypeName(name: Text, packageName: Option<Text>): Text {
    if name == [] || SLASH in name then name
    else if PrimOf(Lower(name)).Some? then Lower(name)
    else if packageName.Some? && packageName.value != [] then packageName.value + [SLASH] + name
    else name
  }

  function AliasOf(name: Text): Option<Text> {
    if name == Ascii("std_msgs/String") then Some(Ascii("string"))
    else if name == Ascii("std_msgs/Int32") then Some(Ascii("int32"))
    else if name == Ascii("std_msgs/Float32") then Some(Ascii("float32"))
    else if name == Ascii("std_msgs/Bool") then Some(Ascii("bool"))
    else if name == Ascii("std_msgs/Float64") then Some(Ascii("float64"))
    else if name == Ascii("std_msgs/Int64") then Some(Ascii("int64"))
    else if name == Ascii("std_msgs/UInt32") then Some(Ascii("uint32"))
    else if name == Ascii("std_msgs/UInt64") then Some(Ascii("uint64"))
    else if name == Ascii("std_msgs/Byte") then Some(Ascii("byte"))
    else if name == Ascii("std_msgs/Char") then Some(Ascii("char"))
    else if name == Ascii("std_msgs/Duration") then Some(Ascii("duration"))
    else None
  }

  function Resolve(name: Text): Text {
    match AliasOf(name)
    case Some(t) => t
    case None => NormalizeTypeName(name, None)
  }

  /* ---------- names that plain objects treat specially ---------- */

  const PROTO := Ascii("__proto__")

  /** Every object inherits a property of this name, so a lookup in a table that is a plain object finds something. */
  predicate Inherited(name: Text) {
    || name == PROTO || name == Ascii("constructor") || name == Ascii("toString") || name == Ascii("toLocaleString")
    || name == Ascii("valueOf") || name == Ascii("hasOwnProperty") || name == Ascii("isPrototypeOf")
    || name == Ascii("propertyIsEnumerable") || name == Ascii("__defineGetter__") || name == Ascii("__defineSetter__")
    || name == Ascii("__lookupGetter__") || name == Ascii("__lookupSetter__")
  }

  /** `acc[name] = value` on a plain object: under the name of the prototype no property is made. */
  function Own<T>(acc: map<Text, T>, name: Text, value: T): map<Text, T> {
    if name == PROTO then acc else acc[name := value]
  }

  /** Values without parts weigh nothing. */
  function Weight(v: Value): nat {
    if v.VNull? || v.VForeign? then 0 else 1
  }

  /* ---------- which registries are safe to walk ---------- */

  predicate Variable(f: Field) {
    f.isArray && f.arrayLen.None?
  }

  predicate IsByteArray(f: Field) {
    f.typeName == Ascii("uint8") || f.typeName == Ascii("byte")
  }

  ghost function RankIn(reg: Registry, rank: map<Text, nat>, t: Text): nat {
    if PrimOf(t).None? && t in reg && t in rank then rank[t] + 1 else 0
  }

  ghost predicate IsRank(reg: Registry, rank: map<Text, nat>) {
    && rank.Keys == reg.Keys
    && forall t, f :: t in reg && PrimOf(t).None? && f in reg[t] && !Variable(f)
         ==> RankIn(reg, rank, Resolve(f.typeName)) < RankIn(reg, rank, t)
  }

  /**
   * A message may contain itself, but only through a variable-length array: a type that contains itself directly, or
   * through a fixed-length array, sends both the encoder and the decoder into unbounded recursion.
   */
  ghost predicate Guarded(reg: Registry) {
    exists rank :: IsRank(reg, rank)
  }

  ghost function Rank(reg: Registry, t: Text): nat
    requires Guarded(reg)
  {
    var rank :| IsRank(reg, rank); RankIn(reg, rank, t)
  }

  /** Each of the fields may be walked inside a message of type `owner`. */
  ghost predicate Within(reg: Registry, owner: Text, fs: seq<Field>)
    requires Guarded(reg)
  {
    forall f :: f in fs && !Variable(f) ==> Rank(reg, Resolve(f.typeName)) < Rank(reg, owner)
  }

  /* ---------- decoding ---------- */

  /** A decoded value and the offset just past it. */
  datatype Decoded = Decoded(value: Value, next: nat)

  function DecodePrim(p: Prim, b: seq<Byte>, off: nat): (r: Result<Decoded>)
    requires off <= |b|
    ensures r.Ok? ==> off <= r.value.next <= |b|
  {
    match p
    case PString =>
      if off + 4 > |b| then Err(Truncated)
      else
        var n := FromLE(b[off..off + 4]);
        if off + 4 + n > |b| then Err(Truncated)
        else Ok(Decoded(VStr(DecodeText(b[off + 4..off + 4 + n])), off + 4 + n))
    case PBool =>
      if off + 1 > |b| then Err(Truncated) else Ok(Decoded(VBool(b[off] != 0), off + 1))
    case PChar =>
      if off + 1 > |b| then Err(Truncated)
      else if ToSigned(FromLE(b[off..off + 1]), 1) < 0 then Err(CharPayload)
      else Ok(Decoded(VStr([b[off]]), off + 1))
    case PInt(w, signed) =>
      if off + w > |b| then Err(Truncated)
      else
        var u := FromLE(b[off..off + w]);
        Ok(Decoded(VInt(if signed then ToSigned(u, w) else u), off + w))
    case PFloat(w) =>
      if off + w > |b| then Err(Truncated) else Ok(Decoded(VBits(b[off..off + w]), off + w))
    case PDuration =>
      if off + 8 > |b| then Err(Truncated)
      else
        var sec, nsec := ToSigned(FromLE(b[off..off + 4]), 4), ToSigned(FromLE(b[off + 4..off + 8]), 4);
        Ok(Decoded(if nsec == 0 then VInt(sec) else VFraction(sec, nsec), off + 8))
    case PTime =>
      if off + 8 > |b| then Err(Truncated)
      else Ok(Decoded(VTime(FromLE(b[off..off + 4]), FromLE(b[off + 4..off + 8])), off + 8))
  }

  function Decode(reg: Registry, typeName: Text, b: seq<Byte>, off: nat): (r: Result<Decoded>)
    requires Guarded(reg) && off <= |b|
    ensures r.Ok? ==> off <= r.value.next <= |b|
    decreases |b| - off, Rank(reg, Resolve(typeName)), 1, 0
  {
    var t := Resolve(typeName);
    if Inherited(typeName) then Err(InheritedName)
    else match PrimOf(t)
      case Some(p) => DecodePrim(p, b, off)
      case None => if t in reg then DecodeFields(reg, t, reg[t], map[], b, off) else Err(UnknownSchema)
  }

  function DecodeFields(reg: Registry, ghost owner: Text, fs: seq<Field>, acc: map<Text, Value>, b: seq<Byte>, off: nat): (r: Result<Decoded>)
    requires Guarded(reg) && Within(reg, owner, fs) && off <= |b|
    ensures r.Ok? ==> off <= r.value.next <= |b|
    decreases |b| - off, Rank(reg, owner), 0, 1 + |fs|
  {
    if fs == [] then Ok(Decoded(VObj(acc), off))
    else
      var d := DecodeField(reg, owner, fs[0], b, off);
      if d.Err? then Err(d.error)
      else DecodeFields(reg, owner, fs[1..], Own(acc, fs[0].name, d.value.value), b, d.value.next)
  }

  function DecodeField(reg: Registry, ghost owner: Text, f: Field, b: seq<Byte>, off: nat): (r: Result<Decoded>)
    requires Guarded(reg) && Within(reg, owner, [f]) && off <= |b|
    ensures r.Ok? ==> off <= r.value.next <= |b|
    decreases |b| - off, Rank(reg, owner), 0, 0
  {
    assert f in [f];
    if !f.isArray then Decode(reg, f.typeName, b, off)
    else match f.arrayLen
      case Some(n) => DecodeArray(reg, f, n, b, off)
      case None =>
        if off + 4 > |b| then Err(Truncated) else DecodeArray(reg, f, FromLE(b[off..off + 4]), b, off + 4)
  }

  function DecodeArray(reg: Registry, f: Field, count: int, b: seq<Byte>, off: nat): (r: Result<Decoded>)
    requires Guarded(reg) && off <= |b|
    ensures r.Ok? ==> off <= r.value.next <= |b|
    decreases |b| - off, Rank(reg, Resolve(f.typeName)), 3, 0
  {
    if IsByteArray(f) then
      if count < 0 || off + count > |b| then Err(Truncated)
      else Ok(Decoded(VBytes(b[off..off + count]), off + count))
    else DecodeItems(reg, f.typeName, count, [], b, off)
  }

  function DecodeItems(reg: Registry, typeName: Text, count: int, acc: seq<Value>, b: seq<Byte>, off: nat): (r: Result<Decoded>)
    requires Guarded(reg) && off <= |b|
    ensures r.Ok? ==> off <= r.value.next <= |b|
    decreases |b| - off, Rank(reg, Resolve(typeName)), 2, if count < 0 then 0 else count
  {
    if count <= 0 then Ok(Decoded(VArr(acc), off))
    else
      var d := Decode(reg, typeName, b, off);
      if d.Err? then Err(d.error)
      else DecodeItems(reg, typeName, count - 1, acc + [d.value.value], b, d.value.next)
  }

  /* ---------- encoding ---------- */

  predicate Truthy(v: Value) {
    match v
    case VNull => false
    case VBool(x) => x
    case VInt(i) => i != 0
    case VStr(s) => s != []
    case _ => true
  }

  /**
   * Values of another kind than the type expects are coerced by the host language; those coercions are not modelled
   * (`NotCoerced`), only null or undefined, which stand for zero, the empty string and the empty array.
   */
  function EncodePrim(p: Prim, v: Value): Result<seq<Byte>> {
    match (p, v)
    case (PString, VNull) => Ok(LE(0, 4))
    case (PString, VStr(s)) => Ok(LE(|s|, 4) + s)
    case (PBool, VBits(_)) => Err(NotCoerced)
    case (PBool, _) => Ok([if Truthy(v) then 1 else 0])
    case (PChar, VNull) => Ok(LE(0, 1))
    case (PChar, VStr(s)) => if |s| == 1 && s[0] < 128 then Ok(LE(s[0], 1)) else Err(CharValue)
    case (PChar, VInt(i)) => if -128 <= i <= 127 then Ok(LE(i, 1)) else Err(CharValue)
    case (PInt(w, _), VNull) => Ok(LE(0, w))
    case (PInt(w, _), VInt(i)) => Ok(LE(i, w))
    case (PFloat(w), VNull) => Ok(LE(0, w))
    case (PFloat(w), VBits(s)) => if |s| == w then Ok(s) else Err(NotCoerced)
    case (PDuration, VNull) => Ok(LE(0, 4) + LE(0, 4))
    case (PDuration, VInt(i)) => Ok(LE(i, 4) + LE(0, 4))
    case (PTime, VNull) => Ok(LE(0, 4) + LE(0, 4))
    case (PTime, VInt(i)) => Ok(LE(if i < 0 then 0 else i, 4) + LE(0, 4))
    case (PTime, VTime(s, n)) => Ok(LE(s, 4) + LE(n, 4))
    case _ => Err(NotCoerced)
  }

  function FieldOf(v: Value, name: Text): (r: Value)
    ensures v.VObj? && name in v.fields ==> r == v.fields[name]
    ensures r.VNull? || r.VForeign? || (v.VObj? && name in v.fields)
    ensures Weight(v) == 0 ==> r == v
  {
    if v.VObj? && name in v.fields then v.fields[name]
    else if v.VForeign? || (!v.VNull? && Inherited(name)) then VForeign
    else VNull
  }

  /** `new Uint8Array(values)`: each number modulo 256. */
  function ByteItems(vs: seq<Value>): Result<seq<Byte>> {
    if vs == [] then Ok([])
    else
      var rest := ByteItems(vs[1..]);
      if rest.Err? then rest
      else match vs[0]
        case VNull => Ok([0] + rest.value)
        case VInt(i) => Ok([i % 256] + rest.value)
        case _ => Err(NotCoerced)
  }

  function Encode(reg: Registry, typeName: Text, v: Value): Result<seq<Byte>>
    requires Guarded(reg)
    decreases Weight(v), v, Rank(reg, Resolve(typeName)), 1, 0
  {
    var t := Resolve(typeName);
    if Inherited(typeName) then Err(InheritedName)
    else match PrimOf(t)
      case Some(p) => EncodePrim(p, v)
      case None => if v.VForeign? then Err(NotCoerced) else if t in reg then EncodeFields(reg, t, reg[t], v) else Err(UnknownSchema)
  }

  function EncodeFields(reg: Registry, ghost owner: Text, fs: seq<Field>, v: Value): Result<seq<Byte>>
    requires Guarded(reg) && Within(reg, owner, fs)
    decreases Weight(v), v, Rank(reg, owner), 0, 2 + |fs|
  {
    if fs == [] then Ok([])
    else
      var h := EncodeField(reg, owner, fs[0], v);
      if h.Err? then h
      else
        var t := EncodeFields(reg, owner, fs[1..], v);
        if t.Err? then t else Ok(h.value + t.value)
  }

  /** The field f of the message v. */
  function EncodeField(reg: Registry, ghost owner: Text, f: Field, v: Value): Result<seq<Byte>>
    requires Guarded(reg) && Within(reg, owner, [f])
    decreases Weight(v), v, Rank(reg, owner), 0, 1
  {
    assert f in [f];
    var fv := FieldOf(v, f.name);
    if !f.isArray then Encode(reg, f.typeName, fv)
    else if !(fv.VNull? || fv.VArr? || (fv.VBytes? && IsByteArray(f))) then Err(NotAnArray)
    else if f.arrayLen.Some? && Count(fv) != f.arrayLen.value then Err(WrongLength)
    else
      var body := Body(reg, f, fv);
      if body.Err? then body
      else Ok((if f.arrayLen.None? then LE(Count(fv), 4) else []) + body.value)
  }

  /** The bytes of the elements of the array fv of field f. */
  function Body(reg: Registry, f: Field, fv: Value): Result<seq<Byte>>
    requires Guarded(reg)
    decreases Weight(fv), fv, 0, 0, 0
  {
    match fv
    case VBytes(bs) => Ok(bs)
    case VArr(vs) => if IsByteArray(f) then ByteItems(vs) else EncodeItems(reg, f.typeName, vs)
    case _ => Ok([])
  }

  function Count(v: Value): nat {
    match v
    case VBytes(bs) => |bs|
    case VArr(vs) => |vs|
    case _ => 0
  }

  function EncodeItems(reg: Registry, typeName: Text, vs: seq<Value>): Result<seq<Byte>>
    requires Guarded(reg)
    decreases 1, vs, 0, 0, 0
  {
    if vs == [] then Ok([])
    else
      var h := Encode(reg, typeName, vs[0]);
      if h.Err? then h
      else
        var t := EncodeItems(reg, typeName, vs[1..]);
        if t.Err? then t else Ok(h.value + t.value)
  }
}
