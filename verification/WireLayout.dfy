/** How messages, arrays and frames are laid out: which bytes follow which. */
module WireLayout {
  import opened Bytes
  import opened TopicCodec
  import opened CodecRoundTrip
  import opened TopicEnvelope
  import opened WireFormat
  import opened WireTypes

  /** The parts one behind the other, or the first error among them. */
  function Joined(parts: seq<Result<seq<Byte>>>): Result<seq<Byte>> {
    if parts == [] then Ok([])
    else
      var front, last := Joined(parts[..|parts| - 1]), parts[|parts| - 1];
      if front.Err? then front else if last.Err? then last else Ok(front.value + last.value)
  }

  function Behind(r: Result<seq<Byte>>, s: Result<seq<Byte>>): Result<seq<Byte>> {
    if r.Err? then r else if s.Err? then s else Ok(r.value + s.value)
  }

  lemma {:induction false} JoinedFirst(r: Result<seq<Byte>>, parts: seq<Result<seq<Byte>>>)
    ensures Joined([r] + parts) == Behind(r, Joined(parts))
    decreases |parts|
  {
    var all := [r] + parts;
    if parts == [] {
      assert all[..0] == [] && all[0] == r;
      if r.Ok? { assert [] + r.value == r.value + []; }
    } else {
      var front, last := parts[..|parts| - 1], parts[|parts| - 1];
      assert all[..|all| - 1] == [r] + front && all[|all| - 1] == last;
      JoinedFirst(r, front);
      var f := Joined(front);
      if r.Ok? && f.Ok? && last.Ok? { assert r.value + (f.value + last.value) == (r.value + f.value) + last.value; }
    }
  }

  /* ---------- messages ---------- */

  /** The elements of an array, one behind the other; those of a byte array are cut to a byte each. */
  function Elements(reg: Registry, f: Field, x: Value): Result<seq<Byte>>
    requires Guarded(reg)
  {
    match x
    case VBytes(b) => Ok(b)
    case VArr(vs) =>
      if f.typeName == Ascii("uint8") || f.typeName == Ascii("byte") then Joined(seq(|vs|, i requires 0 <= i < |vs| => CutByte(vs[i])))
      else Joined(seq(|vs|, i requires 0 <= i < |vs| => Encode(reg, f.typeName, vs[i])))
    case _ => Ok([])
  }

  function CutByte(v: Value): Result<seq<Byte>> {
    match v case VNull => Ok([0]) case VInt(i) => Ok([i % 256]) case _ => Err(NotCoerced)
  }

  function LengthOf(x: Value): nat {
    match x case VBytes(b) => |b| case VArr(vs) => |vs| case _ => 0
  }

  /**
   * The bytes of a field: those of its value, or for an array the elements, behind their number in four bytes unless the
   * length is fixed.
   */
  function FieldBytes(reg: Registry, f: Field, x: Value): Result<seq<Byte>>
    requires Guarded(reg)
  {
    if !f.isArray then Encode(reg, f.typeName, x)
    else if !(x.VNull? || x.VArr? || (x.VBytes? && f.typeName in {Ascii("uint8"), Ascii("byte")})) then Err(NotAnArray)
    else match f.arrayLen
      case Some(n) => if LengthOf(x) != n then Err(WrongLength) else Elements(reg, f, x)
      case None => Behind(Ok(Low4(LengthOf(x))), Elements(reg, f, x))
  }

  lemma {:induction false} ItemsAreJoined(reg: Registry, t: Text, vs: seq<Value>)
    requires Guarded(reg)
    ensures EncodeItems(reg, t, vs) == Joined(seq(|vs|, i requires 0 <= i < |vs| => Encode(reg, t, vs[i])))
  {
    hide Encode, Guarded;
    var parts := seq(|vs|, i requires 0 <= i < |vs| => Encode(reg, t, vs[i]));
    if vs != [] {
      var rest := vs[1..];
      ItemsAreJoined(reg, t, rest);
      assert parts == [Encode(reg, t, vs[0])] + seq(|rest|, i requires 0 <= i < |rest| => Encode(reg, t, rest[i]));
      hide Joined;
      JoinedFirst(Encode(reg, t, vs[0]), seq(|rest|, i requires 0 <= i < |rest| => Encode(reg, t, rest[i])));
    }
  }

  lemma {:induction false} BytesAreJoined(vs: seq<Value>)
    ensures ByteItems(vs).Ok? <==> Joined(seq(|vs|, i requires 0 <= i < |vs| => CutByte(vs[i]))).Ok?
    ensures ByteItems(vs) == Joined(seq(|vs|, i requires 0 <= i < |vs| => CutByte(vs[i])))
  {
    var parts := seq(|vs|, i requires 0 <= i < |vs| => CutByte(vs[i]));
    if vs != [] {
      var rest := vs[1..];
      BytesAreJoined(rest);
      var tail := seq(|rest|, i requires 0 <= i < |rest| => CutByte(rest[i]));
      assert parts == [CutByte(vs[0])] + tail;
      JoinedFirst(CutByte(vs[0]), tail);
      AllNotCoerced(vs);
      AllNotCoerced(rest);
    }
  }

  lemma {:induction false} AllNotCoerced(vs: seq<Value>)
    ensures ByteItems(vs).Err? ==> ByteItems(vs) == Err(NotCoerced)
  {
    if vs != [] { AllNotCoerced(vs[1..]); }
  }

  lemma ElementsAre(reg: Registry, f: Field, x: Value)
    requires Guarded(reg)
    ensures Body(reg, f, x) == Elements(reg, f, x) && Count(x) == LengthOf(x)
  {
    hide Encode, Guarded, EncodeItems, ByteItems, Joined, Ascii;
    if x.VArr? { ItemsAreJoined(reg, f.typeName, x.items); BytesAreJoined(x.items); }
  }

  lemma FieldIs(reg: Registry, owner: Text, f: Field, v: Value)
    requires Guarded(reg) && Within(reg, owner, [f])
    ensures EncodeField(reg, owner, f, v) == FieldBytes(reg, f, FieldOf(v, f.name))
  {
    hide Encode, Guarded, LE, Body, Elements, Ascii, Low4, FieldOf, Count, LengthOf;
    var x := FieldOf(v, f.name);
    FourStored(LengthOf(x));
    ElementsAre(reg, f, x);
    assert f in [f];
    var body := Body(reg, f, x);
    if body.Ok? { assert [] + body.value == body.value; }
  }

  lemma {:induction false} FieldsAreJoined(reg: Registry, owner: Text, fs: seq<Field>, v: Value)
    requires Guarded(reg) && Within(reg, owner, fs)
    ensures EncodeFields(reg, owner, fs, v) == Joined(seq(|fs|, i requires 0 <= i < |fs| => FieldBytes(reg, fs[i], FieldOf(v, fs[i].name))))
    decreases |fs|
  {
    hide EncodeField, FieldBytes, Guarded, Within, FieldOf;
    var parts := seq(|fs|, i requires 0 <= i < |fs| => FieldBytes(reg, fs[i], FieldOf(v, fs[i].name)));
    if fs != [] {
      var rest := fs[1..];
      WithinParts(reg, owner, fs);
      FieldsAreJoined(reg, owner, rest, v);
      FieldIs(reg, owner, fs[0], v);
      var tail := seq(|rest|, i requires 0 <= i < |rest| => FieldBytes(reg, rest[i], FieldOf(v, rest[i].name)));
      assert parts == [FieldBytes(reg, fs[0], FieldOf(v, fs[0].name))] + tail;
      hide Joined;
      JoinedFirst(FieldBytes(reg, fs[0], FieldOf(v, fs[0].name)), tail);
    }
  }

  /** A registered message is its fields in the order of the definition, each as its bytes. */
  lemma MessageIsItsFields(reg: Registry, s: Text, v: Value)
    requires Guarded(reg) && !Inherited(s) && s in reg && !v.VForeign?
    requires (forall t :: t in Primitives ==> !InAnyCase(s, Ascii(t))) && (forall a :: a in Aliases ==> s != Ascii(a))
    ensures var fs := reg[s];
      Encode(reg, s, v) == Joined(seq(|fs|, i requires 0 <= i < |fs| => FieldBytes(reg, fs[i], FieldOf(v, fs[i].name))))
  {
    StandsForItself(s);
    hide Ascii, Inherited, PrimOf, Resolve, FieldBytes, Joined, FieldOf, InAnyCase;
    MessageFields(reg, s, v);
    FieldsAreJoined(reg, s, reg[s], v);
  }

  lemma MessageFields(reg: Registry, s: Text, v: Value)
    requires Guarded(reg) && !Inherited(s) && s in reg && !v.VForeign? && Resolve(s) == s && PrimOf(s).None?
    ensures Within(reg, s, reg[s]) && Encode(reg, s, v) == EncodeFields(reg, s, reg[s], v)
  {
    hide Inherited, PrimOf, Resolve;
  }

  /* ---------- frames ---------- */

  /** The bytes of a topic in an update: the length of its name, the name, and the envelope of its value. */
  function FrameBytes(reg: Registry, t: Topic): Result<seq<Byte>>
    requires Guarded(reg)
  {
    if |t.name| > 255 then Err(TopicNameTooLong) else Behind(Ok([|t.name|] + t.name), EncodeValue(reg, t.typeName, t.value))
  }

  lemma FrameIs(reg: Registry, t: Topic)
    requires Guarded(reg)
    ensures TopicFrame(reg, t) == FrameBytes(reg, t)
  {
    hide EncodeValue, Guarded;
  }

  /** The frames of an update follow each other in order. */
  lemma {:induction false} FramesAreJoined(reg: Registry, ts: seq<Topic>)
    requires Guarded(reg)
    ensures Frames(reg, ts) == Joined(seq(|ts|, i requires 0 <= i < |ts| => FrameBytes(reg, ts[i])))
  {
    hide FrameBytes, TopicFrame, Guarded;
    var parts := seq(|ts|, i requires 0 <= i < |ts| => FrameBytes(reg, ts[i]));
    if ts != [] {
      var rest := ts[1..];
      FramesAreJoined(reg, rest);
      FrameIs(reg, ts[0]);
      var tail := seq(|rest|, i requires 0 <= i < |rest| => FrameBytes(reg, rest[i]));
      assert parts == [FrameBytes(reg, ts[0])] + tail;
      hide Joined;
      JoinedFirst(FrameBytes(reg, ts[0]), tail);
    }
  }

  /** A published value: the opcode, the length of the name, the name, the envelope. */
  lemma PacketIs(name: Text, encoded: seq<Byte>)
    ensures Packet(name, encoded) == if |name| > 255 then Err(TopicNameTooLong) else Ok([2, |name|] + name + encoded)
  {
    if |name| <= 255 { assert [2] + ([|name|] + name + encoded) == [2, |name|] + name + encoded; }
  }
}
