/** The codec as it runs: a registry that registration updates in place, and the loops over fields, elements and frames. */
module CodecRuntime {
  import opened Bytes
  import opened TopicCodec
  import opened CodecRoundTrip
  import opened TopicEnvelope

  function PackageOf(typeName: Text): Option<Text> {
    if SLASH in typeName then Some(BeforeSlash(typeName)) else None
  }

  function BeforeSlash(t: Text): (p: Text)
    ensures SLASH !in p && p <= t && (SLASH in t ==> |p| < |t| && t[|p|] == SLASH)
  {
    if t == [] || t[0] == SLASH then [] else [t[0]] + BeforeSlash(t[1..])
  }

  function NormalizeField(f: Field, package: Option<Text>): Field {
    f.(typeName := NormalizeTypeName(f.typeName, package))
  }

  function Flatten(chunks: seq<seq<Byte>>): seq<Byte> {
    if chunks == [] then [] else chunks[0] + Flatten(chunks[1..])
  }

  lemma {:induction false} FlattenAppend(chunks: seq<seq<Byte>>, c: seq<Byte>)
    ensures Flatten(chunks + [c]) == Flatten(chunks) + c
  {
    if chunks == [] {
      assert chunks + [c] == [c];
    } else {
      FlattenAppend(chunks[1..], c);
      assert (chunks + [c])[1..] == chunks[1..] + [c];
    }
  }

  lemma {:induction false} FlattenPrefix(chunks: seq<seq<Byte>>, k: nat)
    requires k < |chunks|
    ensures Flatten(chunks[..k + 1]) == Flatten(chunks[..k]) + chunks[k]
    ensures |Flatten(chunks[..k + 1])| <= |Flatten(chunks)|
  {
    assert chunks[..k + 1] == chunks[..k] + [chunks[k]];
    FlattenAppend(chunks[..k], chunks[k]);
    FlattenSplit(chunks, k + 1);
  }

  lemma {:induction false} FlattenSplit(chunks: seq<seq<Byte>>, k: nat)
    requires k <= |chunks|
    ensures Flatten(chunks) == Flatten(chunks[..k]) + Flatten(chunks[k..])
  {
    if k == 0 {
      assert chunks[0..] == chunks;
    } else {
      FlattenSplit(chunks[1..], k - 1);
      assert chunks[1..][..k - 1] == chunks[..k][1..];
      assert chunks[1..][k - 1..] == chunks[k..];
    }
  }

  method ConcatBuffers(chunks: seq<seq<Byte>>) returns (out: array<Byte>)
    ensures fresh(out) && out[..] == Flatten(chunks)
  {
    var total := 0;
    for i := 0 to |chunks|
      invariant total == |Flatten(chunks[..i])|
    {
      FlattenPrefix(chunks, i);
      total := total + |chunks[i]|;
    }
    assert chunks[..|chunks|] == chunks;
    out := new Byte[total];
    var offset := 0;
    for i := 0 to |chunks|
      invariant offset == |Flatten(chunks[..i])| <= total == |Flatten(chunks)| && out.Length == total && fresh(out)
      invariant out[..offset] == Flatten(chunks[..i])
    {
      FlattenPrefix(chunks, i);
      var c := chunks[i];
      forall k | 0 <= k < |c| { out[offset + k] := c[k]; }
      assert out[..offset + |c|] == out[..offset] + c;
      offset := offset + |c|;
    }
    assert out[..] == out[..total];
  }

  /** Prepends what is already encoded. */
  function After(done: seq<Byte>, rest: Result<seq<Byte>>): Result<seq<Byte>> {
    if rest.Err? then rest else Ok(done + rest.value)
  }

  lemma AfterAfter(x: seq<Byte>, y: seq<Byte>, rest: Result<seq<Byte>>)
    ensures After(x + y, rest) == After(x, After(y, rest))
  {
    if rest.Ok? { assert x + y + rest.value == x + (y + rest.value); }
  }

  lemma AfterUnits(r: Result<seq<Byte>>, x: seq<Byte>)
    ensures After([], r) == r && After(x, Ok([])) == Ok(x)
  {
    assert x + [] == x;
    if r.Ok? { assert [] + r.value == r.value; }
  }

  /** One field is a single value, or an array of a known or a prefixed length. */
  lemma DecodeCases(reg: Registry, owner: Text, f: Field, b: seq<Byte>, off: nat)
    requires Guarded(reg) && Within(reg, owner, [f]) && off <= |b|
    ensures DecodeField(reg, owner, f, b, off) ==
      if !f.isArray then Decode(reg, f.typeName, b, off)
      else if f.arrayLen.Some? then DecodeArray(reg, f, f.arrayLen.value, b, off)
      else if off + 4 > |b| then Err(Truncated)
      else DecodeArray(reg, f, FromLE(b[off..off + 4]), b, off + 4)
  {
    hide Decode, DecodeArray, Guarded, FromLE;
  }

  lemma ArrayCases(reg: Registry, f: Field, count: int, b: seq<Byte>, off: nat)
    requires Guarded(reg) && off <= |b|
    ensures DecodeArray(reg, f, count, b, off) ==
      if !IsByteArray(f) then DecodeItems(reg, f.typeName, count, [], b, off)
      else if count < 0 || off + count > |b| then Err(Truncated)
      else Ok(Decoded(VBytes(b[off..off + count]), off + count))
  {
    hide DecodeItems, Guarded;
  }

  /** A registered message is encoded field by field. */
  lemma EncodeCases(reg: Registry, typeName: Text, v: Value)
    requires Guarded(reg) && !Inherited(typeName) && PrimOf(Resolve(typeName)).None? && !v.VForeign? && Resolve(typeName) in reg
    ensures var t := Resolve(typeName); Within(reg, t, reg[t]) && Encode(reg, typeName, v) == EncodeFields(reg, t, reg[t], v)
  {
    hide EncodeFields, Inherited;
  }

  lemma EncodeNext(reg: Registry, owner: Text, fs: seq<Field>, v: Value, i: nat)
    requires Guarded(reg) && i < |fs| && Within(reg, owner, fs[i..])
    ensures Within(reg, owner, [fs[i]]) && Within(reg, owner, fs[i + 1..])
    ensures var h := EncodeField(reg, owner, fs[i], v);
      EncodeFields(reg, owner, fs[i..], v) == if h.Err? then h else After(h.value, EncodeFields(reg, owner, fs[i + 1..], v))
  {
    hide EncodeField, Guarded, Within;
    WithinParts(reg, owner, fs[i..]);
    assert fs[i..][0] == fs[i] && fs[i..][1..] == fs[i + 1..];
  }

  lemma EncodeNothing(reg: Registry, owner: Text, fs: seq<Field>, v: Value)
    requires Guarded(reg) && Within(reg, owner, fs) && fs == []
    ensures EncodeFields(reg, owner, fs, v) == Ok([])
  {
  }

  class Codec {
    var schemas: Registry

    constructor ()
      ensures schemas == map[]
    {
      schemas := map[];
    }

    /** Adds or replaces one message definition; every other definition stays. */
    method RegisterMessageSchema(typeName: Text, fields: seq<Field>)
      modifies this
      ensures var t := NormalizeTypeName(typeName, PackageOf(typeName));
        && schemas.Keys == old(schemas).Keys + {t}
        && (forall s :: s in old(schemas) && s != t ==> schemas[s] == old(schemas)[s])
        && |schemas[t]| == |fields|
        && forall i :: 0 <= i < |fields| ==>
             schemas[t][i] == fields[i].(typeName := NormalizeTypeName(fields[i].typeName, PackageOf(typeName)))
    {
      var package := PackageOf(typeName);
      var normalized := seq(|fields|, i requires 0 <= i < |fields| => NormalizeField(fields[i], package));
      schemas := schemas[NormalizeTypeName(typeName, package) := normalized];
    }

    method DecodeTypedValue(typeName: Text, b: seq<Byte>, offset: nat) returns (r: Result<Decoded>)
      requires Guarded(schemas) && offset <= |b|
      ensures r == Decode(schemas, typeName, b, offset)
      decreases |b| - offset, Rank(schemas, Resolve(typeName)), 1
    {
      if Inherited(typeName) { return Err(InheritedName); }
      var t := Resolve(typeName);
      var p := PrimOf(t);
      if p.Some? { return DecodePrim(p.value, b, offset); }
      if t !in schemas { return Err(UnknownSchema); }
      var fs, cursor, obj, i := schemas[t], offset, map[], 0;
      while i < |fs|
        invariant 0 <= i <= |fs| && offset <= cursor <= |b| && Within(schemas, t, fs)
        invariant DecodeFields(schemas, t, fs, map[], b, offset) == DecodeFields(schemas, t, fs[i..], obj, b, cursor)
      {
        hide DecodeField, Guarded;
        var d := DecodeOneField(t, fs[i], b, cursor);
        if d.Err? { return Err(d.error); }
        obj := Own(obj, fs[i].name, d.value.value);
        cursor := d.value.next;
        i := i + 1;
      }
      return Ok(Decoded(VObj(obj), cursor));
    }

    method DecodeOneField(ghost owner: Text, f: Field, b: seq<Byte>, offset: nat) returns (r: Result<Decoded>)
      requires Guarded(schemas) && Within(schemas, owner, [f]) && offset <= |b|
      ensures r == DecodeField(schemas, owner, f, b, offset)
      decreases |b| - offset, Rank(schemas, owner), 0
    {
      DecodeCases(schemas, owner, f, b, offset);
      assert f in [f];
      hide Decode, DecodeItems, DecodeField, DecodeArray, Guarded, Resolve, FromLE;
      if !f.isArray {
        r := DecodeTypedValue(f.typeName, b, offset);
        return;
      }
      var cursor := offset;
      var count: int;
      if f.arrayLen.Some? {
        count := f.arrayLen.value;
      } else {
        if offset + 4 > |b| { return Err(Truncated); }
        count := FromLE(b[offset..offset + 4]);
        cursor := cursor + 4;
      }
      ArrayCases(schemas, f, count, b, cursor);
      if IsByteArray(f) {
        if count < 0 || cursor + count > |b| { return Err(Truncated); }
        return Ok(Decoded(VBytes(b[cursor..cursor + count]), cursor + count));
      }
      r := DecodeElements(f.typeName, count, b, cursor);
    }

    method DecodeElements(typeName: Text, count: int, b: seq<Byte>, offset: nat) returns (r: Result<Decoded>)
      requires Guarded(schemas) && offset <= |b|
      ensures r == DecodeItems(schemas, typeName, count, [], b, offset)
      decreases |b| - offset, Rank(schemas, Resolve(typeName)), 2
    {
      var arr, i, cursor := [], 0, offset;
      while i < count
        invariant offset <= cursor <= |b| && i >= 0 && (count >= 0 ==> i <= count)
        invariant DecodeItems(schemas, typeName, count, [], b, offset) == DecodeItems(schemas, typeName, count - i, arr, b, cursor)
      {
        hide Decode, Guarded, Resolve;
        var d := DecodeTypedValue(typeName, b, cursor);
        if d.Err? { return Err(d.error); }
        arr := arr + [d.value.value];
        cursor := d.value.next;
        i := i + 1;
      }
      return Ok(Decoded(VArr(arr), cursor));
    }

    method EncodeTypedValue(typeName: Text, v: Value) returns (r: Result<seq<Byte>>)
      requires Guarded(schemas)
      ensures r == Encode(schemas, typeName, v)
      decreases Weight(v), v, Rank(schemas, Resolve(typeName)), 2
    {
      if Inherited(typeName) { return Err(InheritedName); }
      var t := Resolve(typeName);
      var p := PrimOf(t);
      if p.Some? { return EncodePrim(p.value, v); }
      if v.VForeign? { return Err(NotCoerced); }
      if t !in schemas { return Err(UnknownSchema); }
      EncodeCases(schemas, typeName, v);
      hide Encode, EncodeField, EncodeFields, Guarded, Within, Resolve, PrimOf, Inherited;
      var fs, i := schemas[t], 0;
      var chunks: seq<seq<Byte>> := [];
      AfterUnits(EncodeFields(schemas, t, fs, v), []);
      assert fs[0..] == fs;
      while i < |fs|
        invariant 0 <= i <= |fs| && Within(schemas, t, fs[i..])
        invariant EncodeFields(schemas, t, fs, v) == After(Flatten(chunks), EncodeFields(schemas, t, fs[i..], v))
      {
        EncodeNext(schemas, t, fs, v, i);
        var c := EncodeOneField(t, fs[i], v);
        if c.Err? { return c; }
        AfterAfter(Flatten(chunks), c.value, EncodeFields(schemas, t, fs[i + 1..], v));
        FlattenAppend(chunks, c.value);
        chunks := chunks + [c.value];
        i := i + 1;
      }
      EncodeNothing(schemas, t, fs[i..], v);
      AfterUnits(Ok([]), Flatten(chunks));
      var out := ConcatBuffers(chunks);
      return Ok(out[..]);
    }

    method EncodeOneField(ghost owner: Text, f: Field, v: Value) returns (r: Result<seq<Byte>>)
      requires Guarded(schemas) && Within(schemas, owner, [f])
      ensures r == EncodeField(schemas, owner, f, v)
      decreases Weight(v), v, Rank(schemas, owner), 1
    {
      hide Encode, EncodeItems, ByteItems, LE, Guarded;
      assert f in [f];
      var fv := FieldOf(v, f.name);
      if !f.isArray {
        r := EncodeTypedValue(f.typeName, fv);
        return;
      }
      if !(fv.VNull? || fv.VArr? || (fv.VBytes? && IsByteArray(f))) { return Err(NotAnArray); }
      if f.arrayLen.Some? && Count(fv) != f.arrayLen.value { return Err(WrongLength); }
      var prefix := if f.arrayLen.None? then LE(Count(fv), 4) else [];
      if !fv.VArr? || IsByteArray(f) {
        var body := Body(schemas, f, fv);
        return if body.Err? then body else Ok(prefix + body.value);
      }
      var body := EncodeElements(f.typeName, fv.items);
      return if body.Err? then body else Ok(prefix + body.value);
    }

    method EncodeElements(typeName: Text, vs: seq<Value>) returns (r: Result<seq<Byte>>)
      requires Guarded(schemas)
      ensures r == EncodeItems(schemas, typeName, vs)
      decreases 1, vs, 0, 0
    {
      var chunks: seq<seq<Byte>>, i := [], 0;
      AfterUnits(EncodeItems(schemas, typeName, vs), []);
      assert vs[0..] == vs;
      while i < |vs|
        invariant 0 <= i <= |vs|
        invariant EncodeItems(schemas, typeName, vs) == After(Flatten(chunks), EncodeItems(schemas, typeName, vs[i..]))
      {
        hide Encode, Guarded;
        var c := EncodeTypedValue(typeName, vs[i]);
        if c.Err? { return c; }
        AfterAfter(Flatten(chunks), c.value, EncodeItems(schemas, typeName, vs[i + 1..]));
        FlattenAppend(chunks, c.value);
        chunks := chunks + [c.value];
        i := i + 1;
      }
      AfterUnits(Ok([]), Flatten(chunks));
      var out := ConcatBuffers(chunks);
      return Ok(out[..]);
    }

    method ParseBigUpdate(b: seq<Byte>) returns (r: Result<map<Text, Typed>>)
      requires Guarded(schemas)
      ensures r == TopicEnvelope.ParseBigUpdate(schemas, b)
    {
      hide FromLE, DecodeText, DecodeValue, Guarded;
      if 4 > |b| { return Err(Truncated); }
      var total := FromLE(b[0..4]);
      var offset: nat := 4;
      var out: map<Text, Typed> := map[];
      var i := 0;
      while i < total
        invariant 0 <= i <= total && offset <= |b|
        invariant ParseFrames(schemas, total, map[], b, 4) == ParseFrames(schemas, total - i, out, b, offset)
      {
        if offset + 1 > |b| { return Err(Truncated); }
        var nameLen := b[offset];
        if offset + 1 + nameLen > |b| { return Err(Truncated); }
        var name := DecodeText(b[offset + 1..offset + 1 + nameLen]);
        offset := offset + 1 + nameLen;
        var m := DecodeValue(schemas, b, offset);
        if m.Err? { return Err(m.error); }
        out := Own(out, name, m.value.content);
        offset := m.value.next;
        i := i + 1;
      }
      return Ok(out);
    }
  }

  /** The frame of one topic, filled into a buffer. */
  method BuildTopicDataFromEncodedName(encodedName: Text, payload: seq<Byte>) returns (r: Result<seq<Byte>>)
    ensures r == Frame(encodedName, payload)
  {
    if |encodedName| > MAX_TOPIC_NAME_LEN { return Err(TopicNameTooLong); }
    var out := new Byte[1 + |encodedName| + |payload|];
    out[0] := |encodedName|;
    forall k | 0 <= k < |encodedName| { out[1 + k] := encodedName[k]; }
    forall k | 0 <= k < |payload| { out[1 + |encodedName| + k] := payload[k]; }
    assert out[..] == [|encodedName|] + encodedName + payload;
    return Ok(out[..]);
  }

  /** The packet that publishes an encoded value, and where the value stands in it. */
  method BuildEncodedPublishPacket(encodedName: Text, encoded: seq<Byte>) returns (r: Result<seq<Byte>>, valueOffset: nat)
    ensures r == Packet(encodedName, encoded)
    ensures r.Ok? ==> valueOffset <= |r.value| && r.value[valueOffset..] == encoded
  {
    if |encodedName| > MAX_TOPIC_NAME_LEN { return Err(TopicNameTooLong), 0; }
    valueOffset := 2 + |encodedName|;
    var packet := new Byte[valueOffset + |encoded|];
    packet[0] := PUBLISH;
    packet[1] := |encodedName|;
    forall k | 0 <= k < |encodedName| { packet[2 + k] := encodedName[k]; }
    forall k | 0 <= k < |encoded| { packet[valueOffset + k] := encoded[k]; }
    assert packet[..] == [PUBLISH] + ([|encodedName|] + encodedName + encoded);
    r := Ok(packet[..]);
  }
}
