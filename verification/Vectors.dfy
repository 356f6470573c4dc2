/**
 The encodings byte by byte, as OPC 10000-6 (section 5.2) and OPC 10000-14
 (section 7.2.4) fix them: what a peer that knows nothing of this server expects.
 */
module Vectors {
  import opened Types
  import opened Wire
  import opened Codec
  import U = Uadp

  function Two(v: u16): (r: seq<byte>) { [v % 256, v / 256] }

  function Four(v: u32): (r: seq<byte>) {
    [v % 256, v / 256 % 256, v / 65536 % 256, v / 16777216]
  }

  function Eight(v: u64): (r: seq<byte>) {
    [v % 256, v / 256 % 256, v / 65536 % 256, v / 16777216 % 256] + Four(v / 0x1_0000_0000)
  }

  lemma TwoIs(v: u16)
    ensures LE(v, 2) == Two(v)
  {
    LE2(v);
  }

  lemma Shifts(v: nat)
    ensures Shift(v, 1) == v / 256 && Shift(v, 2) == v / 65536 && Shift(v, 3) == v / 16777216 && Shift(v, 4) == v / 0x1_0000_0000
  {
    assert Shift(v, 2) == Shift(v, 1) / 256;
    assert Shift(v, 3) == Shift(v, 2) / 256;
    assert Shift(v, 4) == Shift(v, 3) / 256;
  }

  lemma FourIs(v: u32)
    ensures LE(v, 4) == Four(v)
  {
    hide Shift, LE;
    LE4(v);
    Shifts(v);
  }

  lemma EightIs(v: u64)
    ensures LE(v, 8) == Eight(v)
  {
    hide Shift, LE, Four;
    LE8(v);
    LE4(v);
    Shifts(v);
    FourIs(v / 0x1_0000_0000);
  }

  function Unsigned(v: int, modulus: int): (r: int)
    requires -modulus <= v < modulus
    ensures 0 <= r < modulus
  {
    if v < 0 then v + modulus else v
  }

  /** -1 for null, the length and the bytes otherwise. */
  function StringBytes(s: UaString): (r: seq<byte>)
    requires EncodableString(s)
  {
    if s.Null? then [255, 255, 255, 255] else Four(|s.bytes|) + s.bytes
  }

  lemma StringBytesAre(s: UaString)
    ensures EncodableString(s) <==> s.Null? || |s.bytes| <= 4096
    ensures EncodableString(s) ==> EncString(s) == StringBytes(s)
  {
    hide LE;
    if s.Null? { FourIs(0xFFFF_FFFF); } else if |s.bytes| <= 4096 { FourIs(|s.bytes|); }
  }

  /** The TwoByte, FourByte, Numeric and String forms, the shortest that fits. */
  function NodeIdBytes(n: NodeId): (r: seq<byte>)
    requires EncodableNodeId(n)
  {
    match n
    case Numeric(ns, id) =>
      if ns == 0 && id < 256 then [0, id] else if ns < 256 && id < 65536 then [1, ns] + Two(id) else [2] + Two(ns) + Four(id)
    case StringId(ns, name) => [3] + Two(ns) + StringBytes(name)
  }

  lemma NodeIdBytesAre(n: NodeId)
    requires EncodableNodeId(n)
    ensures EncNodeId(n) == NodeIdBytes(n)
  {
    hide LE, Two, Four, EncString, StringBytes;
    TwoIs(n.ns);
    match n
    case Numeric(ns, id) =>
      if id < 65536 { TwoIs(id); }
      FourIs(id);
    case StringId(_, name) => StringBytesAre(name);
  }

  /** The BuiltInType number of a scalar, and its bytes. */
  function ScalarBytes(v: Variant): (r: seq<byte>)
    requires EncodableScalar(v) && !v.VNull?
  {
    match v
    case VBoolean(b) => [1, if b then 1 else 0]
    case VSByte(x) => [2, Unsigned(x, 256)]
    case VByte(x) => [3, x]
    case VInt16(x) => [4] + Two(Unsigned(x, 65536))
    case VUInt16(x) => [5] + Two(x)
    case VInt32(x) => [6] + Four(Unsigned(x, 0x1_0000_0000))
    case VUInt32(x) => [7] + Four(x)
    case VInt64(x) => [8] + Eight(Unsigned(x, 0x1_0000_0000_0000_0000))
    case VUInt64(x) => [9] + Eight(x)
    case VFloat(bits) => [10] + Four(bits)
    case VDouble(bits) => [11] + Eight(bits)
    case VString(s) => [12] + StringBytes(s)
    case VDateTime(x) => [13] + Eight(Unsigned(x, 0x1_0000_0000_0000_0000))
    case VByteString(s) => [15] + StringBytes(s)
    case VNodeId(n) => [17] + NodeIdBytes(n)
    case VStatusCode(x) => [19] + Four(x)
    case VQualifiedName(ns, name) => [20] + (Two(ns) + StringBytes(name))
    case VLocalizedText(locale, text) =>
      [21] + ([(if locale.Null? then 0 else 1) + (if text.Null? then 0 else 2)]
              + (if locale.Null? then [] else StringBytes(locale)) + (if text.Null? then [] else StringBytes(text)))
  }

  lemma WordIs(x: i64)
    ensures -0x8000 <= x < 0x8000 ==> EncI16(x) == Two(Unsigned(x, 65536))
    ensures -0x8000_0000 <= x < 0x8000_0000 ==> EncI32(x) == Four(Unsigned(x, 0x1_0000_0000))
    ensures EncI64(x) == Eight(Unsigned(x, 0x1_0000_0000_0000_0000))
  {
    hide LE, Two, Four, Eight;
    if -0x8000 <= x < 0x8000 { TwoIs(Unsigned(x, 65536)); }
    if -0x8000_0000 <= x < 0x8000_0000 { FourIs(Unsigned(x, 0x1_0000_0000)); }
    EightIs(Unsigned(x, 0x1_0000_0000_0000_0000));
  }

  /** Every scalar Variant is its type number and the bytes of its value; Null is a zero byte. */
  lemma VariantBytesAre(v: Variant)
    requires EncodableScalar(v)
    ensures EncVariant(v) == if v.VNull? then [0] else ScalarBytes(v)
  {
    hide LE, Two, Four, Eight, EncI16, EncI32, EncI64, EncString, StringBytes, EncNodeId, NodeIdBytes;
    match v
    case VInt16(x) => WordIs(x);
    case VUInt16(x) => TwoIs(x);
    case VInt32(x) => WordIs(x);
    case VUInt32(x) => FourIs(x);
    case VInt64(x) => WordIs(x);
    case VUInt64(x) => EightIs(x);
    case VFloat(x) => FourIs(x);
    case VDouble(x) => EightIs(x);
    case VString(s) => StringBytesAre(s);
    case VDateTime(x) => WordIs(x);
    case VByteString(s) => StringBytesAre(s);
    case VNodeId(n) => NodeIdBytesAre(n);
    case VStatusCode(x) => FourIs(x);
    case VQualifiedName(ns, name) => TwoIs(ns); StringBytesAre(name);
    case VLocalizedText(locale, text) => StringBytesAre(locale); StringBytesAre(text);
    case _ =>
  }

  predicate Writable(s: UaString) {
    s.Null? || |s.bytes| <= 4096
  }

  predicate WritableId(n: NodeId) {
    n.Numeric? || (n.StringId? && Writable(n.name))
  }

  /** Which scalars can be written: all of a known type, unless a string is longer than 4096 bytes or an id is a GUID or opaque. */
  lemma EncodableExactly(v: Variant)
    requires !v.VArray?
    ensures Encodable(v) <==>
      && !v.VUnsupported?
      && (v.VString? ==> Writable(v.str)) && (v.VByteString? ==> Writable(v.bstr)) && (v.VNodeId? ==> WritableId(v.nodeId))
      && (v.VQualifiedName? ==> Writable(v.name)) && (v.VLocalizedText? ==> Writable(v.locale) && Writable(v.text))
  {
  }

  /** The bytes of values one after the other, without their type numbers. */
  function Elements(es: seq<Variant>): (r: seq<byte>)
    requires EncodableElements(es)
  {
    if es == [] then [] else ScalarBytes(es[0])[1..] + Elements(es[1..])
  }

  lemma {:induction false} ElementsAre(es: seq<Variant>)
    requires EncodableElements(es)
    ensures EncElements(es) == Elements(es)
  {
    hide EncScalar, ScalarBytes, EncodableScalar;
    if es != [] {
      VariantBytesAre(es[0]);
      NotNull(es[0]);
      ElementsAre(es[1..]);
    }
  }

  lemma NotNull(v: Variant)
    requires EncodableScalar(v) && !v.VNull? && EncVariant(v) == ScalarBytes(v)
    ensures EncScalar(v) == ScalarBytes(v)[1..]
  {
    hide EncScalar, ScalarBytes;
  }

  /** An array has the type number with bit 7, its length, and its elements; the types 14, 16, 18 and those past 21 have none. */
  lemma ArrayBytesAre(kind: typeId, length: i32, es: seq<Variant>)
    requires kind > 0 && length >= 0 && EncodableElements(es)
    ensures var v := VArray(kind, length, Some(es));
      && (Encodable(v) <==> kind <= 21 && kind != 14 && kind != 16 && kind != 18)
      && (Encodable(v) ==> EncVariant(v) == [kind + 128] + (Four(length) + Elements(es)))
  {
    hide LE, Four, EncI32, EncElements, Elements, EncodableElements;
    WordIs(length);
    ElementsAre(es);
  }

  /** Mask bits 1, 2, 4 and 8 for value, status, source and server timestamp, and what they announce. */
  lemma DataValueBytesAre(d: DataValue)
    requires EncodableDataValue(d) && (d.value.Some? ==> !d.value.value.VArray? && !d.value.value.VNull?)
    ensures EncDataValue(d) ==
      [(if d.value.Some? then 1 else 0) + (if d.status.Some? then 2 else 0)
       + (if d.sourceTimestamp.Some? then 4 else 0) + (if d.serverTimestamp.Some? then 8 else 0)]
      + ((if d.value.Some? then ScalarBytes(d.value.value) else [])
         + ((if d.status.Some? then Four(d.status.value) else [])
            + ((if d.sourceTimestamp.Some? then Eight(Unsigned(d.sourceTimestamp.value, 0x1_0000_0000_0000_0000)) else [])
               + (if d.serverTimestamp.Some? then Eight(Unsigned(d.serverTimestamp.value, 0x1_0000_0000_0000_0000)) else []))))
  {
    hide LE, Four, Eight, EncI64, EncVariant, ScalarBytes;
    if d.value.Some? { VariantBytesAre(d.value.value); }
    if d.status.Some? { FourIs(d.status.value); }
    if d.sourceTimestamp.Some? { WordIs(d.sourceTimestamp.value); }
    if d.serverTimestamp.Some? { WordIs(d.serverTimestamp.value); }
  }

  // ----- UADP

  function Fields(fields: seq<Variant>): (r: seq<byte>)
    requires U.Scalars(fields)
  {
    if fields == [] then [] else (if fields[0].VNull? then [0] else ScalarBytes(fields[0])) + Fields(fields[1..])
  }

  lemma {:induction false} FieldsAre(fields: seq<Variant>)
    requires U.Scalars(fields)
    ensures U.EncFields(fields) == Fields(fields)
  {
    hide EncVariant, ScalarBytes, EncodableScalar;
    if fields != [] {
      VariantBytesAre(fields[0]);
      FieldsAre(fields[1..]);
    }
  }

  /** Flags, a UInt32 PublisherId, one DataSetMessage of one writer, its size, and its Variant fields. */
  lemma NetworkMessageBytesAre(m: U.Message)
    requires U.Scalars(m.fields) && 1 + |Fields(m.fields)| < TWO16
    ensures U.EncMessage(m) ==
      [0xD1, 0x02] + Four(m.publisherId) + [1] + Two(m.writerId) + (Two(1 + |Fields(m.fields)|) + ([1] + Fields(m.fields)))
  {
    hide LE, Four, Two, Fields, U.EncFields;
    FieldsAre(m.fields);
    FourIs(m.publisherId);
    TwoIs(m.writerId);
    TwoIs(1 + |Fields(m.fields)|);
  }
  /** What the encoder refuses outright, and in which order. */
  lemma NetworkMessageRefusals(m: U.Message, size: nat)
    ensures |m.fields| > 8 ==> U.Encoding(m, size).0 == BadTooManyOperations
    ensures |m.fields| <= 8 && (exists i :: 0 <= i < |m.fields| && m.fields[i].VArray?) ==> U.Encoding(m, size).0 == BadNotSupported
    ensures |m.fields| <= 8 && (forall i :: 0 <= i < |m.fields| ==> !m.fields[i].VArray?) && size < 12 ==> U.Encoding(m, size).0 == BadEncodingError
  {
    hide U.FieldsResidue;
  }

  /** What the decoder refuses before it looks at any field. */
  lemma UnreadableMessages(s: seq<byte>, capacity: nat)
    ensures s == [] ==> U.DecodeMessage(s, capacity) == U.Refused(BadDecodingError)
    ensures |s| >= 1 && s[0] != 0xD1 ==> U.DecodeMessage(s, capacity) == U.Refused(BadNotSupported)
    ensures |s| >= 2 && s[0] == 0xD1 && s[1] != 2 ==> U.DecodeMessage(s, capacity) == U.Refused(BadNotSupported)
    ensures |s| >= 7 && s[0] == 0xD1 && s[1] == 2 && s[6] != 1 ==> U.DecodeMessage(s, capacity) == U.Refused(BadNotSupported)
    ensures |s| >= 12 && s[0] == 0xD1 && s[1] == 2 && s[6] == 1 && FromLE([s[9], s[10]]) != |s| - 11 ==> U.DecodeMessage(s, capacity) == U.Refused(BadDecodingError)
  {
    hide U.DecodeBody;
    if |s| >= 12 && s[0] == 0xD1 && s[1] == 2 && s[6] == 1 {
      var t := s[2..][5..];
      assert t == s[7..] && t[2..][..2] == [s[9], s[10]];
    }
  }
}
