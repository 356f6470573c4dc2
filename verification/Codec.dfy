/**
 The OPC UA Binary encoding (section 5.2 of OPC 10000-6) as functions on byte
 sequences, and the round trips between the encoders and the decoders. The
 cursor objects in Cursors.dfy are proved against these functions.
 */
module Codec {
  import opened Types
  import opened Wire

  const MAX_STRING: nat := 4096

  /** A value and the number of bytes it took, or why the bytes do not decode. */
  datatype Decoded<+T> = Ok(value: T, used: nat) | Err(status: Status) {
    /** The same result for an input that had k more bytes in front. */
    function After(k: nat): (r: Decoded<T>) {
      match this
      case Ok(v, n) => Ok(v, n + k)
      case Err(s) => Err(s)
    }
  }

  // ----- Integers

  function DecUnsigned(s: seq<byte>, n: nat): (r: Decoded<nat>)
    ensures r.Ok? <==> |s| >= n
    ensures r.Ok? ==> r.used == n && r.value < Pow256(n)
    ensures r.Err? ==> r.status == BadDecodingError
  {
    if |s| < n then Err(BadDecodingError) else Ok(FromLE(s[..n]), n)
  }

  lemma UnsignedRoundTrip(v: nat, n: nat, rest: seq<byte>)
    requires v < Pow256(n)
    ensures DecUnsigned(LE(v, n) + rest, n) == Ok(v, n)
  {
    assert (LE(v, n) + rest)[..n] == LE(v, n);
    LEInverse(v, n);
  }

  function DecU8(s: seq<byte>): (r: Decoded<byte>)
    ensures r.Ok? ==> r.used == 1 <= |s|
  {
    if |s| < 1 then Err(BadDecodingError) else Ok(s[0], 1)
  }

  function DecU16(s: seq<byte>): (r: Decoded<u16>)
    ensures r.Ok? ==> r.used == 2 <= |s|
  {
    Pow256Values();
    match DecUnsigned(s, 2)
    case Ok(v, n) => Ok(v, n)
    case Err(e) => Err(e)
  }

  function DecU32(s: seq<byte>): (r: Decoded<u32>)
    ensures r.Ok? ==> r.used == 4 <= |s|
  {
    Pow256Values();
    match DecUnsigned(s, 4)
    case Ok(v, n) => Ok(v, n)
    case Err(e) => Err(e)
  }

  function DecU64(s: seq<byte>): (r: Decoded<u64>)
    ensures r.Ok? ==> r.used == 8 <= |s|
  {
    Pow256Values();
    match DecUnsigned(s, 8)
    case Ok(v, n) => Ok(v, n)
    case Err(e) => Err(e)
  }

  function DecI16(s: seq<byte>): (r: Decoded<i16>)
    ensures r.Ok? ==> r.used == 2 <= |s|
  {
    match DecU16(s)
    case Ok(v, n) => Ok(ToSigned(v, TWO16), n)
    case Err(e) => Err(e)
  }

  function DecI32(s: seq<byte>): (r: Decoded<i32>)
    ensures r.Ok? ==> r.used == 4 <= |s|
  {
    match DecU32(s)
    case Ok(v, n) => Ok(ToSigned(v, TWO32), n)
    case Err(e) => Err(e)
  }

  function DecI64(s: seq<byte>): (r: Decoded<i64>)
    ensures r.Ok? ==> r.used == 8 <= |s|
  {
    match DecU64(s)
    case Ok(v, n) => Ok(ToSigned(v, TWO64), n)
    case Err(e) => Err(e)
  }

  function EncI16(v: i16): (r: seq<byte>)
    ensures |r| == 2
  {
    LE(ToUnsigned(v, TWO16), 2)
  }

  function EncI32(v: i32): (r: seq<byte>)
    ensures |r| == 4
  {
    LE(ToUnsigned(v, TWO32), 4)
  }

  function EncI64(v: i64): (r: seq<byte>)
    ensures |r| == 8
  {
    LE(ToUnsigned(v, TWO64), 8)
  }


  lemma U16RoundTrip(v: u16, rest: seq<byte>)
    ensures DecU16(LE(v, 2) + rest) == Ok(v, 2)
  {
    Pow256Values();
    UnsignedRoundTrip(v, 2, rest);
  }

  lemma U32RoundTrip(v: u32, rest: seq<byte>)
    ensures DecU32(LE(v, 4) + rest) == Ok(v, 4)
  {
    Pow256Values();
    UnsignedRoundTrip(v, 4, rest);
  }

  lemma U64RoundTrip(v: u64, rest: seq<byte>)
    ensures DecU64(LE(v, 8) + rest) == Ok(v, 8)
  {
    Pow256Values();
    UnsignedRoundTrip(v, 8, rest);
  }

  lemma I16RoundTrip(v: i16, rest: seq<byte>)
    ensures DecI16(EncI16(v) + rest) == Ok(v, 2)
  {
    U16RoundTrip(ToUnsigned(v, TWO16), rest);
  }

  lemma I32RoundTrip(v: i32, rest: seq<byte>)
    ensures DecI32(EncI32(v) + rest) == Ok(v, 4)
  {
    U32RoundTrip(ToUnsigned(v, TWO32), rest);
  }

  lemma I64RoundTrip(v: i64, rest: seq<byte>)
    ensures DecI64(EncI64(v) + rest) == Ok(v, 8)
  {
    U64RoundTrip(ToUnsigned(v, TWO64), rest);
  }

  // ----- String and ByteString

  predicate EncodableString(s: UaString) {
    s.Bytes? ==> |s.bytes| <= MAX_STRING
  }

  function EncString(s: UaString): (r: seq<byte>)
    requires EncodableString(s)
  {
    match s
    case Null => EncI32(-1)
    case Bytes(b) => EncI32(|b|) + b
  }

  function DecString(s: seq<byte>): (r: Decoded<UaString>)
    ensures r.Ok? ==> 4 <= r.used <= |s| && EncodableString(r.value)
  {
    match DecI32(s)
    case Err(e) => Err(e)
    case Ok(length, _) =>
      if length == -1 then Ok(Null, 4)
      else if length < 0 then Err(BadDecodingError)
      else if length > MAX_STRING then Err(BadEncodingLimitsExceeded)
      else if length > |s| - 4 then Err(BadDecodingError)
      else Ok(Bytes(s[4..4 + length]), 4 + length)
  }

  lemma StringRoundTrip(v: UaString, rest: seq<byte>)
    requires EncodableString(v)
    ensures DecString(EncString(v) + rest) == Ok(v, |EncString(v)|)
  {
    match v
    case Null => I32RoundTrip(-1, rest);
    case Bytes(b) =>
      var s := EncString(v) + rest;
      assert s == EncI32(|b|) + (b + rest);
      I32RoundTrip(|b|, b + rest);
      assert s[4..4 + |b|] == b;
  }

  // ----- NodeId

  predicate EncodableNodeId(n: NodeId) {
    n.Numeric? || (n.StringId? && EncodableString(n.name))
  }

  /** The shortest of the TwoByte, FourByte and Numeric forms, or the String form. */
  function EncNodeId(n: NodeId): (r: seq<byte>)
    requires EncodableNodeId(n)
  {
    match n
    case Numeric(ns, id) =>
      if ns == 0 && id <= 255 then [0x00, id]
      else if ns <= 255 && id <= 65535 then [0x01, ns] + LE(id, 2)
      else [0x02] + LE(ns, 2) + LE(id, 4)
    case StringId(ns, name) => [0x03] + LE(ns, 2) + EncString(name)
  }

  function DecNodeId(s: seq<byte>): (r: Decoded<NodeId>)
    ensures r.Ok? ==> 1 <= r.used <= |s| && EncodableNodeId(r.value)
  {
    if |s| < 1 then Err(BadDecodingError)
    else if s[0] % 16 == 0 then
      match DecU8(s[1..])
      case Err(e) => Err(e)
      case Ok(id, _) => Ok(Numeric(0, id), 2)
    else if s[0] % 16 == 1 then
      match DecU8(s[1..])
      case Err(e) => Err(e)
      case Ok(ns, _) =>
        match DecU16(s[2..])
        case Err(e) => Err(e)
        case Ok(id, _) => Ok(Numeric(ns, id), 4)
    else if s[0] % 16 == 2 then
      match DecU16(s[1..])
      case Err(e) => Err(e)
      case Ok(ns, _) =>
        match DecU32(s[3..])
        case Err(e) => Err(e)
        case Ok(id, _) => Ok(Numeric(ns, id), 7)
    else if s[0] % 16 == 3 then
      match DecU16(s[1..])
      case Err(e) => Err(e)
      case Ok(ns, _) =>
        match DecString(s[3..])
        case Err(e) => Err(e)
        case Ok(name, k) => Ok(StringId(ns, name), 3 + k)
    else Err(BadDecodingError)
  }

  lemma TwoByteRoundTrip(id: byte, rest: seq<byte>)
    ensures DecNodeId([0x00, id] + rest) == Ok(Numeric(0, id), 2)
  {
    assert ([0x00, id] + rest)[1..] == [id] + rest;
  }

  lemma FourByteRoundTrip(ns: byte, id: u16, rest: seq<byte>)
    ensures DecNodeId([0x01, ns] + LE(id, 2) + rest) == Ok(Numeric(ns, id), 4)
  {
    hide LE, DecString;
    var s := [0x01, ns] + LE(id, 2) + rest;
    assert s[1..] == [ns] + (LE(id, 2) + rest);
    assert s[2..] == LE(id, 2) + rest;
    U16RoundTrip(id, rest);
  }

  lemma FullNumericRoundTrip(ns: u16, id: u32, rest: seq<byte>)
    ensures DecNodeId([0x02] + LE(ns, 2) + LE(id, 4) + rest) == Ok(Numeric(ns, id), 7)
  {
    hide LE, DecString;
    var s := [0x02] + LE(ns, 2) + LE(id, 4) + rest;
    assert s[1..] == LE(ns, 2) + (LE(id, 4) + rest);
    assert s[3..] == LE(id, 4) + rest;
    U16RoundTrip(ns, LE(id, 4) + rest);
    U32RoundTrip(id, rest);
  }

  lemma StringIdRoundTrip(ns: u16, name: UaString, rest: seq<byte>)
    requires EncodableString(name)
    ensures DecNodeId([0x03] + LE(ns, 2) + EncString(name) + rest) == Ok(StringId(ns, name), 3 + |EncString(name)|)
  {
    hide LE, DecString, EncString;
    var e := EncString(name);
    var s := [0x03] + LE(ns, 2) + e + rest;
    assert s[1..] == LE(ns, 2) + (e + rest);
    assert s[3..] == e + rest;
    U16RoundTrip(ns, e + rest);
    StringRoundTrip(name, rest);
  }

  lemma NodeIdRoundTrip(v: NodeId, rest: seq<byte>)
    requires EncodableNodeId(v)
    ensures DecNodeId(EncNodeId(v) + rest) == Ok(v, |EncNodeId(v)|)
  {
    hide LE, DecNodeId, EncString;
    match v
    case Numeric(ns, id) =>
      if ns == 0 && id <= 255 {
        TwoByteRoundTrip(id, rest);
      } else if ns <= 255 && id <= 65535 {
        FourByteRoundTrip(ns, id, rest);
      } else {
        FullNumericRoundTrip(ns, id, rest);
      }
    case StringId(ns, name) => StringIdRoundTrip(ns, name, rest);
  }

  // ----- Variant

  function TypeId(v: Variant): (t: typeId) {
    match v
    case VNull => 0
    case VBoolean(_) => 1
    case VSByte(_) => 2
    case VByte(_) => 3
    case VInt16(_) => 4
    case VUInt16(_) => 5
    case VInt32(_) => 6
    case VUInt32(_) => 7
    case VInt64(_) => 8
    case VUInt64(_) => 9
    case VFloat(_) => 10
    case VDouble(_) => 11
    case VString(_) => 12
    case VDateTime(_) => 13
    case VByteString(_) => 15
    case VNodeId(_) => 17
    case VStatusCode(_) => 19
    case VQualifiedName(_, _) => 20
    case VLocalizedText(_, _) => 21
    case VArray(kind, _, _) => kind
    case VUnsupported(kind) => kind
  }

  /** The scalars the writer has a case for, with strings it does not refuse. */
  predicate EncodableScalar(v: Variant) {
    match v
    case VString(s) => EncodableString(s)
    case VByteString(s) => EncodableString(s)
    case VNodeId(n) => EncodableNodeId(n)
    case VQualifiedName(_, name) => EncodableString(name)
    case VLocalizedText(locale, text) => EncodableString(locale) && EncodableString(text)
    case VArray(_, _, _) => false
    case VUnsupported(_) => false
    case _ => true
  }

  /** The types element_size knows. */
  predicate SizedKind(kind: typeId) {
    1 <= kind <= 13 || kind == 15 || kind == 17 || 19 <= kind <= 21
  }

  predicate EncodableElements(es: seq<Variant>) {
    forall i :: 0 <= i < |es| ==> !es[i].VNull? && EncodableScalar(es[i])
  }

  /** The array is null, as an array without a type, a negative length or no pointer is. */
  predicate NullArray(kind: typeId, length: i32, elements: Option<seq<Variant>>) {
    kind == 0 || length < 0 || elements.None?
  }

  predicate Encodable(v: Variant) {
    if v.VArray? then
      NullArray(v.kind, v.length, v.elements) || (SizedKind(v.kind) && EncodableElements(v.elements.value))
    else EncodableScalar(v)
  }

  function LocalizedTextMask(locale: UaString, text: UaString): (m: byte) {
    (if locale.Bytes? then 1 else 0) + (if text.Bytes? then 2 else 0)
  }

  function EncIfPresent(s: UaString): (r: seq<byte>)
    requires EncodableString(s)
  {
    if s.Bytes? then EncString(s) else []
  }

  function EncQualifiedName(ns: u16, name: UaString): (r: seq<byte>)
    requires EncodableString(name)
  {
    LE(ns, 2) + EncString(name)
  }

  function EncLocalizedText(locale: UaString, text: UaString): (r: seq<byte>)
    requires EncodableString(locale) && EncodableString(text)
  {
    [LocalizedTextMask(locale, text)] + EncIfPresent(locale) + EncIfPresent(text)
  }

  function EncScalar(v: Variant): (r: seq<byte>)
    requires EncodableScalar(v)
  {
    match v
    case VNull => []
    case VBoolean(b) => [if b then 1 else 0]
    case VSByte(x) => [ToUnsigned(x, TWO8)]
    case VByte(x) => [x]
    case VInt16(x) => EncI16(x)
    case VUInt16(x) => LE(x, 2)
    case VInt32(x) => EncI32(x)
    case VUInt32(x) => LE(x, 4)
    case VInt64(x) => EncI64(x)
    case VUInt64(x) => LE(x, 8)
    case VFloat(x) => LE(x, 4)
    case VDouble(x) => LE(x, 8)
    case VString(s) => EncString(s)
    case VDateTime(x) => EncI64(x)
    case VByteString(s) => EncString(s)
    case VNodeId(n) => EncNodeId(n)
    case VStatusCode(x) => LE(x, 4)
    case VQualifiedName(ns, name) => EncQualifiedName(ns, name)
    case VLocalizedText(locale, text) => EncLocalizedText(locale, text)
  }

  function EncElements(es: seq<Variant>): (r: seq<byte>)
    requires EncodableElements(es)
  {
    if es == [] then [] else EncScalar(es[0]) + EncElements(es[1..])
  }

  /** Length and elements; of an array without a type not even the length. */
  function EncArray(kind: typeId, length: i32, elements: Option<seq<Variant>>): (r: seq<byte>)
    requires NullArray(kind, length, elements) || EncodableElements(elements.value)
  {
    if kind == 0 then []
    else EncI32(length) + if NullArray(kind, length, elements) then [] else EncElements(elements.value)
  }

  function EncVariant(v: Variant): (r: seq<byte>)
    requires Encodable(v)
    ensures |r| >= 1
  {
    if v.VArray? then [v.kind + 128] + EncArray(v.kind, v.length, v.elements)
    else [TypeId(v)] + EncScalar(v)
  }

  function DecIfPresent(present: bool, s: seq<byte>): (r: Decoded<UaString>)
    ensures r.Ok? ==> r.used <= |s| && EncodableString(r.value)
  {
    if present then DecString(s) else Ok(Null, 0)
  }

  /** The two optional strings of a LocalizedText, after its mask byte. */
  function DecTexts(m: byte, s: seq<byte>): (r: Decoded<Variant>)
    ensures r.Ok? ==> r.used <= |s|
  {
    match DecIfPresent(m % 2 == 1, s)
    case Err(e) => Err(e)
    case Ok(locale, k) =>
      match DecIfPresent(m / 2 % 2 == 1, s[k..])
      case Err(e) => Err(e)
      case Ok(text, n) => Ok(VLocalizedText(locale, text), k + n)
  }

  function DecLocalizedText(s: seq<byte>): (r: Decoded<Variant>)
    ensures r.Ok? ==> r.used <= |s|
  {
    if |s| < 1 then Err(BadDecodingError) else DecTexts(s[0], s[1..]).After(1)
  }

  function DecQualifiedName(s: seq<byte>): (r: Decoded<Variant>)
    ensures r.Ok? ==> r.used <= |s|
  {
    match DecU16(s)
    case Err(e) => Err(e)
    case Ok(ns, _) =>
      match DecString(s[2..])
      case Err(e) => Err(e)
      case Ok(name, n) => Ok(VQualifiedName(ns, name), 2 + n)
  }

  function Lift<T>(d: Decoded<T>, f: T -> Variant): (r: Decoded<Variant>)
    ensures r.Ok? <==> d.Ok?
    ensures r.Ok? ==> r.used == d.used && r.value == f(d.value)
    ensures r.Err? ==> r.status == d.status
  {
    match d
    case Ok(v, n) => Ok(f(v), n)
    case Err(e) => Err(e)
  }

  function DecScalar(kind: byte, s: seq<byte>): (r: Decoded<Variant>)
    ensures r.Ok? ==> r.used <= |s|
  {
    match kind
    case 0 => Ok(VNull, 0)
    case 1 => Lift(DecU8(s), (b: byte) => VBoolean(b != 0))
    case 2 => Lift(DecU8(s), (b: byte) => VSByte(ToSigned(b, TWO8)))
    case 3 => Lift(DecU8(s), (b: byte) => VByte(b))
    case 4 => Lift(DecI16(s), (x: i16) => VInt16(x))
    case 5 => Lift(DecU16(s), (x: u16) => VUInt16(x))
    case 6 => Lift(DecI32(s), (x: i32) => VInt32(x))
    case 7 => Lift(DecU32(s), (x: u32) => VUInt32(x))
    case 8 => Lift(DecI64(s), (x: i64) => VInt64(x))
    case 9 => Lift(DecU64(s), (x: u64) => VUInt64(x))
    case 10 => Lift(DecU32(s), (x: u32) => VFloat(x))
    case 11 => Lift(DecU64(s), (x: u64) => VDouble(x))
    case 12 => Lift(DecString(s), (x: UaString) => VString(x))
    case 13 => Lift(DecI64(s), (x: i64) => VDateTime(x))
    case 15 => Lift(DecString(s), (x: UaString) => VByteString(x))
    case 17 => Lift(DecNodeId(s), (x: NodeId) => VNodeId(x))
    case 19 => Lift(DecU32(s), (x: u32) => VStatusCode(x))
    case 20 => DecQualifiedName(s)
    case 21 => DecLocalizedText(s)
    case _ => Err(BadDecodingError)
  }

  /** Arrays and dimensions (the two high bits of the mask) are refused. */
  function DecVariant(s: seq<byte>): (r: Decoded<Variant>)
    ensures r.Ok? ==> 1 <= r.used <= |s|
  {
    if |s| < 1 || s[0] >= 64 then Err(BadDecodingError)
    else DecScalar(s[0], s[1..]).After(1)
  }

  lemma IfPresentRoundTrip(v: UaString, rest: seq<byte>)
    requires EncodableString(v)
    ensures DecIfPresent(v.Bytes?, EncIfPresent(v) + rest) == Ok(v, |EncIfPresent(v)|)
  {
    if v.Bytes? { StringRoundTrip(v, rest); }
  }

  lemma TextsRoundTrip(m: byte, locale: UaString, text: UaString, a: seq<byte>, b: seq<byte>, rest: seq<byte>)
    requires EncodableString(locale) && EncodableString(text)
    requires m == LocalizedTextMask(locale, text) && a == EncIfPresent(locale) && b == EncIfPresent(text)
    ensures DecTexts(m, a + (b + rest)) == Ok(VLocalizedText(locale, text), |a| + |b|)
  {
    hide EncIfPresent, DecIfPresent;
    assert m % 2 == 1 <==> locale.Bytes?;
    assert m / 2 % 2 == 1 <==> text.Bytes?;
    IfPresentRoundTrip(locale, b + rest);
    assert (a + (b + rest))[|a|..] == b + rest;
    IfPresentRoundTrip(text, rest);
  }

  // Regrouping, stated on bare sequences.

  lemma PeelMask2(m: byte, a: seq<byte>, b: seq<byte>, rest: seq<byte>)
    ensures var s := [m] + a + b + rest;
      s[0] == m && s[1..] == a + (b + rest)
  {
  }

  lemma Peel(a: seq<byte>, b: seq<byte>, rest: seq<byte>)
    ensures a + b + rest == a + (b + rest)
    ensures (a + b + rest)[|a|..] == b + rest
  {
  }

  lemma LocalizedTextRoundTrip(locale: UaString, text: UaString, rest: seq<byte>)
    requires EncodableString(locale) && EncodableString(text)
    ensures DecLocalizedText(EncLocalizedText(locale, text) + rest)
      == Ok(VLocalizedText(locale, text), |EncLocalizedText(locale, text)|)
  {
    hide EncIfPresent, DecTexts;
    var m, a, b := LocalizedTextMask(locale, text), EncIfPresent(locale), EncIfPresent(text);
    TextsRoundTrip(m, locale, text, a, b, rest);
    PeelMask2(m, a, b, rest);
  }

  lemma QualifiedNameRoundTrip(ns: u16, name: UaString, rest: seq<byte>)
    requires EncodableString(name)
    ensures DecQualifiedName(EncQualifiedName(ns, name) + rest)
      == Ok(VQualifiedName(ns, name), |EncQualifiedName(ns, name)|)
  {
    hide LE, EncString, DecString;
    var s := EncQualifiedName(ns, name) + rest;
    assert s == LE(ns, 2) + (EncString(name) + rest);
    assert s[2..] == EncString(name) + rest;
    U16RoundTrip(ns, EncString(name) + rest);
    StringRoundTrip(name, rest);
  }

  predicate IsText(v: Variant) {
    v.VString? || v.VByteString? || v.VNodeId? || IsNamed(v)
  }

  predicate IsNamed(v: Variant) {
    v.VQualifiedName? || v.VLocalizedText?
  }

  lemma NamedRoundTrip(v: Variant, rest: seq<byte>)
    requires EncodableScalar(v) && IsNamed(v)
    ensures DecScalar(TypeId(v), EncScalar(v) + rest) == Ok(v, |EncScalar(v)|)
  {
    hide LE, DecString, EncString, EncQualifiedName, DecQualifiedName, EncLocalizedText, DecLocalizedText, DecNodeId;
    match v
    case VQualifiedName(ns, name) => QualifiedNameRoundTrip(ns, name, rest);
    case VLocalizedText(locale, text) => LocalizedTextRoundTrip(locale, text, rest);
  }

  lemma TextRoundTrip(v: Variant, rest: seq<byte>)
    requires EncodableScalar(v) && IsText(v) && !IsNamed(v)
    ensures DecScalar(TypeId(v), EncScalar(v) + rest) == Ok(v, |EncScalar(v)|)
  {
    hide LE, EncString, DecString, EncNodeId, DecNodeId, DecQualifiedName, DecLocalizedText;
    match v
    case VString(x) => StringRoundTrip(x, rest);
    case VByteString(x) => StringRoundTrip(x, rest);
    case VNodeId(x) => NodeIdRoundTrip(x, rest);
  }

  lemma NarrowRoundTrip(v: Variant, rest: seq<byte>)
    requires EncodableScalar(v) && TypeId(v) <= 5
    ensures DecScalar(TypeId(v), EncScalar(v) + rest) == Ok(v, |EncScalar(v)|)
  {
    hide LE, DecString, DecNodeId, DecQualifiedName, DecLocalizedText, EncI16, DecI16;
    match v
    case VInt16(x) => I16RoundTrip(x, rest);
    case VUInt16(x) => U16RoundTrip(x, rest);
    case _ =>
  }

  lemma WideRoundTrip(v: Variant, rest: seq<byte>)
    requires EncodableScalar(v) && TypeId(v) > 5 && !IsText(v)
    ensures DecScalar(TypeId(v), EncScalar(v) + rest) == Ok(v, |EncScalar(v)|)
  {
    hide LE, DecString, DecNodeId, DecQualifiedName, DecLocalizedText, EncI32, EncI64, DecI32, DecI64, DecU32, DecU64;
    match v
    case VInt32(x) => I32RoundTrip(x, rest);
    case VUInt32(x) => U32RoundTrip(x, rest);
    case VInt64(x) => I64RoundTrip(x, rest);
    case VUInt64(x) => U64RoundTrip(x, rest);
    case VFloat(x) => U32RoundTrip(x, rest);
    case VDouble(x) => U64RoundTrip(x, rest);
    case VDateTime(x) => I64RoundTrip(x, rest);
    case VStatusCode(x) => U32RoundTrip(x, rest);
  }

  lemma ScalarRoundTrip(v: Variant, rest: seq<byte>)
    requires EncodableScalar(v)
    ensures DecScalar(TypeId(v), EncScalar(v) + rest) == Ok(v, |EncScalar(v)|)
  {
    hide EncScalar, DecScalar;
    if IsNamed(v) {
      NamedRoundTrip(v, rest);
    } else if IsText(v) {
      TextRoundTrip(v, rest);
    } else if TypeId(v) <= 5 {
      NarrowRoundTrip(v, rest);
    } else {
      WideRoundTrip(v, rest);
    }
  }

  /** Decoding an encoded scalar gives it back and stops exactly where it ended, whatever follows. */
  lemma VariantRoundTrip(v: Variant, rest: seq<byte>)
    requires Encodable(v) && !v.VArray?
    ensures DecVariant(EncVariant(v) + rest) == Ok(v, |EncVariant(v)|)
  {
    hide EncScalar, DecScalar;
    var s := EncVariant(v) + rest;
    assert s[1..] == EncScalar(v) + rest;
    ScalarRoundTrip(v, rest);
  }

  /** The reader refuses every array the writer writes: arrays do not round-trip. */
  lemma ArraysAreNotRead(v: Variant, rest: seq<byte>)
    requires Encodable(v)
    ensures v.VArray? <==> DecVariant(EncVariant(v) + rest) == Err(BadDecodingError)
  {
    if !v.VArray? { VariantRoundTrip(v, rest); }
  }

  // ----- DataValue

  predicate EncodableDataValue(d: DataValue) {
    d.value.Some? ==> Encodable(d.value.value)
  }

  function DataValueMask(d: DataValue): (m: byte) {
    (if d.value.Some? then 1 else 0) + (if d.status.Some? then 2 else 0)
    + (if d.sourceTimestamp.Some? then 4 else 0) + (if d.serverTimestamp.Some? then 8 else 0)
  }

  function EncOptVariant(o: Option<Variant>): (r: seq<byte>)
    requires o.Some? ==> Encodable(o.value)
  {
    if o.Some? then EncVariant(o.value) else []
  }

  function EncOptU32(o: Option<u32>): (r: seq<byte>) { if o.Some? then LE(o.value, 4) else [] }
  function EncOptI64(o: Option<i64>): (r: seq<byte>) { if o.Some? then EncI64(o.value) else [] }

  function EncDataValue(d: DataValue): (r: seq<byte>)
    requires EncodableDataValue(d)
    ensures |r| >= 1
  {
    [DataValueMask(d)] + (EncOptVariant(d.value) + EncStatusAndTimes(d))
  }

  function EncStatusAndTimes(d: DataValue): (r: seq<byte>) {
    EncOptU32(d.status) + EncTimes(d)
  }

  function EncTimes(d: DataValue): (r: seq<byte>) {
    EncOptI64(d.sourceTimestamp) + EncOptI64(d.serverTimestamp)
  }

  function DecOpt<T>(present: bool, d: Decoded<T>): (r: Decoded<Option<T>>)
    ensures r.Ok? && present ==> d.Ok? && r.used == d.used
    ensures r.Ok? && !present ==> r.used == 0
  {
    if !present then Ok(None, 0)
    else match d
      case Ok(v, n) => Ok(Some(v), n)
      case Err(e) => Err(e)
  }

  /** The picosecond fields are read and dropped. */
  function DecSkipU16(present: bool, s: seq<byte>): (r: Decoded<Option<u16>>)
    ensures r.Ok? ==> r.used <= |s|
  {
    DecOpt(present, DecU16(s))
  }

  function Bit(m: byte, weight: nat): (b: bool)
    requires weight > 0
  {
    m / weight % 2 == 1
  }

  /** A timestamp and the picoseconds that may follow it. */
  function DecTimestamp(m: byte, time: nat, pico: nat, s: seq<byte>): (r: Decoded<Option<i64>>)
    requires time > 0 && pico > 0
    ensures r.Ok? ==> r.used <= |s|
  {
    match DecOpt(Bit(m, time), DecI64(s))
    case Err(e) => Err(e)
    case Ok(t, n) =>
      match DecSkipU16(Bit(m, pico), s[n..])
      case Err(e) => Err(e)
      case Ok(_, k) => Ok(t, n + k)
  }

  function DecTimes(m: byte, s: seq<byte>): (r: Decoded<(Option<i64>, Option<i64>)>)
    ensures r.Ok? ==> r.used <= |s|
  {
    match DecTimestamp(m, 4, 16, s)
    case Err(e) => Err(e)
    case Ok(source, n) =>
      match DecTimestamp(m, 8, 32, s[n..])
      case Err(e) => Err(e)
      case Ok(server, k) => Ok((source, server), n + k)
  }

  /** Everything after the value. */
  function DecStatusAndTimes(m: byte, value: Option<Variant>, s: seq<byte>): (r: Decoded<DataValue>)
    ensures r.Ok? ==> r.used <= |s|
  {
    match DecOpt(Bit(m, 2), DecU32(s))
    case Err(e) => Err(e)
    case Ok(status, n) =>
      match DecTimes(m, s[n..])
      case Err(e) => Err(e)
      case Ok(times, k) => Ok(DataValue(value, status, times.0, times.1), n + k)
  }

  function DecFields(m: byte, s: seq<byte>): (r: Decoded<DataValue>)
    ensures r.Ok? ==> r.used <= |s|
  {
    match DecOpt(Bit(m, 1), DecVariant(s))
    case Err(e) => Err(e)
    case Ok(value, n) => DecStatusAndTimes(m, value, s[n..]).After(n)
  }

  function DecDataValue(s: seq<byte>): (r: Decoded<DataValue>)
    ensures r.Ok? ==> 1 <= r.used <= |s|
  {
    if |s| < 1 then Err(BadDecodingError) else DecFields(s[0], s[1..]).After(1)
  }

  lemma TimestampRoundTrip(m: byte, time: nat, pico: nat, o: Option<i64>, rest: seq<byte>)
    requires time > 0 && pico > 0
    requires Bit(m, time) == o.Some? && !Bit(m, pico)
    ensures DecTimestamp(m, time, pico, EncOptI64(o) + rest) == Ok(o, |EncOptI64(o)|)
  {
    if o.Some? { I64RoundTrip(o.value, rest); }
  }

  lemma TimesRoundTrip(m: byte, d: DataValue, rest: seq<byte>)
    requires m == DataValueMask(d)
    ensures DecTimes(m, EncTimes(d) + rest) == Ok((d.sourceTimestamp, d.serverTimestamp), |EncTimes(d)|)
  {
    hide EncOptI64, DecTimestamp, DataValueMask, Bit;
    MaskBits(d);
    var a, b := EncOptI64(d.sourceTimestamp), EncOptI64(d.serverTimestamp);
    TimestampRoundTrip(m, 4, 16, d.sourceTimestamp, b + rest);
    Peel(a, b, rest);
    TimestampRoundTrip(m, 8, 32, d.serverTimestamp, rest);
  }

  lemma StatusAndTimesRoundTrip(m: byte, d: DataValue, rest: seq<byte>)
    requires m == DataValueMask(d)
    ensures DecStatusAndTimes(m, d.value, EncStatusAndTimes(d) + rest) == Ok(d, |EncStatusAndTimes(d)|)
  {
    hide LE, EncTimes, DecTimes, DataValueMask, Bit;
    MaskBits(d);
    var a, b := EncOptU32(d.status), EncTimes(d);
    if d.status.Some? { U32RoundTrip(d.status.value, b + rest); }
    Peel(a, b, rest);
    TimesRoundTrip(m, d, rest);
  }

  lemma FieldsRoundTrip(m: byte, d: DataValue, rest: seq<byte>)
    requires EncodableDataValue(d) && (d.value.Some? ==> !d.value.value.VArray?) && m == DataValueMask(d)
    ensures var fields := EncOptVariant(d.value) + EncStatusAndTimes(d);
      DecFields(m, fields + rest) == Ok(d, |fields|)
  {
    hide EncVariant, DecVariant, EncStatusAndTimes, DecStatusAndTimes, Encodable, DataValueMask, Bit;
    MaskBits(d);
    var a, b := EncOptVariant(d.value), EncStatusAndTimes(d);
    if d.value.Some? { VariantRoundTrip(d.value.value, b + rest); }
    Peel(a, b, rest);
    StatusAndTimesRoundTrip(m, d, rest);
  }

  /** The same for a DataValue holding no array, picoseconds never being written. */
  lemma DataValueRoundTrip(d: DataValue, rest: seq<byte>)
    requires EncodableDataValue(d) && (d.value.Some? ==> !d.value.value.VArray?)
    ensures DecDataValue(EncDataValue(d) + rest) == Ok(d, |EncDataValue(d)|)
  {
    hide EncOptVariant, EncStatusAndTimes, DecFields, Encodable, DataValueMask;
    var m := DataValueMask(d);
    FieldsRoundTrip(m, d, rest);
    Peel([m], EncOptVariant(d.value) + EncStatusAndTimes(d), rest);
  }

  lemma MaskBits(d: DataValue)
    ensures var m := DataValueMask(d);
      Bit(m, 1) == d.value.Some? && Bit(m, 2) == d.status.Some?
      && Bit(m, 4) == d.sourceTimestamp.Some? && Bit(m, 8) == d.serverTimestamp.Some?
      && !Bit(m, 16) && !Bit(m, 32)
  {
  }
}
