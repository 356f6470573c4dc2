/**
 The UADP NetworkMessage of src/encoding/uadp_encoder.c (section 7.2.4.4.2 of
 OPC 10000-14): an encoder that patches the DataSetMessage size in afterwards
 and looks only at the writer's sticky status, and the decoder of its subset.
 */
module Uadp {
  import opened Types
  import opened Wire
  import opened Codec
  import opened Steps
  import opened Cursors

  const MAX_FIELDS: nat := 8
  const NETWORK_FLAGS: byte := 0xD1
  const PUBLISHER_ID_UINT32: byte := 0x02
  const VALID_VARIANT: byte := 0x01
  /** Bytes before the DataSetMessage, the last two being its size. */
  const HEADER: nat := 11

  datatype Message = Message(publisherId: u32, writerId: u16, fields: seq<Variant>)

  predicate Scalars(fields: seq<Variant>) {
    forall i :: 0 <= i < |fields| ==> !fields[i].VArray? && EncodableScalar(fields[i])
  }

  function EncFields(fields: seq<Variant>): (r: seq<byte>)
    requires Scalars(fields)
  {
    if fields == [] then [] else EncVariant(fields[0]) + EncFields(fields[1..])
  }

  /** Everything before the size of the DataSetMessage. */
  function EncPrefix(publisherId: u32, writerId: u16): (r: seq<byte>)
    ensures |r| == HEADER - 2
  {
    [NETWORK_FLAGS, PUBLISHER_ID_UINT32] + LE(publisherId, 4) + [1] + LE(writerId, 2)
  }

  function EncBody(fields: seq<Variant>): (r: seq<byte>)
    requires Scalars(fields)
  {
    [VALID_VARIANT] + EncFields(fields)
  }

  function EncMessage(m: Message): (r: seq<byte>)
    requires Scalars(m.fields)
  {
    EncPrefix(m.publisherId, m.writerId) + (LE(|EncBody(m.fields)|, 2) + EncBody(m.fields))
  }

  // ----- Decoding

  predicate UnsupportedMask(mask: byte) {
    mask >= 64 || mask == 14 || mask == 16 || mask == 18 || (22 <= mask <= 25)
  }

  datatype Outcome<+T> = Accepted(value: T) | Refused(status: Status)

  /** The field loop, on the bytes left of the DataSetMessage. */
  function DecodeFields(s: seq<byte>, decoded: seq<Variant>, capacity: nat): (r: Outcome<seq<Variant>>)
    decreases |s|
  {
    if s == [] then Accepted(decoded)
    else if |decoded| >= capacity || |decoded| >= MAX_FIELDS then Refused(BadTooManyOperations)
    else if UnsupportedMask(s[0]) then Refused(BadNotSupported)
    else match DecVariant(s)
      case Err(_) => Refused(BadDecodingError)
      case Ok(v, n) => DecodeFields(s[n..], decoded + [v], capacity)
  }

  function DecodeBody(s: seq<byte>, capacity: nat): (r: Outcome<seq<Variant>>) {
    if s == [] then Refused(BadDecodingError)
    else if s[0] != VALID_VARIANT then Refused(BadNotSupported)
    else DecodeFields(s[1..], [], capacity)
  }

  /** The one payload header entry: its size must account for the rest exactly. */
  function DecodeEntry(publisherId: u32, s: seq<byte>, capacity: nat): (r: Outcome<Message>) {
    match DecU16(s)
    case Err(_) => Refused(BadDecodingError)
    case Ok(writerId, _) =>
      match DecU16(s[2..])
      case Err(_) => Refused(BadDecodingError)
      case Ok(size, _) =>
        if size != |s| - 4 then Refused(BadDecodingError)
        else match DecodeBody(s[4..], capacity)
          case Refused(e) => Refused(e)
          case Accepted(fields) => Accepted(Message(publisherId, writerId, fields))
  }

  function DecodeSized(s: seq<byte>, capacity: nat): (r: Outcome<Message>) {
    match DecU32(s)
    case Err(_) => Refused(BadDecodingError)
    case Ok(publisherId, _) =>
      match DecU8(s[4..])
      case Err(_) => Refused(BadDecodingError)
      case Ok(count, _) =>
        if count != 1 then Refused(BadNotSupported)
        else DecodeEntry(publisherId, s[5..], capacity)
  }

  function DecodeMessage(s: seq<byte>, capacity: nat): (r: Outcome<Message>) {
    match DecU8(s)
    case Err(_) => Refused(BadDecodingError)
    case Ok(flags, _) =>
      if flags != NETWORK_FLAGS then Refused(BadNotSupported)
      else match DecU8(s[1..])
        case Err(_) => Refused(BadDecodingError)
        case Ok(extended, _) =>
          if extended != PUBLISHER_ID_UINT32 then Refused(BadNotSupported)
          else DecodeSized(s[2..], capacity)
  }

  // ----- The round trip

  lemma MaskIsSupported(v: Variant)
    requires EncodableScalar(v) && !v.VArray?
    ensures EncVariant(v)[0] == TypeId(v) && !UnsupportedMask(TypeId(v))
  {
  }

  lemma FieldsStep(v: Variant, enc: seq<byte>, tail: seq<byte>, decoded: seq<Variant>, capacity: nat)
    requires |enc| > 0 && !UnsupportedMask(enc[0]) && DecVariant(enc + tail) == Ok(v, |enc|)
    requires |decoded| < capacity && |decoded| < MAX_FIELDS
    ensures DecodeFields(enc + tail, decoded, capacity) == DecodeFields(tail, decoded + [v], capacity)
  {
    assert (enc + tail)[|enc|..] == tail;
  }

  lemma FieldRoundTrip(v: Variant, tail: seq<byte>, decoded: seq<Variant>, capacity: nat)
    requires !v.VArray? && EncodableScalar(v)
    requires |decoded| < capacity && |decoded| < MAX_FIELDS
    ensures DecodeFields(EncVariant(v) + tail, decoded, capacity) == DecodeFields(tail, decoded + [v], capacity)
  {
    MaskIsSupported(v);
    VariantRoundTrip(v, tail);
    FieldsStep(v, EncVariant(v), tail, decoded, capacity);
  }

  lemma {:induction false} FieldsRoundTrip(fields: seq<Variant>, decoded: seq<Variant>, capacity: nat, s: seq<byte>)
    requires Scalars(fields) && s == EncFields(fields)
    requires |decoded| + |fields| <= capacity && |decoded| + |fields| <= MAX_FIELDS
    ensures DecodeFields(s, decoded, capacity) == Accepted(decoded + fields)
    decreases |fields|
  {
    hide DecVariant, EncVariant;
    if fields == [] {
      assert decoded + fields == decoded;
    } else {
      var v, rest := fields[0], fields[1..];
      var tail := EncFields(rest);
      FieldRoundTrip(v, tail, decoded, capacity);
      FieldsRoundTrip(rest, decoded + [v], capacity, tail);
      assert decoded + [v] + rest == decoded + fields;
    }
  }

  lemma BodyRoundTrip(fields: seq<Variant>, capacity: nat)
    requires Scalars(fields) && |fields| <= capacity && |fields| <= MAX_FIELDS
    ensures DecodeBody(EncBody(fields), capacity) == Accepted(fields)
  {
    assert EncBody(fields)[1..] == EncFields(fields);
    FieldsRoundTrip(fields, [], capacity, EncFields(fields));
    assert [] + fields == fields;
  }

  function Enclose(publisherId: u32, writerId: u16, o: Outcome<seq<Variant>>): (r: Outcome<Message>) {
    match o
    case Accepted(fields) => Accepted(Message(publisherId, writerId, fields))
    case Refused(e) => Refused(e)
  }

  lemma EntryRoundTrip(publisherId: u32, writerId: u16, body: seq<byte>, capacity: nat)
    requires |body| < TWO16
    ensures DecodeEntry(publisherId, LE(writerId, 2) + (LE(|body|, 2) + body), capacity)
      == Enclose(publisherId, writerId, DecodeBody(body, capacity))
  {
    hide LE, DecodeBody;
    var writer, size := LE(writerId, 2), LE(|body|, 2);
    U16RoundTrip(writerId, size + body);
    U16RoundTrip(|body|, body);
    Slices(writer, size, body);
  }

  lemma Slices(a: seq<byte>, b: seq<byte>, c: seq<byte>)
    requires |a| == 2 && |b| == 2
    ensures (a + (b + c))[2..] == b + c && (a + (b + c))[4..] == c
  {
  }

  lemma SizedRoundTrip(publisherId: u32, entry: seq<byte>, capacity: nat)
    ensures DecodeSized(LE(publisherId, 4) + ([1] + entry), capacity) == DecodeEntry(publisherId, entry, capacity)
  {
    hide LE, DecodeEntry;
    var a := LE(publisherId, 4);
    U32RoundTrip(publisherId, [1] + entry);
    assert (a + ([1] + entry))[4..] == [1] + entry;
    assert (a + ([1] + entry))[5..] == entry;
  }

  lemma FlagsRoundTrip(sized: seq<byte>, capacity: nat)
    ensures DecodeMessage([NETWORK_FLAGS, PUBLISHER_ID_UINT32] + sized, capacity) == DecodeSized(sized, capacity)
  {
    hide DecodeSized;
    var s := [NETWORK_FLAGS, PUBLISHER_ID_UINT32] + sized;
    assert s[1..] == [PUBLISHER_ID_UINT32] + sized;
    assert s[2..] == sized;
  }

  lemma Layout(flags: seq<byte>, publisher: seq<byte>, writer: seq<byte>, tail: seq<byte>)
    ensures flags + publisher + [1] + writer + tail == flags + (publisher + ([1] + (writer + tail)))
  {
  }

  /** The decoder finds the body, whatever it is, inside the header the encoder puts around it. */
  lemma EnvelopeRoundTrip(publisherId: u32, writerId: u16, body: seq<byte>, capacity: nat)
    requires |body| < TWO16
    ensures DecodeMessage(EncPrefix(publisherId, writerId) + (LE(|body|, 2) + body), capacity)
      == Enclose(publisherId, writerId, DecodeBody(body, capacity))
  {
    hide LE, DecodeBody, DecodeEntry, DecodeSized, DecodeMessage;
    EntryRoundTrip(publisherId, writerId, body, capacity);
    var entry := LE(writerId, 2) + (LE(|body|, 2) + body);
    SizedRoundTrip(publisherId, entry, capacity);
    FlagsRoundTrip(LE(publisherId, 4) + ([1] + entry), capacity);
    Layout([NETWORK_FLAGS, PUBLISHER_ID_UINT32], LE(publisherId, 4), LE(writerId, 2), LE(|body|, 2) + body);
  }

  /** Decoding an encoded message gives back the publisher, the writer and every field. */
  lemma MessageRoundTrip(m: Message, capacity: nat)
    requires Scalars(m.fields) && |EncBody(m.fields)| < TWO16
    requires |m.fields| <= capacity && |m.fields| <= MAX_FIELDS
    ensures DecodeMessage(EncMessage(m), capacity) == Accepted(m)
  {
    hide LE, EncPrefix, EncBody, DecodeBody, DecodeMessage;
    BodyRoundTrip(m.fields, capacity);
    EnvelopeRoundTrip(m.publisherId, m.writerId, EncBody(m.fields), capacity);
  }

  // ----- The encoder

  /** The encoder completes the message: every field has an encoding and everything fits. */
  predicate Complete(m: Message, size: nat) {
    |m.fields| <= MAX_FIELDS && Scalars(m.fields)
    && |EncBody(m.fields)| < TWO16 && |EncMessage(m)| <= size
  }

  /** The fields are few enough, and none is an array. */
  predicate Supported(m: Message) {
    |m.fields| <= MAX_FIELDS && forall i :: 0 <= i < |m.fields| ==> !m.fields[i].VArray?
  }

  /**
   The bytes the fields leave in a buffer with this much room when nobody looks
   at what each write returns, or None if a primitive does not fit: that failure
   sticks. A string too long, a value without an encoding, and characters that
   do not fit leave only what came before them, and the next field goes on there.
   */
  function FieldsResidue(fields: seq<Variant>, room: nat): (r: Option<seq<byte>>)
    ensures r.Some? ==> |r.value| <= room
  {
    if fields == [] then Some([])
    else match Residue(VariantSteps(fields[0]), room)
      case None => None
      case Some(b) => Joined(b, FieldsResidue(fields[1..], room - |b|))
  }

  /** Header, patched size, and whatever the fields left. */
  function Sealed(m: Message, rest: seq<byte>): (r: seq<byte>)
    requires |rest| + 1 < TWO16
  {
    EncPrefix(m.publisherId, m.writerId) + (LE(|rest| + 1, 2) + ([VALID_VARIANT] + rest))
  }

  /** What the encoder returns, and the bytes it reports. */
  function Encoding(m: Message, size: nat): (r: (Status, seq<byte>)) {
    if |m.fields| > MAX_FIELDS then (BadTooManyOperations, [])
    else if !Supported(m) then (BadNotSupported, [])
    else if size < HEADER + 1 then (BadEncodingError, [])
    else match FieldsResidue(m.fields, size - HEADER - 1)
      case None => (BadEncodingError, [])
      case Some(rest) => if |rest| + 1 >= TWO16 then (BadEncodingLimitsExceeded, []) else (Good, Sealed(m, rest))
  }

  /** Bytes before the first field: header, size still zero, DataSetMessage flags. */
  function Start(m: Message): (r: seq<byte>)
    ensures |r| == HEADER + 1
  {
    EncPrefix(m.publisherId, m.writerId) + [0, 0] + [VALID_VARIANT]
  }

  /** A run of primitive writes nobody checks: either all of it is there, or the sticky status says so. */
  ghost predicate Unchecked(p: Pen, q: Pen, bytes: seq<byte>) {
    q.capacity == p.capacity
    && if p.status == Good && |p.written| + |bytes| <= p.capacity then q == Pen(Good, p.written + bytes, p.capacity)
       else q.status == BadEncodingError
  }

  lemma UncheckedThen(p: Pen, q: Pen, r: Pen, a: seq<byte>, b: seq<byte>, s: Status)
    requires Unchecked(p, q, a) && Laid(q, r, s, [Put(b)])
    ensures Unchecked(p, r, a + b)
  {
    LayOne(q, Put(b));
    Regroup(p.written, a, b);
  }

  lemma UncheckedNothing(p: Pen)
    requires p.Standing()
    ensures Unchecked(p, p, [])
  {
    assert p.written + [] == p.written;
  }

  method WriteHeader(w: BinaryWriter, publisherId: u32, writerId: u16)
    requires w.Valid() && w.View() == Pen(Good, [], w.buffer.Length)
    modifies w, w.buffer
    ensures w.Valid() && Unchecked(old(w.View()), w.View(), EncPrefix(publisherId, writerId) + [0, 0] + [VALID_VARIANT])
  {
    hide LE, Laid, Unchecked, BinaryWriter.View;
    ghost var p := w.View();
    assert Unchecked(p, p, []) by { UncheckedNothing(p); }
    var s := w.WriteByte(NETWORK_FLAGS);
    ghost var q := w.View();
    UncheckedThen(p, p, q, [], [NETWORK_FLAGS], s);
    s := w.WriteByte(PUBLISHER_ID_UINT32);
    UncheckedThen(p, q, w.View(), [] + [NETWORK_FLAGS], [PUBLISHER_ID_UINT32], s);
    ghost var flags := [NETWORK_FLAGS, PUBLISHER_ID_UINT32];
    assert [] + [NETWORK_FLAGS] + [PUBLISHER_ID_UINT32] == flags;
    q := w.View();
    s := w.WriteU32(publisherId);
    UncheckedThen(p, q, w.View(), flags, LE(publisherId, 4), s);
    q := w.View();
    s := w.WriteByte(1);
    UncheckedThen(p, q, w.View(), flags + LE(publisherId, 4), [1], s);
    q := w.View();
    s := w.WriteU16(writerId);
    UncheckedThen(p, q, w.View(), flags + LE(publisherId, 4) + [1], LE(writerId, 2), s);
    q := w.View();
    ghost var prefix := EncPrefix(publisherId, writerId);
    s := w.WriteU16(0);
    UncheckedThen(p, q, w.View(), prefix, LE(0, 2), s);
    LE2(0);
    q := w.View();
    s := w.WriteByte(VALID_VARIANT);
    UncheckedThen(p, q, w.View(), prefix + [0, 0], [VALID_VARIANT], s);
  }

  /** The writer after the first fields: what they left behind the start, or tripped. */
  ghost predicate Left(start: seq<byte>, size: nat, done: seq<Variant>, p: Pen) {
    p.capacity == size
    && if |start| > size then p.status == BadEncodingError
       else match FieldsResidue(done, size - |start|)
         case None => p.status == BadEncodingError
         case Some(b) => p == Pen(Good, start + b, size)
  }

  lemma {:induction false} ResidueAppend(fields: seq<Variant>, v: Variant, room: nat)
    ensures FieldsResidue(fields + [v], room) == match FieldsResidue(fields, room)
      case None => None
      case Some(b) => Joined(b, Residue(VariantSteps(v), room - |b|))
  {
    hide Residue, VariantSteps;
    if fields == [] {
      assert fields + [v] == [v] && [v][1..] == [];
      var r := Residue(VariantSteps(v), room);
      if r.Some? { assert r.value + [] == r.value && [] + r.value == r.value; }
    } else {
      assert (fields + [v])[0] == fields[0] && (fields + [v])[1..] == fields[1..] + [v];
      var first := Residue(VariantSteps(fields[0]), room);
      if first.Some? {
        var b, left := first.value, room - |first.value|;
        ResidueAppend(fields[1..], v, left);
        var mid := FieldsResidue(fields[1..], left);
        if mid.Some? {
          var last := Residue(VariantSteps(v), left - |mid.value|);
          if last.Some? { Regroup(b, mid.value, last.value); }
        }
      }
    }
  }

  lemma LayTripped(p: Pen, v: Variant)
    requires p.status == BadEncodingError
    ensures Lay(p, VariantSteps(v)).0 == p
  {
    hide ScalarSteps, ArraySteps;
    var steps := VariantSteps(v);
    assert steps[0].Put?;
  }

  lemma LeftStep(start: seq<byte>, size: nat, done: seq<Variant>, v: Variant, p: Pen, q: Pen, s: Status)
    requires Left(start, size, done, p) && Laid(p, q, s, VariantSteps(v))
    ensures Left(start, size, done + [v], q)
  {
    hide VariantSteps, Lay, FieldsResidue, Residue;
    if |start| <= size { ResidueAppend(done, v, size - |start|); }
    if p.status == BadEncodingError {
      LayTripped(p, v);
    } else {
      LayVariant(p, v);
      var b := FieldsResidue(done, size - |start|).value;
      var r := Residue(VariantSteps(v), p.capacity - |p.written|);
      assert p.capacity - |p.written| == size - |start| - |b|;
      if r.Some? { Regroup(start, b, r.value); }
    }
  }

  lemma LayVariant(p: Pen, v: Variant)
    requires p.Standing()
    ensures var q := Lay(p, VariantSteps(v)).0;
      q.capacity == p.capacity && match Residue(VariantSteps(v), p.capacity - |p.written|)
        case None => q.status == BadEncodingError
        case Some(b) => q == p.(written := p.written + b)
  {
    hide VariantSteps, Lay, Residue, Encodable, EncVariant;
    VariantSpelt(v);
    SpellHonest(VariantSteps(v), Encodable(v), if Encodable(v) then EncVariant(v) else []);
    LayResidue(p, VariantSteps(v));
    LayWritten(p, VariantSteps(v));
  }

  method WriteFields(w: BinaryWriter, m: Message)
    requires w.Valid() && Unchecked(Pen(Good, [], w.buffer.Length), w.View(), Start(m))
    modifies w, w.buffer
    ensures w.Valid() && Left(Start(m), w.buffer.Length, m.fields, w.View())
  {
    hide VariantSteps, LE, Start, Laid, Left, BinaryWriter.View;
    ghost var start, size := Start(m), w.buffer.Length;
    NothingLeft(start, size, w.View());
    for i := 0 to |m.fields|
      invariant w.Valid() && Left(start, size, m.fields[..i], w.View())
    {
      ghost var p := w.View();
      var s := w.WriteVariant(m.fields[i]);
      LeftStep(start, size, m.fields[..i], m.fields[i], p, w.View(), s);
      assert m.fields[..i + 1] == m.fields[..i] + [m.fields[i]];
    }
    assert m.fields[..|m.fields|] == m.fields;
  }

  lemma NothingLeft(start: seq<byte>, size: nat, p: Pen)
    requires Unchecked(Pen(Good, [], size), p, start)
    ensures Left(start, size, [], p)
  {
    assert [] + start == start && start + [] == start;
  }

  /** The encoder's status and bytes for every message and every buffer. */
  method Encode(m: Message, buffer: array<byte>) returns (s: Status, n: nat)
    modifies buffer
    ensures n <= buffer.Length && s == Encoding(m, buffer.Length).0
    ensures n == |Encoding(m, buffer.Length).1|
    ensures s == Good ==> buffer[..n] == Encoding(m, buffer.Length).1
  {
    hide FieldsResidue, LE, EncPrefix, Left, Unchecked, Sealed;
    n := 0;
    if |m.fields| > MAX_FIELDS {
      return BadTooManyOperations, n;
    }
    for i := 0 to |m.fields|
      invariant forall k :: 0 <= k < i ==> !m.fields[k].VArray?
    {
      if m.fields[i].VArray? {
        return BadNotSupported, n;
      }
    }
    var w := new BinaryWriter(buffer);
    WriteHeader(w, m.publisherId, m.writerId);
    WriteFields(w, m);
    s, n := Finish(w, m);
  }

  /** Report a tripped writer; otherwise patch the size in and report the bytes written. */
  method Finish(w: BinaryWriter, m: Message) returns (s: Status, n: nat)
    requires w.Valid() && Left(Start(m), w.buffer.Length, m.fields, w.View()) && Supported(m)
    modifies w.buffer
    ensures n <= w.buffer.Length && s == Encoding(m, w.buffer.Length).0
    ensures n == |Encoding(m, w.buffer.Length).1|
    ensures s == Good ==> w.buffer[..n] == Encoding(m, w.buffer.Length).1
  {
    hide FieldsResidue, LE, EncPrefix;
    n := 0;
    if w.status != Good {
      return w.status, n;
    }
    var size := w.position - HEADER;
    if size > 0xffff {
      return BadEncodingLimitsExceeded, n;
    }
    ghost var before := w.buffer[..w.position];
    ghost var rest := FieldsResidue(m.fields, w.buffer.Length - HEADER - 1).value;
    assert before == Start(m) + rest;
    w.buffer[HEADER - 2] := size % 256;
    w.buffer[HEADER - 1] := size / 256;
    s, n := Good, w.position;
    assert w.buffer[..n] == before[HEADER - 2 := size % 256][HEADER - 1 := size / 256];
    Patch(m, before, size);
    assert before[HEADER..] == [VALID_VARIANT] + rest;
  }

  lemma Patch(m: Message, before: seq<byte>, size: nat)
    requires Start(m) <= before && size == |before| - HEADER <= 0xffff
    ensures before[HEADER - 2 := size % 256][HEADER - 1 := size / 256]
      == EncPrefix(m.publisherId, m.writerId) + (LE(size, 2) + before[HEADER..])
  {
    hide EncPrefix;
    LE2(size);
    var prefix := EncPrefix(m.publisherId, m.writerId);
    assert before[..HEADER - 2] == prefix;
    var after := before[HEADER - 2 := size % 256][HEADER - 1 := size / 256];
    assert after == after[..HEADER - 2] + (after[HEADER - 2..HEADER] + after[HEADER..]);
  }

  // ----- The decoder

  method ReadFields(reader: BinaryReader, fields: array<Variant>) returns (s: Status, n: nat)
    requires reader.Valid() && reader.status == Good
    modifies reader, fields
    ensures n <= fields.Length
    ensures match DecodeFields(old(reader.Ahead()), [], fields.Length)
            case Accepted(vs) => s == Good && fields[..n] == vs
            case Refused(e) => s == e
  {
    hide DecVariant;
    n := 0;
    while reader.position < |reader.buffer|
      invariant reader.Valid() && reader.status == Good && n <= fields.Length
      invariant DecodeFields(reader.Ahead(), fields[..n], fields.Length) == DecodeFields(old(reader.Ahead()), [], fields.Length)
      decreases |reader.buffer| - reader.position
    {
      if n >= fields.Length || n >= MAX_FIELDS {
        return BadTooManyOperations, n;
      }
      assert reader.Ahead()[0] == reader.buffer[reader.position];
      if UnsupportedMask(reader.buffer[reader.position]) {
        return BadNotSupported, n;
      }
      ghost var ahead := reader.Ahead();
      var v;
      s, v := reader.ReadVariant();
      if s != Good {
        return BadDecodingError, n;
      }
      fields[n] := v;
      assert reader.Ahead() == ahead[DecVariant(ahead).used..];
      assert fields[..n + 1] == fields[..n] + [v];
      n := n + 1;
    }
    s := Good;
  }

  method ReadBody(bytes: seq<byte>, fields: array<Variant>) returns (s: Status, n: nat)
    modifies fields
    ensures n <= fields.Length
    ensures match DecodeBody(bytes, fields.Length)
            case Accepted(vs) => s == Good && fields[..n] == vs
            case Refused(e) => s == e
  {
    hide DecodeFields;
    n := 0;
    var reader := new BinaryReader(bytes);
    var flags;
    s, flags := reader.ReadByte();
    if s != Good { return BadDecodingError, n; }
    if flags != VALID_VARIANT { return BadNotSupported, n; }
    assert reader.Ahead() == bytes[1..];
    s, n := ReadFields(reader, fields);
  }

  method ReadEntry(reader: BinaryReader, publisherId: u32, fields: array<Variant>)
      returns (s: Status, writerId: u16, n: nat)
    requires reader.Valid() && reader.status == Good
    modifies reader, fields
    ensures n <= fields.Length
    ensures match DecodeEntry(publisherId, old(reader.Ahead()), fields.Length)
            case Accepted(m) => s == Good && writerId == m.writerId && fields[..n] == m.fields
            case Refused(e) => s == e
  {
    hide DecodeBody;
    n := 0;
    s, writerId := reader.ReadU16();
    if s != Good { return BadDecodingError, writerId, n; }
    assert reader.Ahead() == old(reader.Ahead())[2..];
    var size;
    s, size := reader.ReadU16();
    if s != Good { return BadDecodingError, writerId, n; }
    if size != |reader.buffer| - reader.position { return BadDecodingError, writerId, n; }
    assert reader.Ahead() == old(reader.Ahead())[4..];
    s, n := ReadBody(reader.buffer[reader.position..], fields);
  }

  /** The decoder accepts exactly what DecodeMessage accepts, and fills the caller's storage with its fields. */
  method Decode(buffer: seq<byte>, fields: array<Variant>)
      returns (s: Status, publisherId: u32, writerId: u16, n: nat)
    modifies fields
    ensures n <= fields.Length
    ensures match DecodeMessage(buffer, fields.Length)
            case Accepted(m) => s == Good && m == Message(publisherId, writerId, fields[..n])
            case Refused(e) => s == e
  {
    hide DecodeEntry;
    publisherId, writerId, n := 0, 0, 0;
    var reader := new BinaryReader(buffer);
    assert reader.Ahead() == buffer;
    var b;
    s, b := reader.ReadByte();
    if s != Good { return BadDecodingError, publisherId, writerId, n; }
    if b != NETWORK_FLAGS { return BadNotSupported, publisherId, writerId, n; }
    assert reader.Ahead() == buffer[1..];
    s, b := reader.ReadByte();
    if s != Good { return BadDecodingError, publisherId, writerId, n; }
    if b != PUBLISHER_ID_UINT32 { return BadNotSupported, publisherId, writerId, n; }
    ghost var sized := buffer[2..];
    assert reader.Ahead() == sized;
    s, publisherId := reader.ReadU32();
    if s != Good { return BadDecodingError, publisherId, writerId, n; }
    assert reader.Ahead() == sized[4..];
    s, b := reader.ReadByte();
    if s != Good { return BadDecodingError, publisherId, writerId, n; }
    if b != 1 { return BadNotSupported, publisherId, writerId, n; }
    assert reader.Ahead() == sized[5..];
    s, writerId, n := ReadEntry(reader, publisherId, fields);
    EntryKeepsPublisher(publisherId, sized[5..], fields.Length);
  }

  lemma EntryKeepsPublisher(publisherId: u32, s: seq<byte>, capacity: nat)
    ensures match DecodeEntry(publisherId, s, capacity)
      case Accepted(m) => m.publisherId == publisherId
      case Refused(_) => true
  {
  }

  // ----- When success means the message

  /** Decoding never takes fewer bytes than the value's own encoding. */
  lemma NodeIdTakes(s: seq<byte>)
    ensures DecNodeId(s).Ok? ==> |EncNodeId(DecNodeId(s).value)| <= DecNodeId(s).used
  {
    hide LE, FromLE;
    if |s| >= 3 && s[0] % 16 == 3 { StringTakes(s[3..]); }
  }

  lemma StringTakes(s: seq<byte>)
    ensures DecString(s).Ok? ==> |EncString(DecString(s).value)| == DecString(s).used
  {
    hide LE, FromLE, DecI32;
  }

  lemma TextsTake(m: byte, s: seq<byte>)
    ensures DecTexts(m, s).Ok? ==>
      var v := DecTexts(m, s).value;
      v.VLocalizedText? && EncodableScalar(v) && |EncIfPresent(v.locale)| + |EncIfPresent(v.text)| <= DecTexts(m, s).used
  {
    hide DecString, EncString;
    StringTakes(s);
    match DecIfPresent(m % 2 == 1, s)
    case Err(_) =>
    case Ok(locale, k) => StringTakes(s[k..]);
  }

  lemma NamedTakes(kind: byte, s: seq<byte>)
    requires 20 <= kind <= 21
    ensures DecScalar(kind, s).Ok? ==>
      var v := DecScalar(kind, s).value;
      TypeId(v) == kind && EncodableScalar(v) && |EncScalar(v)| <= DecScalar(kind, s).used
  {
    hide DecString, EncString, DecTexts, EncIfPresent, LE, FromLE, DecU16;
    if kind == 20 {
      if |s| >= 2 { StringTakes(s[2..]); }
      DecU16Takes(s);
    } else if |s| >= 1 {
      TextsTake(s[0], s[1..]);
    }
  }

  lemma DecU16Takes(s: seq<byte>)
    ensures DecU16(s).Ok? <==> |s| >= 2
  {
  }

  lemma ScalarTakes(kind: byte, s: seq<byte>)
    ensures DecScalar(kind, s).Ok? ==>
      var v := DecScalar(kind, s).value;
      !v.VArray? && TypeId(v) == kind && EncodableScalar(v) && |EncScalar(v)| <= DecScalar(kind, s).used
  {
    hide DecString, EncString, DecNodeId, EncNodeId, DecQualifiedName, DecLocalizedText, LE, FromLE, DecU16, DecU32, DecU64, DecI16, DecI32, DecI64, EncI16, EncI32, EncI64;
    if 20 <= kind <= 21 {
      NamedTakes(kind, s);
    } else {
      StringTakes(s);
      NodeIdTakes(s);
    }
  }

  lemma VariantTakes(s: seq<byte>)
    ensures DecVariant(s).Ok? ==>
      var v := DecVariant(s).value;
      !v.VArray? && EncodableScalar(v) && |EncVariant(v)| <= DecVariant(s).used
  {
    hide DecScalar, EncScalar, EncodableScalar;
    if |s| >= 1 { ScalarTakes(s[0], s[1..]); }
  }

  lemma {:induction false} FieldsTake(s: seq<byte>, decoded: seq<Variant>, capacity: nat)
    ensures match DecodeFields(s, decoded, capacity)
      case Refused(_) => true
      case Accepted(r) => decoded <= r && Scalars(r[|decoded|..]) && |EncFields(r[|decoded|..])| <= |s|
    decreases |s|
  {
    hide DecVariant, EncVariant, EncodableScalar;
    if DecodeFields(s, decoded, capacity).Accepted? {
      var r := DecodeFields(s, decoded, capacity).value;
      if s == [] {
        assert r[|decoded|..] == [];
      } else {
        VariantTakes(s);
        var v, n := DecVariant(s).value, DecVariant(s).used;
        FieldsTake(s[n..], decoded + [v], capacity);
        var rest := r[|decoded + [v]|..];
        assert r[|decoded|..] == [v] + rest;
        assert ([v] + rest)[1..] == rest;
      }
    }
  }

  lemma {:induction false} ResidueOfScalars(fields: seq<Variant>, room: nat)
    requires Scalars(fields) && |EncFields(fields)| <= room
    ensures FieldsResidue(fields, room) == Some(EncFields(fields))
  {
    hide VariantSteps, EncVariant, Residue, EncodableScalar;
    if fields != [] {
      var v := fields[0];
      assert Encodable(v);
      VariantSpelt(v);
      ResidueWhole(VariantSteps(v), room);
      ResidueOfScalars(fields[1..], room - |EncVariant(v)|);
    }
  }

  /**
   A message the encoder reports as encoded is read back as itself exactly if
   it was complete. Any other success is a message with bytes missing.
   */
  lemma ReadBackExactlyIfComplete(m: Message, size: nat, capacity: nat)
    requires Encoding(m, size).0 == Good && |m.fields| <= capacity
    ensures DecodeMessage(Encoding(m, size).1, capacity) == Accepted(m) <==> Complete(m, size)
  {
    hide FieldsResidue, LE, EncPrefix, DecodeMessage, DecodeFields, EncFields;
    var rest := FieldsResidue(m.fields, size - HEADER - 1).value;
    var body := [VALID_VARIANT] + rest;
    assert body[1..] == rest;
    EnvelopeRoundTrip(m.publisherId, m.writerId, body, capacity);
    if Complete(m, size) {
      ResidueOfScalars(m.fields, size - HEADER - 1);
      MessageRoundTrip(m, capacity);
    } else {
      FieldsTake(rest, [], capacity);
      assert m.fields[0..] == m.fields;
    }
  }

  /** A complete message is encoded as the format says. */
  lemma CompleteIsEncoded(m: Message, size: nat)
    requires Supported(m) && Complete(m, size)
    ensures Encoding(m, size) == (Good, EncMessage(m))
  {
    hide FieldsResidue, LE, EncPrefix, EncFields;
    ResidueOfScalars(m.fields, size - HEADER - 1);
  }

  /** The field has no encoding, or more bytes than there is room for. */
  predicate Loses(v: Variant, room: nat) {
    !Encodable(v) || |EncVariant(v)| > room
  }

  /** Field i loses bytes where it starts. */
  predicate LosesAt(fields: seq<Variant>, room: nat, i: nat)
    requires i < |fields|
  {
    var before := FieldsResidue(fields[..i], room);
    before.Some? && Loses(fields[i], room - |before.value|)
  }

  lemma {:induction false} EncFieldsAppend(fields: seq<Variant>, v: Variant)
    requires Scalars(fields) && !v.VArray? && EncodableScalar(v)
    ensures Scalars(fields + [v]) && EncFields(fields + [v]) == EncFields(fields) + EncVariant(v)
  {
    hide EncVariant, EncodableScalar;
    if fields == [] {
      assert [] + [v] == [v] && [v][1..] == [];
      assert EncFields([v]) == EncVariant(v) + EncFields([v][1..]);
      assert EncVariant(v) + [] == EncVariant(v);
    } else {
      assert (fields + [v])[0] == fields[0] && (fields + [v])[1..] == fields[1..] + [v];
      EncFieldsAppend(fields[1..], v);
      Regroup(EncVariant(fields[0]), EncFields(fields[1..]), EncVariant(v));
    }
  }

  lemma {:induction false} NothingLost(fields: seq<Variant>, room: nat, n: nat)
    requires n <= |fields| && forall i :: 0 <= i < |fields| ==> !fields[i].VArray?
    requires forall i :: 0 <= i < n ==> !LosesAt(fields, room, i)
    ensures Scalars(fields[..n]) && |EncFields(fields[..n])| <= room
    ensures FieldsResidue(fields[..n], room) == Some(EncFields(fields[..n]))
  {
    hide FieldsResidue, VariantSteps, EncVariant, EncodableScalar, EncFields, Residue;
    if n == 0 {
      NoFields(room);
      assert fields[..0] == [] && EncFields(fields[..0]) == [] by { NoEncoding(); }
    } else {
      var before, v := fields[..n - 1], fields[n - 1];
      NothingLost(fields, room, n - 1);
      assert !LosesAt(fields, room, n - 1);
      var left := room - |EncFields(before)|;
      VariantSpelt(v);
      ResidueWhole(VariantSteps(v), left);
      ResidueAppend(before, v, room);
      EncFieldsAppend(before, v);
      assert fields[..n] == before + [v];
    }
  }

  lemma NoEncoding()
    ensures EncFields([]) == []
  {
  }

  predicate SomeLost(fields: seq<Variant>, room: nat) {
    exists i :: 0 <= i < |fields| && LosesAt(fields, room, i)
  }

  /** Success without a complete message means that some field was cut short where it starts, or left out. */
  lemma SilentLoss(m: Message, size: nat)
    requires Encoding(m, size).0 == Good
    ensures !Complete(m, size) <==> SomeLost(m.fields, size - HEADER - 1)
  {
    hide FieldsResidue, LE, EncPrefix, EncFields, LosesAt, EncVariant;
    var room := size - HEADER - 1;
    if Complete(m, size) {
      forall i | 0 <= i < |m.fields| ensures !LosesAt(m.fields, room, i) { KeptWhole(m.fields, room, i); }
    } else if !SomeLost(m.fields, room) {
      NoneLost(m, size);
    }
  }

  lemma NoneLost(m: Message, size: nat)
    requires Encoding(m, size).0 == Good && !SomeLost(m.fields, size - HEADER - 1)
    ensures Complete(m, size)
  {
    hide FieldsResidue, LE, EncPrefix, EncFields, LosesAt, EncVariant;
    NothingLost(m.fields, size - HEADER - 1, |m.fields|);
    assert m.fields[..|m.fields|] == m.fields;
  }

  lemma KeptWhole(fields: seq<Variant>, room: nat, i: nat)
    requires i < |fields| && Scalars(fields) && |EncFields(fields)| <= room
    ensures !LosesAt(fields, room, i)
  {
    hide FieldsResidue, EncVariant, EncodableScalar;
    var before, v := fields[..i], fields[i];
    PrefixShorter(fields, i + 1);
    assert fields[..i + 1] == before + [v];
    assert Scalars(before);
    EncFieldsAppend(before, v);
    ResidueOfScalars(before, room);
  }

  lemma {:induction false} PrefixShorter(fields: seq<Variant>, n: nat)
    requires n <= |fields| && Scalars(fields)
    ensures Scalars(fields[..n]) && |EncFields(fields[..n])| <= |EncFields(fields)|
  {
    hide EncVariant, EncodableScalar;
    if n == 0 {
      assert fields[..0] == [];
    } else {
      PrefixShorter(fields[1..], n - 1);
      assert fields[..n][1..] == fields[1..][..n - 1];
    }
  }

  /** A string that is too long leaves its type byte, and four Nulls after it make up the length of an empty string. */
  lemma AnotherMessageIsAccepted(publisherId: u32, writerId: u16, text: seq<byte>, size: nat, capacity: nat)
    requires |text| > MAX_STRING && size >= 17 && capacity >= 1
    ensures var m := Message(publisherId, writerId, [VString(UaString.Bytes(text)), VNull, VNull, VNull, VNull]);
      Encoding(m, size).0 == Good && |Encoding(m, size).1| == 17
      && DecodeMessage(Encoding(m, size).1, capacity) == Accepted(Message(publisherId, writerId, [VString(UaString.Bytes([]))]))
  {
    hide EncPrefix, LE, DecodeMessage, FieldsResidue, DecodeBody;
    var m := Message(publisherId, writerId, [VString(UaString.Bytes(text)), VNull, VNull, VNull, VNull]);
    DamagedLeaves(text, size - HEADER - 1);
    var body := [VALID_VARIANT] + ([12] + [0, 0, 0, 0]);
    EnvelopeRoundTrip(publisherId, writerId, body, capacity);
    EmptyStringBody(capacity);
  }

  lemma DamagedLeaves(text: seq<byte>, room: nat)
    requires |text| > MAX_STRING && room >= 5
    ensures FieldsResidue([VString(UaString.Bytes(text)), VNull, VNull, VNull, VNull], room) == Some([12] + [0, 0, 0, 0])
  {
    hide VariantSteps, Residue;
    var fields := [VString(UaString.Bytes(text)), VNull, VNull, VNull, VNull];
    TooLongLeaves(text, room);
    assert fields[1..] == [VNull, VNull, VNull, VNull];
    NullsLeave(room - 1);
  }

  lemma TooLongLeaves(text: seq<byte>, room: nat)
    requires |text| > MAX_STRING && room >= 1
    ensures Residue(VariantSteps(VString(UaString.Bytes(text))), room) == Some([12])
  {
    var steps := VariantSteps(VString(UaString.Bytes(text)));
    assert steps == [Put([12]), Refuse(BadEncodingLimitsExceeded)];
    assert steps[1..] == [Refuse(BadEncodingLimitsExceeded)];
    assert Residue(steps[1..], room - 1) == Some([]);
    assert [12] + [] == [12];
  }

  lemma NullLeaves(room: nat)
    requires room >= 1
    ensures Residue(VariantSteps(VNull), room) == Some([0])
  {
    assert VariantSteps(VNull) == [Put([0])];
    assert [Put([0])][1..] == [];
    assert [0] + [] == [0];
  }

  lemma NullThen(rest: seq<Variant>, room: nat)
    requires room >= 1
    ensures FieldsResidue([VNull] + rest, room) == Joined([0], FieldsResidue(rest, room - 1))
  {
    hide Residue, VariantSteps;
    NullLeaves(room);
    assert ([VNull] + rest)[1..] == rest;
  }

  lemma NullsLeave(room: nat)
    requires room >= 4
    ensures FieldsResidue([VNull, VNull, VNull, VNull], room) == Some([0, 0, 0, 0])
  {
    hide FieldsResidue;
    NullThen([VNull, VNull, VNull], room);
    NullThen([VNull, VNull], room - 1);
    NullThen([VNull], room - 2);
    NullThen([], room - 3);
    assert [VNull] + [] == [VNull] && [VNull] + [VNull] == [VNull, VNull];
    assert [VNull] + [VNull, VNull] == [VNull, VNull, VNull] && [VNull] + [VNull, VNull, VNull] == [VNull, VNull, VNull, VNull];
    NoFields(room - 4);
    assert [0] + ([0] + ([0] + ([0] + []))) == [0, 0, 0, 0];
  }

  lemma NoFields(room: nat)
    ensures FieldsResidue([], room) == Some([])
  {
  }

  lemma EmptyStringBody(capacity: nat)
    requires capacity >= 1
    ensures DecodeBody([VALID_VARIANT] + ([12] + [0, 0, 0, 0]), capacity) == Accepted([VString(UaString.Bytes([]))])
  {
    hide LE, FromLE;
    var s: seq<byte> := [12, 0, 0, 0, 0];
    assert ([VALID_VARIANT] + ([12] + [0, 0, 0, 0]))[1..] == s;
    ZeroLength();
    assert s[1..] == [0, 0, 0, 0] == EncI32(0) + [];
    I32RoundTrip(0, []);
    assert s[1..][4..4] == [];
    assert DecVariant(s) == Ok(VString(UaString.Bytes([])), 5);
    assert s[5..] == [] && [] + [VString(UaString.Bytes([]))] == [VString(UaString.Bytes([]))];
    assert DecodeFields(s, [], capacity) == DecodeFields(s[5..], [] + [VString(UaString.Bytes([]))], capacity);
  }

  lemma ZeroLength()
    ensures EncI32(0) == [0, 0, 0, 0]
  {
    LE4(0);
  }

  /** Its inverse: characters that do not fit leave a length without them, and that the decoder refuses. */
  lemma OverrunIsRefused(publisherId: u32, writerId: u16, text: seq<byte>, size: nat, capacity: nat)
    requires |text| <= MAX_STRING && 17 <= size < 17 + |text| && capacity >= 1
    ensures var m := Message(publisherId, writerId, [VString(UaString.Bytes(text))]);
      Encoding(m, size).0 == Good && DecodeMessage(Encoding(m, size).1, capacity) == Refused(BadDecodingError)
  {
    hide EncPrefix, LE, DecodeMessage, EncI32, VariantSteps, Residue, DecodeBody;
    var m := Message(publisherId, writerId, [VString(UaString.Bytes(text))]);
    var room := size - HEADER - 1;
    OverrunLeaves(text, room);
    Length4(|text|);
    assert m.fields[1..] == [];
    var left := [12] + EncI32(|text|);
    assert left + [] == left;
    assert FieldsResidue(m.fields, room) == Some(left);
    OverrunBody(|text|, capacity);
    assert [VALID_VARIANT] + left == [VALID_VARIANT, 12] + EncI32(|text|);
    EnvelopeRoundTrip(publisherId, writerId, [VALID_VARIANT] + left, capacity);
  }

  lemma OverrunLeaves(text: seq<byte>, room: nat)
    requires |text| <= MAX_STRING && 5 <= room < 5 + |text|
    ensures Residue(VariantSteps(VString(UaString.Bytes(text))), room) == Some([12] + EncI32(|text|))
  {
    hide EncI32;
    var e := EncI32(|text|);
    var steps := VariantSteps(VString(UaString.Bytes(text)));
    assert steps == [Put([12]), Put(e), Payload(text)];
    assert steps[1..] == [Put(e), Payload(text)] && steps[1..][1..] == [Payload(text)];
    Length4(|text|);
    assert Residue([Payload(text)], room - 5) == Some([]);
    assert e + [] == e;
    assert Residue(steps[1..], room - 1) == Some(e);
  }

  lemma Length4(v: i32)
    ensures |EncI32(v)| == 4
  {
  }

  lemma OverrunBody(length: nat, capacity: nat)
    requires 0 < length <= MAX_STRING && capacity > 0
    ensures DecodeBody([VALID_VARIANT, 12] + EncI32(length), capacity) == Refused(BadDecodingError)
  {
    hide LE;
    var field := [12] + EncI32(length);
    assert field[1..] == EncI32(length) && EncI32(length) + [] == EncI32(length);
    I32RoundTrip(length, []);
    assert DecVariant(field) == Err(BadDecodingError);
    assert ([VALID_VARIANT, 12] + EncI32(length))[1..] == field;
  }
}
