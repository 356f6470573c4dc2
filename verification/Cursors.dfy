/**
 The bounds-checked cursors of src/encoding: a writer that fills a fixed buffer
 and a reader that walks one, each with a sticky status. Every write is proved
 to lay down exactly the steps of Steps.dfy, failures included, and every read
 to return what the function of Codec.dfy makes of the bytes.
 */
module Cursors {
  import opened Types
  import opened Wire
  import opened Codec
  import opened Steps

  class BinaryWriter {
    const buffer: array<byte>
    var position: nat
    var status: Status

    ghost predicate Valid()
      reads this
    {
      position <= buffer.Length
    }

    ghost function View(): (p: Pen)
      requires Valid()
      reads this, buffer
      ensures p.status == status && |p.written| == position && p.capacity == buffer.Length
    {
      Pen(status, buffer[..position], buffer.Length)
    }

    constructor (buffer: array<byte>)
      ensures Valid() && this.buffer == buffer
      ensures View() == Pen(Good, [], buffer.Length)
    {
      this.buffer := buffer;
      position := 0;
      status := Good;
    }

    method EnsureSpace(count: nat) returns (s: Status)
      requires Valid()
      modifies this`status
      ensures s == Good <==> old(status) == Good && position + count <= buffer.Length
      ensures status == s
      ensures old(status) != Good ==> s == old(status)
      ensures s != Good && old(status) == Good ==> s == BadEncodingError
    {
      if status == Good && count <= buffer.Length - position {
        return Good;
      }
      if status != Good {
        return status;
      }
      status := BadEncodingError;
      return BadEncodingError;
    }

    method WriteByte(v: byte) returns (s: Status)
      requires Valid()
      modifies this, buffer
      ensures Valid() && Laid(old(View()), View(), s, [Put([v])])
    {
      LayOne(View(), Put([v]));
      s := EnsureSpace(1);
      if s != Good { return; }
      buffer[position] := v;
      position := position + 1;
      assert buffer[..position] == old(buffer[..position]) + [v];
    }

    method WriteBoolean(b: bool) returns (s: Status)
      requires Valid()
      modifies this, buffer
      ensures Valid() && Laid(old(View()), View(), s, [Put([if b then 1 else 0])])
    {
      s := WriteByte(if b then 1 else 0);
    }

    method WriteU16(v: u16) returns (s: Status)
      requires Valid()
      modifies this, buffer
      ensures Valid() && Laid(old(View()), View(), s, [Put(LE(v, 2))])
    {
      hide LE;
      LayOne(View(), Put(LE(v, 2)));
      s := EnsureSpace(2);
      if s != Good { return; }
      buffer[position] := v % 256;
      buffer[position + 1] := v / 256;
      LE2(v);
      position := position + 2;
      assert buffer[..position] == old(buffer[..position]) + [v % 256, v / 256];
    }

    method WriteU32(v: u32) returns (s: Status)
      requires Valid()
      modifies this, buffer
      ensures Valid() && Laid(old(View()), View(), s, [Put(LE(v, 4))])
    {
      hide LE;
      LayOne(View(), Put(LE(v, 4)));
      s := EnsureSpace(4);
      if s != Good { return; }
      PutU32(v, position);
      position := position + 4;
    }

    /** mu_binary_le_put_u32 into the buffer at a given place. */
    method PutU32(v: nat, at: nat)
      requires at + 4 <= buffer.Length
      modifies buffer
      ensures buffer[..] == old(buffer[..at]) + LE(v, 4) + old(buffer[at + 4..])
    {
      buffer[at] := v % 256;
      buffer[at + 1] := Shift(v, 1) % 256;
      buffer[at + 2] := Shift(v, 2) % 256;
      buffer[at + 3] := Shift(v, 3) % 256;
      LE4(v);
    }

    method WriteU64(v: u64) returns (s: Status)
      requires Valid()
      modifies this, buffer
      ensures Valid() && Laid(old(View()), View(), s, [Put(LE(v, 8))])
    {
      hide LE, Shift;
      LayOne(View(), Put(LE(v, 8)));
      s := EnsureSpace(8);
      if s != Good { return; }
      PutU32(v, position);
      PutU32(Shift(v, 4), position + 4);
      LE8(v);
      assert buffer[..position + 8] == old(buffer[..position]) + (LE(v, 4) + LE(Shift(v, 4), 4));
      position := position + 8;
    }

    method WriteI16(v: i16) returns (s: Status)
      requires Valid()
      modifies this, buffer
      ensures Valid() && Laid(old(View()), View(), s, [Put(EncI16(v))])
    {
      hide LE, Laid;
      s := WriteU16(ToUnsigned(v, TWO16));
    }

    method WriteI32(v: i32) returns (s: Status)
      requires Valid()
      modifies this, buffer
      ensures Valid() && Laid(old(View()), View(), s, [Put(EncI32(v))])
    {
      hide LE, Laid;
      s := WriteU32(ToUnsigned(v, TWO32));
    }

    method WriteI64(v: i64) returns (s: Status)
      requires Valid()
      modifies this, buffer
      ensures Valid() && Laid(old(View()), View(), s, [Put(EncI64(v))])
    {
      hide LE, Laid;
      s := WriteU64(ToUnsigned(v, TWO64));
    }

    /**
     A payload that does not fit is an error, but the sticky status is not set:
     the length alone stays behind in a writer that still reports success.
     */
    method WriteString(v: UaString) returns (s: Status)
      requires Valid()
      modifies this, buffer
      ensures Valid() && Laid(old(View()), View(), s, StringSteps(v))
    {
      hide EncI32, Laid, BinaryWriter.View;
      ghost var p := View();
      if v.Null? {
        s := WriteI32(-1);
        return;
      }
      if |v.bytes| > MAX_STRING {
        s := BadEncodingLimitsExceeded;
        LaidRefused(p, s);
        return;
      }
      s := WriteI32(|v.bytes|);
      ghost var q, t := View(), s;
      if s == Good {
        s := WritePayload(v.bytes);
      }
      LaidThen(p, q, View(), [Put(EncI32(|v.bytes|))], t, if v.bytes == [] then [] else [Payload(v.bytes)], s);
    }

    /** The characters of a string, checked against the room but not through EnsureSpace. */
    method WritePayload(bytes: seq<byte>) returns (s: Status)
      requires Valid()
      modifies this`position, buffer
      ensures Valid() && Laid(old(View()), View(), s, if bytes == [] then [] else [Payload(bytes)])
    {
      if |bytes| > 0 {
        LayOne(View(), Payload(bytes));
        if position + |bytes| > buffer.Length {
          return BadEncodingError;
        }
        CopyBytes(bytes);
      }
      return Good;
    }

    /** memcpy to the cursor, then advance it. */
    method CopyBytes(bytes: seq<byte>)
      requires Valid() && position + |bytes| <= buffer.Length
      modifies this`position, buffer
      ensures Valid() && View() == old(View()).(written := old(View()).written + bytes)
    {
      forall i | 0 <= i < |bytes| {
        buffer[position + i] := bytes[i];
      }
      position := position + |bytes|;
      assert buffer[..position] == old(buffer[..position]) + bytes;
    }

    method WriteNodeId(n: NodeId) returns (s: Status)
      requires Valid()
      modifies this, buffer
      ensures Valid() && Laid(old(View()), View(), s, NodeIdSteps(n))
    {
      hide Laid, LE, StringSteps;
      match n
      case Numeric(ns, id) => s := WriteNumericId(ns, id);
      case StringId(ns, name) =>
        ghost var p := View();
        s := WriteMaskAndNamespace(0x03, ns);
        ghost var q, t := View(), s;
        if s == Good { s := WriteString(name); }
        LaidThen(p, q, View(), [Put([0x03]), Put(LE(ns, 2))], t, StringSteps(name), s);
      case _ =>
        s := BadEncodingError;
        LaidRefused(View(), s);
    }

    method WriteNumericId(ns: u16, id: u32) returns (s: Status)
      requires Valid()
      modifies this, buffer
      ensures Valid() && Laid(old(View()), View(), s, NodeIdSteps(Numeric(ns, id)))
    {
      hide Laid, LE;
      ghost var p := View();
      if ns == 0 && id <= 255 {
        s := WriteByte(0x00);
        ghost var q, t := View(), s;
        if s == Good { s := WriteByte(id); }
        LaidThen(p, q, View(), [Put([0x00])], t, [Put([id])], s);
        assert [Put([0x00])] + [Put([id])] == NodeIdSteps(Numeric(ns, id));
      } else if ns <= 255 && id <= 65535 {
        s := WriteByte(0x01);
        ghost var q, t := View(), s;
        if s == Good { s := WriteByte(ns); }
        LaidThen(p, q, View(), [Put([0x01])], t, [Put([ns])], s);
        q, t := View(), s;
        if s == Good { s := WriteU16(id); }
        LaidThen(p, q, View(), [Put([0x01])] + [Put([ns])], t, [Put(LE(id, 2))], s);
        assert [Put([0x01])] + [Put([ns])] + [Put(LE(id, 2))] == NodeIdSteps(Numeric(ns, id));
      } else {
        s := WriteMaskAndNamespace(0x02, ns);
        ghost var q, t := View(), s;
        if s == Good { s := WriteU32(id); }
        LaidThen(p, q, View(), [Put([0x02]), Put(LE(ns, 2))], t, [Put(LE(id, 4))], s);
        assert [Put([0x02]), Put(LE(ns, 2))] + [Put(LE(id, 4))] == NodeIdSteps(Numeric(ns, id));
      }
    }

    method WriteMaskAndNamespace(mask: byte, ns: u16) returns (s: Status)
      requires Valid()
      modifies this, buffer
      ensures Valid() && Laid(old(View()), View(), s, [Put([mask]), Put(LE(ns, 2))])
    {
      hide Laid, LE;
      ghost var p := View();
      s := WriteByte(mask);
      ghost var q, t := View(), s;
      if s == Good { s := WriteU16(ns); }
      LaidThen(p, q, View(), [Put([mask])], t, [Put(LE(ns, 2))], s);
      assert [Put([mask])] + [Put(LE(ns, 2))] == [Put([mask]), Put(LE(ns, 2))];
    }

    method WriteQualifiedName(ns: u16, name: UaString) returns (s: Status)
      requires Valid()
      modifies this, buffer
      ensures Valid() && Laid(old(View()), View(), s, QualifiedNameSteps(ns, name))
    {
      hide Laid, LE, StringSteps;
      ghost var p := View();
      s := WriteU16(ns);
      ghost var q, t := View(), s;
      if s == Good { s := WriteString(name); }
      LaidThen(p, q, View(), [Put(LE(ns, 2))], t, StringSteps(name), s);
    }

    method WriteLocalizedText(locale: UaString, text: UaString) returns (s: Status)
      requires Valid()
      modifies this, buffer
      ensures Valid() && Laid(old(View()), View(), s, LocalizedTextSteps(locale, text))
    {
      hide Laid, LocalizedTextMask, TextSteps;
      var mask: byte := LocalizedTextMask(locale, text);
      ghost var p := View();
      s := WriteByte(mask);
      ghost var q, t := View(), s;
      if s == Good { s := WriteTexts(mask, locale, text); }
      LaidThen(p, q, View(), [Put([mask])], t, TextSteps(locale) + TextSteps(text), s);
    }

    method WriteTexts(mask: byte, locale: UaString, text: UaString) returns (s: Status)
      requires Valid() && mask == LocalizedTextMask(locale, text)
      modifies this, buffer
      ensures Valid() && Laid(old(View()), View(), s, TextSteps(locale) + TextSteps(text))
    {
      hide Laid, StringSteps;
      ghost var p := View();
      LaidNothing(p);
      s := Good;
      if mask % 2 == 1 { s := WriteString(locale); }
      ghost var q, t := View(), s;
      LaidNothing(q);
      if s == Good && mask / 2 % 2 == 1 { s := WriteString(text); }
      LaidThen(p, q, View(), TextSteps(locale), t, TextSteps(text), s);
    }

    /** write_scalar_value: one built-in value without its type byte. */
    method WriteScalar(v: Variant) returns (s: Status)
      requires Valid()
      modifies this, buffer
      ensures Valid() && Laid(old(View()), View(), s, ScalarSteps(v))
    {
      hide Laid, LE, StringSteps, NodeIdSteps, QualifiedNameSteps, LocalizedTextSteps, EncI16, EncI32, EncI64, BinaryWriter.View;
      match v
      case VBoolean(b) => s := WriteBoolean(b);
      case VSByte(x) => s := WriteByte(ToUnsigned(x, TWO8));
      case VByte(x) => s := WriteByte(x);
      case VInt16(x) => s := WriteI16(x);
      case VUInt16(x) => s := WriteU16(x);
      case VInt32(x) => s := WriteI32(x);
      case VUInt32(x) => s := WriteU32(x);
      case VInt64(x) => s := WriteI64(x);
      case VUInt64(x) => s := WriteU64(x);
      case VFloat(x) => s := WriteU32(x);
      case VDouble(x) => s := WriteU64(x);
      case VString(x) => s := WriteString(x);
      case VDateTime(x) => s := WriteI64(x);
      case VByteString(x) => s := WriteString(x);
      case VNodeId(x) => s := WriteNodeId(x);
      case VStatusCode(x) => s := WriteU32(x);
      case VQualifiedName(ns, name) => s := WriteQualifiedName(ns, name);
      case VLocalizedText(locale, text) => s := WriteLocalizedText(locale, text);
      case _ =>
        s := BadEncodingError;
        LaidRefused(View(), s);
    }

    method WriteVariant(v: Variant) returns (s: Status)
      requires Valid()
      modifies this, buffer
      ensures Valid() && Laid(old(View()), View(), s, VariantSteps(v))
    {
      hide Laid, ScalarSteps, ArraySteps;
      ghost var p := View();
      if v.VArray? {
        s := WriteByte(v.kind + 128);
        ghost var q, t := View(), s;
        if s == Good { s := WriteArray(v.kind, v.length, v.elements); }
        LaidThen(p, q, View(), [Put([v.kind + 128])], t, ArraySteps(v.kind, v.length, v.elements), s);
        return;
      }
      s := WriteByte(TypeId(v));
      ghost var q, t := View(), s;
      LaidNothing(q);
      if s == Good && !v.VNull? { s := WriteScalar(v); }
      LaidThen(p, q, View(), [Put([TypeId(v)])], t, if v.VNull? then [] else ScalarSteps(v), s);
    }

    /** The array branch of the Variant writer after its type byte. */
    method WriteArray(kind: typeId, length: i32, elements: Option<seq<Variant>>) returns (s: Status)
      requires Valid()
      modifies this, buffer
      ensures Valid() && Laid(old(View()), View(), s, ArraySteps(kind, length, elements))
    {
      hide Laid, EncI32, ElementSteps;
      ghost var p := View();
      LaidNothing(p);
      if kind == 0 {
        return Good;
      }
      s := WriteI32(length);
      ghost var q, t := View(), s;
      LaidNothing(q);
      ghost var rest :=
        if NullArray(kind, length, elements) then []
        else if !SizedKind(kind) then [Refuse(BadEncodingError)]
        else ElementSteps(elements.value);
      if s == Good && !(length < 0 || elements.None?) {
        if !SizedKind(kind) {
          s := BadEncodingError;
          LaidRefused(q, s);
        } else {
          s := WriteElements(elements.value);
        }
      }
      LaidThen(p, q, View(), [Put(EncI32(length))], t, rest, s);
    }

    method WriteElements(es: seq<Variant>) returns (s: Status)
      requires Valid()
      modifies this, buffer
      ensures Valid() && Laid(old(View()), View(), s, ElementSteps(es))
    {
      hide Laid, ScalarSteps;
      ghost var p := View();
      LaidNothing(p);
      s := Good;
      for i := 0 to |es|
        invariant Valid() && s == Good && Laid(p, View(), Good, ElementSteps(es[..i]))
      {
        ghost var q := View();
        s := WriteScalar(es[i]);
        LaidThen(p, q, View(), ElementSteps(es[..i]), Good, ScalarSteps(es[i]), s);
        assert es[..i + 1][..i] == es[..i];
        if s != Good {
          ElementsAfter(es, i + 1);
          LaidThen(p, View(), View(), ElementSteps(es[..i + 1]), s, ElementSteps(es)[|ElementSteps(es[..i + 1])|..], s);
          return;
        }
      }
      assert es[..|es|] == es;
    }

    /** The mask is built from the fields present, and no picoseconds are ever written. */
    method WriteDataValue(d: DataValue) returns (s: Status)
      requires Valid()
      modifies this, buffer
      ensures Valid() && Laid(old(View()), View(), s, DataValueSteps(d))
    {
      hide Laid, ValueSteps, StatusAndTimeSteps;
      var mask := 0;
      if d.value.Some? { mask := mask + 1; }
      if d.status.Some? { mask := mask + 2; }
      if d.sourceTimestamp.Some? { mask := mask + 4; }
      if d.serverTimestamp.Some? { mask := mask + 8; }
      ghost var p := View();
      s := WriteByte(mask);
      ghost var q, t := View(), s;
      if s == Good { s := WriteFields(d); }
      LaidThen(p, q, View(), [Put([mask])], t, ValueSteps(d.value) + StatusAndTimeSteps(d), s);
    }

    method WriteFields(d: DataValue) returns (s: Status)
      requires Valid()
      modifies this, buffer
      ensures Valid() && Laid(old(View()), View(), s, ValueSteps(d.value) + StatusAndTimeSteps(d))
    {
      hide Laid, VariantSteps, StatusAndTimeSteps;
      ghost var p := View();
      LaidNothing(p);
      s := Good;
      if d.value.Some? { s := WriteVariant(d.value.value); }
      ghost var q, t := View(), s;
      if s == Good { s := WriteStatusAndTimes(d); }
      LaidThen(p, q, View(), ValueSteps(d.value), t, StatusAndTimeSteps(d), s);
    }

    method WriteStatusAndTimes(d: DataValue) returns (s: Status)
      requires Valid()
      modifies this, buffer
      ensures Valid() && Laid(old(View()), View(), s, StatusAndTimeSteps(d))
    {
      hide Laid, LE, EncI64;
      ghost var p := View();
      LaidNothing(p);
      s := Good;
      if d.status.Some? { s := WriteU32(d.status.value); }
      ghost var q, t := View(), s;
      if s == Good { s := WriteTimes(d); }
      LaidThen(p, q, View(), if d.status.Some? then [Put(LE(d.status.value, 4))] else [], t, TimeSteps(d.sourceTimestamp) + TimeSteps(d.serverTimestamp), s);
    }

    method WriteTimes(d: DataValue) returns (s: Status)
      requires Valid()
      modifies this, buffer
      ensures Valid() && Laid(old(View()), View(), s, TimeSteps(d.sourceTimestamp) + TimeSteps(d.serverTimestamp))
    {
      hide Laid, EncI64;
      ghost var p := View();
      LaidNothing(p);
      s := Good;
      if d.sourceTimestamp.Some? { s := WriteI64(d.sourceTimestamp.value); }
      ghost var q, t := View(), s;
      LaidNothing(q);
      if s == Good && d.serverTimestamp.Some? { s := WriteI64(d.serverTimestamp.value); }
      LaidThen(p, q, View(), TimeSteps(d.sourceTimestamp), t, TimeSteps(d.serverTimestamp), s);
    }
  }

  lemma LaidRefused(p: Pen, s: Status)
    requires s != Good
    ensures Laid(p, p, s, [Refuse(s)])
  {
    LayOne(p, Refuse(s));
  }

  /** The steps of some elements are those of the first ones, and more. */
  lemma {:induction false} ElementsAfter(es: seq<Variant>, n: nat)
    requires n <= |es|
    ensures |ElementSteps(es[..n])| <= |ElementSteps(es)|
    ensures ElementSteps(es) == ElementSteps(es[..n]) + ElementSteps(es)[|ElementSteps(es[..n])|..]
  {
    hide ScalarSteps;
    if n == |es| {
      assert es[..n] == es;
    } else {
      var m := |es| - 1;
      assert es[..m][..n] == es[..n];
      ElementsAfter(es[..m], n);
    }
  }

  class BinaryReader {
    const buffer: seq<byte>
    var position: nat
    var status: Status

    ghost predicate Valid()
      reads this
    {
      position <= |buffer|
    }

    /** The bytes not read yet. */
    ghost function Ahead(): (s: seq<byte>)
      requires Valid()
      reads this
    {
      buffer[position..]
    }

    constructor (buffer: seq<byte>)
      ensures Valid() && this.buffer == buffer
      ensures position == 0 && status == Good
    {
      this.buffer := buffer;
      position := 0;
      status := Good;
    }

    /**
     What a read does, given what the bytes ahead decode to: on a reader whose
     status is good it returns that value and moves past exactly its bytes, or
     returns the decoder's error; a reader that has failed stays where it is.
     */
    twostate predicate Read<T>(new d: Decoded<T>, s: Status, new v: T)
      requires old(Valid())
      reads this
    {
      Valid() && old(position) <= position
      && (old(status) != Good ==> s == old(status) == status && position == old(position))
      && (old(status) == Good ==> (s == Good <==> d.Ok?))
      && (s == Good ==> v == d.value && position == old(position) + d.used && status == Good)
      && (old(status) == Good && d.Err? ==> s == d.status != Good)
    }

    method EnsureBytes(count: nat) returns (s: Status)
      requires Valid()
      modifies this`status
      ensures s == Good <==> old(status) == Good && position + count <= |buffer|
      ensures status == s
      ensures old(status) != Good ==> s == old(status)
      ensures s != Good && old(status) == Good ==> s == BadDecodingError
    {
      if status == Good && count <= |buffer| - position {
        return Good;
      }
      if status != Good {
        return status;
      }
      status := BadDecodingError;
      return BadDecodingError;
    }

    method ReadByte() returns (s: Status, v: byte)
      requires Valid()
      modifies this
      ensures Read(DecU8(old(Ahead())), s, v)
    {
      v := 0;
      s := EnsureBytes(1);
      if s != Good { return; }
      v := buffer[position];
      position := position + 1;
    }

    method ReadU16() returns (s: Status, v: u16)
      requires Valid()
      modifies this
      ensures Read(DecU16(old(Ahead())), s, v)
    {
      v := 0;
      s := EnsureBytes(2);
      if s != Good { return; }
      Pow256Values();
      v := FromLE(buffer[position..position + 2]);
      assert buffer[position..position + 2] == Ahead()[..2];
      position := position + 2;
    }

    method ReadU32() returns (s: Status, v: u32)
      requires Valid()
      modifies this
      ensures Read(DecU32(old(Ahead())), s, v)
    {
      v := 0;
      s := EnsureBytes(4);
      if s != Good { return; }
      Pow256Values();
      v := FromLE(buffer[position..position + 4]);
      assert buffer[position..position + 4] == Ahead()[..4];
      position := position + 4;
    }

    method ReadU64() returns (s: Status, v: u64)
      requires Valid()
      modifies this
      ensures Read(DecU64(old(Ahead())), s, v)
    {
      v := 0;
      s := EnsureBytes(8);
      if s != Good { return; }
      Pow256Values();
      v := FromLE(buffer[position..position + 8]);
      assert buffer[position..position + 8] == Ahead()[..8];
      position := position + 8;
    }

    method ReadI16() returns (s: Status, v: i16)
      requires Valid()
      modifies this
      ensures Read(DecI16(old(Ahead())), s, v)
    {
      var u;
      s, u := ReadU16();
      v := ToSigned(u, TWO16);
    }

    method ReadI32() returns (s: Status, v: i32)
      requires Valid()
      modifies this
      ensures Read(DecI32(old(Ahead())), s, v)
    {
      var u;
      s, u := ReadU32();
      v := ToSigned(u, TWO32);
    }

    method ReadI64() returns (s: Status, v: i64)
      requires Valid()
      modifies this
      ensures Read(DecI64(old(Ahead())), s, v)
    {
      var u;
      s, u := ReadU64();
      v := ToSigned(u, TWO64);
    }

    method ReadString() returns (s: Status, v: UaString)
      requires Valid()
      modifies this
      ensures Read(DecString(old(Ahead())), s, v)
    {
      v := Null;
      var length;
      s, length := ReadI32();
      if s != Good { return; }
      if length == -1 { return; }
      if length < 0 { return BadDecodingError, v; }
      if length > MAX_STRING { return BadEncodingLimitsExceeded, v; }
      if length > |buffer| - position {
        status := BadDecodingError;
        return BadDecodingError, v;
      }
      v := Bytes(buffer[position..position + length]);
      assert buffer[position..position + length] == old(Ahead())[4..4 + length];
      position := position + length;
    }

    method ReadNodeId() returns (s: Status, v: NodeId)
      requires Valid()
      modifies this
      ensures Read(DecNodeId(old(Ahead())), s, v)
    {
      v := Numeric(0, 0);
      var mask;
      s, mask := ReadByte();
      if s != Good { return; }
      assert Ahead() == old(Ahead())[1..];
      if mask % 16 == 0 {
        var id;
        s, id := ReadByte();
        v := Numeric(0, id);
      } else if mask % 16 == 1 {
        var ns, id;
        s, ns := ReadByte();
        if s != Good { return; }
        assert Ahead() == old(Ahead())[2..];
        s, id := ReadU16();
        v := Numeric(ns, id);
      } else if mask % 16 == 2 {
        var ns, id;
        s, ns := ReadU16();
        if s != Good { return; }
        assert Ahead() == old(Ahead())[3..];
        s, id := ReadU32();
        v := Numeric(ns, id);
      } else if mask % 16 == 3 {
        var ns, name;
        s, ns := ReadU16();
        if s != Good { return; }
        assert Ahead() == old(Ahead())[3..];
        s, name := ReadString();
        v := StringId(ns, name);
      } else {
        s := BadDecodingError;
      }
    }

    method ReadQualifiedName() returns (s: Status, v: Variant)
      requires Valid()
      modifies this
      ensures Read(DecQualifiedName(old(Ahead())), s, v)
    {
      v := VNull;
      var ns, name;
      s, ns := ReadU16();
      if s != Good { return; }
      assert Ahead() == old(Ahead())[2..];
      s, name := ReadString();
      v := VQualifiedName(ns, name);
    }

    method ReadIfPresent(present: bool) returns (s: Status, v: UaString)
      requires Valid() && status == Good
      modifies this
      ensures Read(DecIfPresent(present, old(Ahead())), s, v)
    {
      s, v := Good, Null;
      if present {
        s, v := ReadString();
      }
    }

    method ReadLocalizedText() returns (s: Status, v: Variant)
      requires Valid()
      modifies this
      ensures Read(DecLocalizedText(old(Ahead())), s, v)
    {
      v := VNull;
      var mask;
      s, mask := ReadByte();
      if s != Good { return; }
      assert Ahead() == old(Ahead())[1..];
      s, v := ReadTexts(mask);
    }

    method ReadTexts(mask: byte) returns (s: Status, v: Variant)
      requires Valid() && status == Good
      modifies this
      ensures Read(DecTexts(mask, old(Ahead())), s, v)
    {
      v := VNull;
      var locale, text;
      s, locale := ReadIfPresent(mask % 2 == 1);
      if s != Good { return; }
      assert Ahead() == old(Ahead())[position - old(position)..];
      s, text := ReadIfPresent(mask / 2 % 2 == 1);
      v := VLocalizedText(locale, text);
    }

    /** The switch of the Variant reader, on the type already read from the mask. */
    method ReadScalar(kind: byte) returns (s: Status, v: Variant)
      requires Valid() && status == Good
      modifies this
      ensures Read(DecScalar(kind, old(Ahead())), s, v)
    {
      s, v := Good, VNull;
      match kind
      case 0 =>
      case 1 => var x; s, x := ReadByte(); v := VBoolean(x != 0);
      case 2 => var x; s, x := ReadByte(); v := VSByte(ToSigned(x, TWO8));
      case 3 => var x; s, x := ReadByte(); v := VByte(x);
      case 4 => var x; s, x := ReadI16(); v := VInt16(x);
      case 5 => var x; s, x := ReadU16(); v := VUInt16(x);
      case 6 => var x; s, x := ReadI32(); v := VInt32(x);
      case 7 => var x; s, x := ReadU32(); v := VUInt32(x);
      case 8 => var x; s, x := ReadI64(); v := VInt64(x);
      case 9 => var x; s, x := ReadU64(); v := VUInt64(x);
      case 10 => var x; s, x := ReadU32(); v := VFloat(x);
      case 11 => var x; s, x := ReadU64(); v := VDouble(x);
      case 12 => var x; s, x := ReadString(); v := VString(x);
      case 13 => var x; s, x := ReadI64(); v := VDateTime(x);
      case 15 => var x; s, x := ReadString(); v := VByteString(x);
      case 17 => var x; s, x := ReadNodeId(); v := VNodeId(x);
      case 19 => var x; s, x := ReadU32(); v := VStatusCode(x);
      case 20 => s, v := ReadQualifiedName();
      case 21 => s, v := ReadLocalizedText();
      case _ => s := BadDecodingError;
    }

    method ReadVariant() returns (s: Status, v: Variant)
      requires Valid()
      modifies this
      ensures Read(DecVariant(old(Ahead())), s, v)
    {
      v := VNull;
      var mask;
      s, mask := ReadByte();
      if s != Good { return; }
      if mask >= 64 { return BadDecodingError, v; }
      assert Ahead() == old(Ahead())[1..];
      s, v := ReadScalar(mask);
    }

    method ReadDataValue() returns (s: Status, v: DataValue)
      requires Valid()
      modifies this
      ensures Read(DecDataValue(old(Ahead())), s, v)
    {
      v := DataValue(None, None, None, None);
      var mask;
      s, mask := ReadByte();
      if s != Good { return; }
      assert Ahead() == old(Ahead())[1..];
      s, v := ReadFields(mask);
    }

    method ReadFields(mask: byte) returns (s: Status, v: DataValue)
      requires Valid() && status == Good
      modifies this
      ensures Read(DecFields(mask, old(Ahead())), s, v)
    {
      hide DecVariant, DecOpt, DecStatusAndTimes, Bit;
      v := DataValue(None, None, None, None);
      var value;
      ghost var ahead := Ahead();
      s, value := ReadOptVariant(Bit(mask, 1));
      FieldsInTwo(mask, ahead);
      if s != Good { return; }
      ghost var n := position - old(position);
      assert Ahead() == ahead[n..];
      s, v := ReadStatusAndTimes(mask, value);
    }

    method ReadOptVariant(present: bool) returns (s: Status, v: Option<Variant>)
      requires Valid() && status == Good
      modifies this
      ensures Read(DecOpt(present, DecVariant(old(Ahead()))), s, v)
    {
      s, v := Good, None;
      if present {
        var value;
        s, value := ReadVariant();
        v := Some(value);
      }
    }

    method ReadStatusAndTimes(mask: byte, value: Option<Variant>) returns (s: Status, v: DataValue)
      requires Valid() && status == Good
      modifies this
      ensures Read(DecStatusAndTimes(mask, value, old(Ahead())), s, v)
    {
      v := DataValue(value, None, None, None);
      s := Good;
      if Bit(mask, 2) {
        var code;
        s, code := ReadU32();
        if s != Good { return; }
        v := v.(status := Some(code));
      }
      assert Ahead() == old(Ahead())[position - old(position)..];
      var times;
      s, times := ReadTimes(mask);
      v := v.(sourceTimestamp := times.0, serverTimestamp := times.1);
    }

    method ReadTimes(mask: byte) returns (s: Status, v: (Option<i64>, Option<i64>))
      requires Valid() && status == Good
      modifies this
      ensures Read(DecTimes(mask, old(Ahead())), s, v)
    {
      v := (None, None);
      var source, server;
      s, source := ReadTimestamp(mask, 4, 16);
      if s != Good { return; }
      assert Ahead() == old(Ahead())[position - old(position)..];
      s, server := ReadTimestamp(mask, 8, 32);
      v := (source, server);
    }

    /** A timestamp, then the picoseconds that are read and dropped. */
    method ReadTimestamp(mask: byte, time: nat, pico: nat) returns (s: Status, v: Option<i64>)
      requires Valid() && status == Good && time > 0 && pico > 0
      modifies this
      ensures Read(DecTimestamp(mask, time, pico, old(Ahead())), s, v)
    {
      hide DecI64, DecU16, Bit;
      s, v := Good, None;
      if Bit(mask, time) {
        var t;
        s, t := ReadI64();
        if s != Good { return; }
        v := Some(t);
      }
      assert Ahead() == old(Ahead())[position - old(position)..];
      if Bit(mask, pico) {
        var p;
        s, p := ReadU16();
      }
    }
  }

  lemma FieldsInTwo(mask: byte, s: seq<byte>)
    ensures var value := DecOpt(Bit(mask, 1), DecVariant(s));
      match value
      case Err(e) => DecFields(mask, s) == Err(e)
      case Ok(v, n) => n <= |s| && DecFields(mask, s) == DecStatusAndTimes(mask, v, s[n..]).After(n)
  {
  }

  lemma Regroup(a: seq<byte>, b: seq<byte>, c: seq<byte>)
    ensures (a + b) + c == a + (b + c)
  {
  }
}
