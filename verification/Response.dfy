/**
 The PublishResponse (section 5.14.5 of OPC 10000-4): its bytes, and the builder
 that lays them down in a fixed buffer and remembers where the
 NotificationMessage starts and ends.
 */
module Responses {
  import opened Types
  import opened Wire
  import opened Codec
  import opened Steps
  import opened Cursors
  import opened Ledgers
  import opened Items
  import opened Selection
  import opened Notifications
  import opened Publishing

  const MAX_PUBLISH_ACKS: nat := 4

  /** Result, empty diagnostics, no string table, no additional header. */
  function HeaderTail(result: u32): (r: seq<byte>) {
    LE(result, 4) + [0] + EncI32(-1) + (EncNodeId(Numeric(0, 0)) + [0])
  }

  function ResponseHeader(kind: u32, handle: u32, result: u32): (r: seq<byte>) {
    EncNodeId(Numeric(0, kind)) + EncI64(0) + LE(handle, 4) + HeaderTail(result)
  }

  /** The notices can be sent at all, whatever the size of the buffer. */
  predicate Sendable(ns: seq<Notice>) {
    |ns| < 0x8000_0000 && AllEncodable(ns) && |DataChangeBody(ns)| < 0x8000_0000
  }

  /** The NotificationMessage: sequence number, publish time, and at most one DataChangeNotification. */
  function Message(number: u32, time: i64, ns: seq<Notice>): (r: seq<byte>)
    requires Sendable(ns)
  {
    MessageHeader(number, time, ns) + if ns == [] then [] else DataChange(ns)
  }

  function MessageHeader(number: u32, time: i64, ns: seq<Notice>): (r: seq<byte>) {
    LE(number, 4) + EncI64(time) + EncI32(if ns == [] then 0 else 1)
  }

  function EncAcks(acks: seq<u32>): (r: seq<byte>) {
    if acks == [] then [] else EncAcks(acks[..|acks| - 1]) + LE(acks[|acks| - 1], 4)
  }

  function Prelude(handle: u32, sub: u32, more: bool): (r: seq<byte>) {
    ResponseHeader(PUBLISH_RESPONSE, handle, 0) + LE(sub, 4) + EncI32(0) + [if more then 1 else 0]
  }

  function Trailer(acks: seq<u32>): (r: seq<byte>)
    requires |acks| < 0x8000_0000
  {
    EncI32(|acks|) + EncAcks(acks) + EncI32(0)
  }

  function Response(handle: u32, sub: u32, more: bool, message: seq<byte>, acks: seq<u32>): (r: seq<byte>)
    requires |acks| < 0x8000_0000
  {
    Prelude(handle, sub, more) + message + Trailer(acks)
  }

  // ----- The steps it is written in

  function NullExtensionSteps(): (r: seq<Step>) {
    NodeIdSteps(Numeric(0, 0)) + [Put([0])]
  }

  function HeaderTailSteps(result: u32): (r: seq<Step>) {
    [Put(LE(result, 4))] + [Put([0])] + [Put(EncI32(-1))] + NullExtensionSteps()
  }

  function ResponseHeaderSteps(kind: u32, handle: u32, result: u32): (r: seq<Step>) {
    NodeIdSteps(Numeric(0, kind)) + [Put(EncI64(0))] + [Put(LE(handle, 4))] + HeaderTailSteps(result)
  }

  function PreludeSteps(handle: u32, sub: u32, more: bool): (r: seq<Step>) {
    ResponseHeaderSteps(PUBLISH_RESPONSE, handle, 0) + [Put(LE(sub, 4))] + [Put(EncI32(0))] + [Put([if more then 1 else 0])]
  }

  function MessageHeaderSteps(number: u32, time: i64, ns: seq<Notice>): (r: seq<Step>) {
    [Put(LE(number, 4))] + [Put(EncI64(time))] + [Put(EncI32(if ns == [] then 0 else 1))]
  }

  function MessageSteps(number: u32, time: i64, ns: seq<Notice>): (r: seq<Step>)
    requires |ns| < 0x8000_0000
  {
    MessageHeaderSteps(number, time, ns) + if ns == [] then [] else DataChangeSteps(ns)
  }

  function AckSteps(acks: seq<u32>): (r: seq<Step>) {
    if acks == [] then [] else AckSteps(acks[..|acks| - 1]) + [Put(LE(acks[|acks| - 1], 4))]
  }

  function TrailerSteps(acks: seq<u32>): (r: seq<Step>)
    requires |acks| < 0x8000_0000
  {
    [Put(EncI32(|acks|))] + AckSteps(acks) + [Put(EncI32(0))]
  }

  lemma HeaderTailSpelt(result: u32)
    ensures Spell(HeaderTailSteps(result), true, HeaderTail(result))
  {
    hide Spell, LE, EncI32, NodeIdSteps, EncNodeId;
    NodeIdSpelt(Numeric(0, 0));
    SpellPut([0]);
    SpellConcat(NodeIdSteps(Numeric(0, 0)), [Put([0])], true, true, EncNodeId(Numeric(0, 0)), [0]);
    var r, n := LE(result, 4), EncI32(-1);
    SpellPut(r);
    SpellPut(n);
    SpellConcat([Put(r)], [Put([0])], true, true, r, [0]);
    SpellConcat([Put(r)] + [Put([0])], [Put(n)], true, true, r + [0], n);
    SpellConcat([Put(r)] + [Put([0])] + [Put(n)], NullExtensionSteps(), true, true, r + [0] + n, EncNodeId(Numeric(0, 0)) + [0]);
  }

  lemma ResponseHeaderSpelt(kind: u32, handle: u32, result: u32)
    ensures Spell(ResponseHeaderSteps(kind, handle, result), true, ResponseHeader(kind, handle, result))
  {
    hide Spell, LE, EncI64, NodeIdSteps, EncNodeId, HeaderTailSteps, HeaderTail;
    var id := Numeric(0, kind);
    var e, z, h := EncNodeId(id), EncI64(0), LE(handle, 4);
    NodeIdSpelt(id);
    SpellPut(z);
    SpellPut(h);
    HeaderTailSpelt(result);
    SpellConcat(NodeIdSteps(id), [Put(z)], true, true, e, z);
    SpellConcat(NodeIdSteps(id) + [Put(z)], [Put(h)], true, true, e + z, h);
    SpellConcat(NodeIdSteps(id) + [Put(z)] + [Put(h)], HeaderTailSteps(result), true, true, e + z + h, HeaderTail(result));
  }

  lemma PreludeSpelt(handle: u32, sub: u32, more: bool)
    ensures Spell(PreludeSteps(handle, sub, more), true, Prelude(handle, sub, more))
  {
    hide Spell, LE, EncI32, ResponseHeaderSteps, ResponseHeader;
    var steps, h := ResponseHeaderSteps(PUBLISH_RESPONSE, handle, 0), ResponseHeader(PUBLISH_RESPONSE, handle, 0);
    var a, b, c: seq<byte> := LE(sub, 4), EncI32(0), [if more then 1 else 0];
    ResponseHeaderSpelt(PUBLISH_RESPONSE, handle, 0);
    SpellPut(a);
    SpellPut(b);
    SpellPut(c);
    SpellConcat(steps, [Put(a)], true, true, h, a);
    SpellConcat(steps + [Put(a)], [Put(b)], true, true, h + a, b);
    SpellConcat(steps + [Put(a)] + [Put(b)], [Put(c)], true, true, h + a + b, c);
  }

  lemma MessageHeaderSpelt(number: u32, time: i64, ns: seq<Notice>)
    ensures Spell(MessageHeaderSteps(number, time, ns), true, MessageHeader(number, time, ns))
  {
    hide Spell, LE, EncI32, EncI64;
    var a, b, c := LE(number, 4), EncI64(time), EncI32(if ns == [] then 0 else 1);
    SpellPut(a);
    SpellPut(b);
    SpellPut(c);
    SpellConcat([Put(a)], [Put(b)], true, true, a, b);
    SpellConcat([Put(a)] + [Put(b)], [Put(c)], true, true, a + b, c);
  }

  lemma {:induction false} AcksSpelt(acks: seq<u32>)
    ensures Spell(AckSteps(acks), true, EncAcks(acks))
  {
    hide Spell, LE;
    if acks == [] {
      SpellNothing();
    } else {
      var n := |acks| - 1;
      AcksSpelt(acks[..n]);
      SpellPut(LE(acks[n], 4));
      SpellConcat(AckSteps(acks[..n]), [Put(LE(acks[n], 4))], true, true, EncAcks(acks[..n]), LE(acks[n], 4));
    }
  }

  lemma TrailerSpelt(acks: seq<u32>)
    requires |acks| < 0x8000_0000
    ensures Spell(TrailerSteps(acks), true, Trailer(acks))
  {
    hide Spell, EncI32, AckSteps, EncAcks;
    var n, z := EncI32(|acks|), EncI32(0);
    SpellPut(n);
    SpellPut(z);
    AcksSpelt(acks);
    SpellConcat([Put(n)], AckSteps(acks), true, true, n, EncAcks(acks));
    SpellConcat([Put(n)] + AckSteps(acks), [Put(z)], true, true, n + EncAcks(acks), z);
  }

  /** The message's bytes before the length is patched in. */
  function Draft(number: u32, time: i64, ns: seq<Notice>): (r: seq<byte>)
    requires |ns| < 0x8000_0000 && AllEncodable(ns)
  {
    MessageHeader(number, time, ns) + if ns == [] then [] else Unpatched(ns)
  }

  lemma MessageSpelt(number: u32, time: i64, ns: seq<Notice>)
    requires |ns| < 0x8000_0000
    ensures Spell(MessageSteps(number, time, ns), AllEncodable(ns), if AllEncodable(ns) then Draft(number, time, ns) else [])
  {
    hide Spell, MessageHeaderSteps, MessageHeader, DataChangeSteps, Unpatched, AllEncodable;
    var h := MessageHeader(number, time, ns);
    MessageHeaderSpelt(number, time, ns);
    if ns == [] {
      SpellNothing();
      SpellConcat(MessageHeaderSteps(number, time, ns), [], true, true, h, []);
      assert AllEncodable(ns) by { NoneToEncode(); }
    } else {
      var ok := AllEncodable(ns);
      var x := if ok then Unpatched(ns) else [];
      DataChangeSpelt(ns);
      SpellConcat(MessageHeaderSteps(number, time, ns), DataChangeSteps(ns), true, ok, h, x);
      RefusedBytes(MessageSteps(number, time, ns), ok, h + x);
    }
  }

  lemma NoneToEncode()
    ensures AllEncodable([])
  {
  }

  lemma DraftLength(number: u32, time: i64, ns: seq<Notice>)
    requires Sendable(ns)
    ensures |Draft(number, time, ns)| == |Message(number, time, ns)|
  {
    hide MessageHeader, DataChangeBody, DataChangeHeader, AllEncodable, EncI32;
    if ns != [] {
      Length32(0);
      Length32(|DataChangeBody(ns)|);
    }
  }

  // ----- Building it

  /** mu_response_header_encode after the type id. */
  method WriteHeaderTail(w: BinaryWriter, result: u32) returns (s: Status)
    requires w.Valid()
    modifies w, w.buffer
    ensures w.Valid() && Laid(old(w.View()), w.View(), s, HeaderTailSteps(result))
  {
    hide Laid, NullExtensionSteps, EncI32, LE, BinaryWriter.View;
    ghost var a, b, c: seq<Step> := [Put(LE(result, 4))], [Put([0])], [Put(EncI32(-1))];
    ghost var p := w.View();
    s := w.WriteU32(result);
    ghost var q, t := w.View(), s;
    if s == Good { s := w.WriteByte(0); }
    LaidThen(p, q, w.View(), a, t, b, s);
    q, t := w.View(), s;
    if s == Good { s := w.WriteI32(-1); }
    LaidThen(p, q, w.View(), a + b, t, c, s);
    q, t := w.View(), s;
    if s == Good { s := WriteNullExtension(w); }
    LaidThen(p, q, w.View(), a + b + c, t, NullExtensionSteps(), s);
  }

  method WriteNullExtension(w: BinaryWriter) returns (s: Status)
    requires w.Valid()
    modifies w, w.buffer
    ensures w.Valid() && Laid(old(w.View()), w.View(), s, NullExtensionSteps())
  {
    hide Laid, NodeIdSteps, BinaryWriter.View;
    ghost var p := w.View();
    s := w.WriteNodeId(Numeric(0, 0));
    ghost var q, t := w.View(), s;
    if s == Good { s := w.WriteByte(0); }
    LaidThen(p, q, w.View(), NodeIdSteps(Numeric(0, 0)), t, [Put([0])], s);
  }

  method WriteResponseHeader(w: BinaryWriter, kind: u32, handle: u32, result: u32) returns (s: Status)
    requires w.Valid()
    modifies w, w.buffer
    ensures w.Valid() && Laid(old(w.View()), w.View(), s, ResponseHeaderSteps(kind, handle, result))
  {
    hide Laid, NodeIdSteps, EncI64, LE, HeaderTailSteps, BinaryWriter.View;
    ghost var a, b, c: seq<Step> := NodeIdSteps(Numeric(0, kind)), [Put(EncI64(0))], [Put(LE(handle, 4))];
    ghost var p := w.View();
    s := w.WriteNodeId(Numeric(0, kind));
    ghost var q, t := w.View(), s;
    if s == Good { s := w.WriteI64(0); }
    LaidThen(p, q, w.View(), a, t, b, s);
    q, t := w.View(), s;
    if s == Good { s := w.WriteU32(handle); }
    LaidThen(p, q, w.View(), a + b, t, c, s);
    q, t := w.View(), s;
    if s == Good { s := WriteHeaderTail(w, result); }
    LaidThen(p, q, w.View(), a + b + c, t, HeaderTailSteps(result), s);
  }

  method WritePrelude(w: BinaryWriter, handle: u32, sub: u32, more: bool) returns (s: Status)
    requires w.Valid()
    modifies w, w.buffer
    ensures w.Valid() && Laid(old(w.View()), w.View(), s, PreludeSteps(handle, sub, more))
  {
    hide Laid, EncI32, LE, ResponseHeaderSteps, BinaryWriter.View;
    ghost var a, b, c: seq<Step> := ResponseHeaderSteps(PUBLISH_RESPONSE, handle, 0), [Put(LE(sub, 4))], [Put(EncI32(0))];
    ghost var p := w.View();
    s := WriteResponseHeader(w, PUBLISH_RESPONSE, handle, 0);
    ghost var q, t := w.View(), s;
    if s == Good { s := w.WriteU32(sub); }
    LaidThen(p, q, w.View(), a, t, b, s);
    q, t := w.View(), s;
    if s == Good { s := w.WriteI32(0); }
    LaidThen(p, q, w.View(), a + b, t, c, s);
    q, t := w.View(), s;
    if s == Good { s := w.WriteBoolean(more); }
    LaidThen(p, q, w.View(), a + b + c, t, [Put([if more then 1 else 0])], s);
  }

  method WriteMessageHeader(w: BinaryWriter, number: u32, time: i64, data: bool, ghost ns: seq<Notice>) returns (s: Status)
    requires w.Valid() && (data <==> ns != [])
    modifies w, w.buffer
    ensures w.Valid() && Laid(old(w.View()), w.View(), s, MessageHeaderSteps(number, time, ns))
  {
    hide Laid, EncI32, EncI64, LE, BinaryWriter.View;
    var parts: i32 := 0;
    if data { parts := parts + 1; }
    ghost var p := w.View();
    s := w.WriteU32(number);
    ghost var q, t := w.View(), s;
    if s == Good { s := w.WriteI64(time); }
    LaidThen(p, q, w.View(), [Put(LE(number, 4))], t, [Put(EncI64(time))], s);
    q, t := w.View(), s;
    if s == Good { s := w.WriteI32(parts); }
    LaidThen(p, q, w.View(), [Put(LE(number, 4))] + [Put(EncI64(time))], t, [Put(EncI32(parts))], s);
  }

  /** What writing a message does, in the sense of Publishing.Changed. */
  ghost predicate Messaged(p: Pen, q: Pen, number: u32, time: i64, ns: seq<Notice>, s: Status)
    requires |ns| < 0x8000_0000
  {
    var laid := Lay(p, MessageSteps(number, time, ns));
    if laid.1 != Good then (q, s) == laid
    else if Sendable(ns) then s == Good && q == p.(written := p.written + Message(number, time, ns))
    else s == BadResponseTooLarge && q == laid.0
  }

  /** The message for the first `count` selected entries, or for none. */
  method WriteMessage(w: BinaryWriter, items: seq<MonitoredItem>, sub: u32, number: u32, time: i64, count: i32) returns (s: Status)
    requires w.Valid() && Rings(items) && 0 <= count <= |Selected(ViewsOf(items), sub)|
    modifies w, w.buffer
    ensures w.Valid() && Messaged(old(w.View()), w.View(), number, time, Prefix(Selected(ViewsOf(items), sub), count), s)
  {
    hide Laid, ViewsOf, ViewOf, Rings, BinaryWriter.View, Selected, MessageHeaderSteps, Messaged, Changed;
    ghost var vs := ViewsOf(items);
    ghost var ns := Prefix(Selected(vs, sub), count);
    ghost var p := w.View();
    s := WriteMessageHeader(w, number, time, count > 0, ns);
    ghost var q, t := w.View(), s;
    assert ViewsOf(items) == vs;
    if s == Good && count > 0 {
      s := WriteDataChange(w, items, sub, count);
      assert ViewsOf(items) == vs;
    }
    MessagedInTwo(p, q, w.View(), number, time, ns, t, s);
  }

  lemma MessagedInTwo(p: Pen, q: Pen, r: Pen, number: u32, time: i64, ns: seq<Notice>, t: Status, s: Status)
    requires |ns| < 0x8000_0000 && |p.written| <= p.capacity
    requires Laid(p, q, t, MessageHeaderSteps(number, time, ns))
    requires if t == Good && ns != [] then Changed(q, r, ns, s) else r == q && s == t
    ensures Messaged(p, r, number, time, ns, s)
  {
    hide Lay, MessageHeader, DataChange, AllEncodable, DataChangeBody, DataChangeSteps;
    var h := MessageHeader(number, time, ns);
    assert MessageHeaderSteps(number, time, ns)[0].Put?;
    var steps := MessageHeaderSteps(number, time, ns);
    if t == Good {
      StandsIfGood(p, steps);
      MessageHeaderSpelt(number, time, ns);
      LayClean(p, steps);
    }
    hide MessageHeaderSteps;
    LayConcat(p, steps, if ns == [] then [] else DataChangeSteps(ns));
    if ns == [] {
      LaidNothing(q);
      NothingIsSendable(ns);
      assert h + [] == h;
    } else if t == Good && Sendable(ns) {
      Regroup(p.written, h, DataChange(ns));
    }
  }

  lemma NothingIsSendable(ns: seq<Notice>)
    ensures ns == [] ==> Sendable(ns)
  {
    hide EncI32;
    Length32(0);
  }

  method WriteAcks(w: BinaryWriter, acks: seq<u32>) returns (s: Status)
    requires w.Valid()
    modifies w, w.buffer
    ensures w.Valid() && Laid(old(w.View()), w.View(), s, AckSteps(acks))
  {
    hide Laid, LE, BinaryWriter.View;
    ghost var p := w.View();
    LaidNothing(p);
    s := Good;
    for i := 0 to |acks|
      invariant w.Valid() && s == Good && Laid(p, w.View(), Good, AckSteps(acks[..i]))
    {
      ghost var q := w.View();
      s := w.WriteU32(acks[i]);
      LaidThen(p, q, w.View(), AckSteps(acks[..i]), Good, [Put(LE(acks[i], 4))], s);
      assert acks[..i + 1][..i] == acks[..i];
      if s != Good {
        AckStepsSplit(acks[..i + 1], acks[i + 1..]);
        assert acks == acks[..i + 1] + acks[i + 1..];
        LaidThen(p, w.View(), w.View(), AckSteps(acks[..i + 1]), s, AckSteps(acks[i + 1..]), s);
        return;
      }
    }
    assert acks[..|acks|] == acks;
  }

  lemma {:induction false} AckStepsSplit(a: seq<u32>, b: seq<u32>)
    ensures AckSteps(a + b) == AckSteps(a) + AckSteps(b)
  {
    hide LE;
    if b == [] {
      assert a + b == a;
    } else {
      assert (a + b)[..|a + b| - 1] == a + b[..|b| - 1];
      AckStepsSplit(a, b[..|b| - 1]);
      RegroupSteps(AckSteps(a), AckSteps(b[..|b| - 1]), [Put(LE(b[|b| - 1], 4))]);
    }
  }

  method WriteTrailer(w: BinaryWriter, acks: seq<u32>) returns (s: Status)
    requires w.Valid() && |acks| < 0x8000_0000
    modifies w, w.buffer
    ensures w.Valid() && Laid(old(w.View()), w.View(), s, TrailerSteps(acks))
  {
    hide Laid, EncI32, AckSteps, BinaryWriter.View;
    ghost var p := w.View();
    s := w.WriteI32(|acks|);
    ghost var q, t := w.View(), s;
    if s == Good { s := WriteAcks(w, acks); }
    LaidThen(p, q, w.View(), [Put(EncI32(|acks|))], t, AckSteps(acks), s);
    q, t := w.View(), s;
    if s == Good { s := w.WriteI32(0); }
    LaidThen(p, q, w.View(), [Put(EncI32(|acks|))] + AckSteps(acks), t, [Put(EncI32(0))], s);
  }

  /** What a PublishResponse is made from, but for its entries. */
  datatype Cover = Cover(handle: u32, sub: u32, more: bool, number: u32, time: i64, acks: seq<u32>)

  /** The answer about these entries. */
  function Answer(c: Cover, ns: seq<Notice>): (r: seq<byte>)
    requires Sendable(ns)
  {
    Response(c.handle, c.sub, c.more, Message(c.number, c.time, ns), Prefix(c.acks, MAX_PUBLISH_ACKS))
  }

  function AnswerSteps(c: Cover, ns: seq<Notice>): (r: seq<Step>)
    requires |ns| < 0x8000_0000
  {
    PreludeSteps(c.handle, c.sub, c.more) + MessageSteps(c.number, c.time, ns) + TrailerSteps(Prefix(c.acks, MAX_PUBLISH_ACKS))
  }

  /** The status with which building the answer ends. */
  function BuildStatus(c: Cover, ns: seq<Notice>, capacity: nat): (r: Status)
    requires |ns| < 0x8000_0000
  {
    var p := Pen(Good, [], capacity);
    if !Sendable(ns) && Lay(p, PreludeSteps(c.handle, c.sub, c.more) + MessageSteps(c.number, c.time, ns)).1 == Good
    then BadResponseTooLarge
    else Lay(p, AnswerSteps(c, ns)).1
  }

  /** The bytes of the answer, with the message between start and end. */
  ghost predicate Built(c: Cover, ns: seq<Notice>, z: Pen, s: Status, start: nat, end: nat)
    requires |ns| < 0x8000_0000
  {
    s == BuildStatus(c, ns, z.capacity)
    && (s == Good ==>
          && Sendable(ns) && z.written == Answer(c, ns)
          && start <= end <= |z.written| && z.written[start..end] == Message(c.number, c.time, ns))
  }

  /** The three parts one after the other, remembering where the message lies. */
  method WriteResponse(w: BinaryWriter, items: seq<MonitoredItem>, c: Cover, count: i32) returns (s: Status, start: nat, end: nat)
    requires w.Valid() && w.View() == Pen(Good, [], w.buffer.Length)
    requires Rings(items) && 0 <= count <= |Selected(ViewsOf(items), c.sub)|
    modifies w, w.buffer
    ensures w.Valid() && Built(c, Prefix(Selected(ViewsOf(items), c.sub), count), w.View(), s, start, end)
  {
    hide Laid, ViewsOf, ViewOf, Rings, Selected, PreludeSteps, TrailerSteps, Messaged, BinaryWriter.View, Built;
    ghost var vs := ViewsOf(items);
    ghost var ns := Prefix(Selected(vs, c.sub), count);
    var acks := if |c.acks| > MAX_PUBLISH_ACKS then c.acks[..MAX_PUBLISH_ACKS] else c.acks;
    ghost var p := w.View();
    s := WritePrelude(w, c.handle, c.sub, c.more);
    assert ViewsOf(items) == vs;
    ghost var q, t := w.View(), s;
    start := w.position;
    if s == Good {
      s := WriteMessage(w, items, c.sub, c.number, c.time, count);
      assert ViewsOf(items) == vs;
    }
    end := w.position;
    ghost var q1, t1 := w.View(), s;
    if s == Good {
      s := WriteTrailer(w, acks);
      assert ViewsOf(items) == vs;
    }
    InThree(c, ns, p, q, q1, w.View(), t, t1, s);
  }

  lemma InThree(c: Cover, ns: seq<Notice>, p: Pen, q: Pen, r: Pen, z: Pen, t: Status, t1: Status, s: Status)
    requires |ns| < 0x8000_0000 && p == Pen(Good, [], z.capacity)
    requires Laid(p, q, t, PreludeSteps(c.handle, c.sub, c.more))
    requires if t == Good then Messaged(q, r, c.number, c.time, ns, t1) else r == q && t1 == t
    requires if t1 == Good then Laid(r, z, s, TrailerSteps(Prefix(c.acks, MAX_PUBLISH_ACKS))) else z == r && s == t1
    ensures Built(c, ns, z, s, |q.written|, |r.written|)
  {
    hide Lay, PreludeSteps, MessageSteps, TrailerSteps, Sendable, Message, Prelude, Trailer;
    var a, b, d := PreludeSteps(c.handle, c.sub, c.more), MessageSteps(c.number, c.time, ns), TrailerSteps(Prefix(c.acks, MAX_PUBLISH_ACKS));
    LayConcat(p, a, b);
    LayConcat(p, a + b, d);
    if t == Good {
      PreludeSpelt(c.handle, c.sub, c.more);
      LayClean(p, a);
      if t1 == Good {
        TrailerStatus(c, ns, q, r, z, s);
        assert q.written == [] + Prelude(c.handle, c.sub, c.more);
        Between(Prelude(c.handle, c.sub, c.more), Message(c.number, c.time, ns), Trailer(Prefix(c.acks, MAX_PUBLISH_ACKS)));
      }
    }
  }

  lemma Between(a: seq<byte>, b: seq<byte>, c: seq<byte>)
    ensures [] + a == a && (a + b + c)[|a|..|a + b|] == b
  {
  }

  /** The trailer goes after the patched message exactly as it would after the draft, which is as long. */
  lemma TrailerStatus(c: Cover, ns: seq<Notice>, q: Pen, r: Pen, z: Pen, s: Status)
    requires |ns| < 0x8000_0000 && q.Standing() && Messaged(q, r, c.number, c.time, ns, Good)
    requires Laid(r, z, s, TrailerSteps(Prefix(c.acks, MAX_PUBLISH_ACKS)))
    ensures Sendable(ns) && Lay(q, MessageSteps(c.number, c.time, ns)).1 == Good
    ensures r == q.(written := q.written + Message(c.number, c.time, ns))
    ensures s == Lay(Lay(q, MessageSteps(c.number, c.time, ns)).0, TrailerSteps(Prefix(c.acks, MAX_PUBLISH_ACKS))).1
    ensures s == Good ==> z == r.(written := r.written + Trailer(Prefix(c.acks, MAX_PUBLISH_ACKS)))
  {
    hide Lay, MessageSteps, TrailerSteps, Message, Trailer, Draft, AllEncodable, Lead, Reason;
    var m, d := MessageSteps(c.number, c.time, ns), TrailerSteps(Prefix(c.acks, MAX_PUBLISH_ACKS));
    var laid := Lay(q, m);
    MessageSpelt(c.number, c.time, ns);
    LayClean(q, m);
    DraftLength(c.number, c.time, ns);
    TrailerSpelt(Prefix(c.acks, MAX_PUBLISH_ACKS));
    LayClean(r, d);
    LayClean(laid.0, d);
  }

  lemma SliceOfPrefix(s: seq<byte>, start: nat, end: nat, length: nat)
    requires start <= end <= length <= |s|
    ensures s[..length][start..end] == s[start..end]
  {
  }

  /** build_publish_response: the answer and where its message lies, or the status of the first write that failed. */
  method BuildResponse(items: seq<MonitoredItem>, c: Cover, count: i32, buffer: array<byte>)
    returns (s: Status, length: nat, start: nat, end: nat)
    requires Rings(items) && 0 <= count <= |Selected(ViewsOf(items), c.sub)|
    modifies buffer
    ensures var ns := Prefix(Selected(ViewsOf(items), c.sub), count);
      && s == BuildStatus(c, ns, buffer.Length)
      && (s == Good ==>
            && Sendable(ns) && start <= end <= length <= buffer.Length
            && buffer[..length] == Answer(c, ns) && buffer[start..end] == Message(c.number, c.time, ns))
  {
    hide ViewsOf, ViewOf, Rings, Selected, Sendable, Message, Answer, BuildStatus;
    ghost var vs := ViewsOf(items);
    var w := new BinaryWriter(buffer);
    assert ViewsOf(items) == vs;
    s, start, end := WriteResponse(w, items, c, count);
    assert ViewsOf(items) == vs;
    length := w.position;
    if s == Good {
      SliceOfPrefix(buffer[..], start, end, length);
    }
  }

  // ----- The status, by what is to be sent and how much room there is

  lemma AnswerSpelt(c: Cover, ns: seq<Notice>)
    requires |ns| < 0x8000_0000
    ensures Spell(AnswerSteps(c, ns), AllEncodable(ns),
                  if AllEncodable(ns) then Prelude(c.handle, c.sub, c.more) + Draft(c.number, c.time, ns) + Trailer(Prefix(c.acks, MAX_PUBLISH_ACKS)) else [])
  {
    hide Spell, PreludeSteps, Prelude, MessageSteps, Draft, TrailerSteps, Trailer, AllEncodable;
    var acks := Prefix(c.acks, MAX_PUBLISH_ACKS);
    var a, b, d := PreludeSteps(c.handle, c.sub, c.more), MessageSteps(c.number, c.time, ns), TrailerSteps(acks);
    var ok := AllEncodable(ns);
    var x, y, z := Prelude(c.handle, c.sub, c.more), if ok then Draft(c.number, c.time, ns) else [], Trailer(acks);
    PreludeSpelt(c.handle, c.sub, c.more);
    MessageSpelt(c.number, c.time, ns);
    TrailerSpelt(acks);
    SpellConcat(a, b, true, ok, x, y);
    SpellConcat(a + b, d, ok, true, x + y, z);
    RefusedBytes(AnswerSteps(c, ns), ok, x + y + z);
  }

  /** Building succeeds exactly if the entries can be sent and the answer fits. */
  lemma BuildsExactlyIf(c: Cover, ns: seq<Notice>, capacity: nat)
    requires |ns| < 0x8000_0000
    ensures BuildStatus(c, ns, capacity) == Good <==> Sendable(ns) && |Answer(c, ns)| <= capacity
  {
    hide AnswerSteps, Lay, Prelude, Draft, Trailer, Message, DataChangeBody, Lead, Reason;
    var p := Pen(Good, [], capacity);
    AnswerSpelt(c, ns);
    if AllEncodable(ns) {
      LayClean(p, AnswerSteps(c, ns));
    } else {
      SpellHonest(AnswerSteps(c, ns), false, []);
      LayStatus(p, AnswerSteps(c, ns));
      CleanReason(AnswerSteps(c, ns));
    }
    if Sendable(ns) {
      DraftLength(c.number, c.time, ns);
    } else if AllEncodable(ns) && Lay(p, AnswerSteps(c, ns)).1 == Good {
      LongerFails(c, ns, p);
    }
  }

  lemma LongerFails(c: Cover, ns: seq<Notice>, p: Pen)
    requires |ns| < 0x8000_0000 && Lay(p, AnswerSteps(c, ns)).1 == Good
    ensures Lay(p, PreludeSteps(c.handle, c.sub, c.more) + MessageSteps(c.number, c.time, ns)).1 == Good
  {
    hide Lay, PreludeSteps, MessageSteps, TrailerSteps;
    LayConcat(p, PreludeSteps(c.handle, c.sub, c.more) + MessageSteps(c.number, c.time, ns), TrailerSteps(Prefix(c.acks, MAX_PUBLISH_ACKS)));
  }

  /** The bytes of the answer before those of its entries. */
  function Ahead(c: Cover, ns: seq<Notice>): (r: seq<byte>)
    requires |ns| < 0x8000_0000
  {
    Prelude(c.handle, c.sub, c.more) + (MessageHeader(c.number, c.time, ns) + (DataChangeHeader() + EncI32(0) + EncI32(|ns|)))
  }

  /** The value is refused because one of its strings is too long, rather than for want of an encoding. */
  ghost predicate Overlong(v: Variant) {
    if v.VArray? then exists i :: OverlongAt(v, i)
    else OverlongScalar(v)
  }

  predicate OverlongScalar(v: Variant) {
    !EncodableScalar(v) && IsText(v) && (v.VNodeId? ==> v.nodeId.StringId?)
  }

  predicate OverlongAt(v: Variant, i: nat) {
    v.VArray? && !NullArray(v.kind, v.length, v.elements) && SizedKind(v.kind) && i < |v.elements.value|
    && EncodableElements(v.elements.value[..i]) && OverlongScalar(v.elements.value[i])
  }

  lemma StringReason(s: UaString)
    requires !EncodableString(s)
    ensures Reason(StringSteps(s)) == BadEncodingLimitsExceeded
  {
  }

  lemma ScalarReason(v: Variant)
    requires v.VNull? || !EncodableScalar(v)
    ensures Reason(ScalarSteps(v)) == if !v.VNull? && OverlongScalar(v) then BadEncodingLimitsExceeded else BadEncodingError
  {
    hide StringSteps, LocalizedTextMask, LE;
    match v
    case VString(s) => StringReason(s);
    case VByteString(s) => StringReason(s);
    case VNodeId(n) =>
      if n.StringId? {
        StringReason(n.name);
        var a := [Put([0x03]), Put(LE(n.ns, 2))];
        assert Clean(a);
        LeadConcat(a, StringSteps(n.name));
      }
    case VQualifiedName(ns, name) =>
      StringReason(name);
      assert Clean([Put(LE(ns, 2))]);
      LeadConcat([Put(LE(ns, 2))], StringSteps(name));
    case VLocalizedText(locale, text) => TextReason(locale, text);
    case _ =>
  }

  lemma TextReason(locale: UaString, text: UaString)
    requires !EncodableString(locale) || !EncodableString(text)
    ensures Reason(LocalizedTextSteps(locale, text)) == BadEncodingLimitsExceeded
  {
    hide StringSteps, LocalizedTextMask;
    var m := [Put([LocalizedTextMask(locale, text)])];
    assert Clean(m);
    LeadConcat(m, TextSteps(locale) + TextSteps(text));
    LeadConcat(TextSteps(locale), TextSteps(text));
    TextSpelt(locale);
    if EncodableString(locale) { StringReason(text); } else { StringReason(locale); }
  }

  /** The first element that cannot be encoded gives the reason. */
  lemma {:induction false} ElementsReason(es: seq<Variant>, i: nat)
    requires i < |es| && EncodableElements(es[..i]) && (es[i].VNull? || !EncodableScalar(es[i]))
    ensures Reason(ElementSteps(es)) == Reason(ScalarSteps(es[i]))
  {
    hide ScalarSteps, EncodableScalar, Reason;
    var n := |es| - 1;
    var a := es[..n];
    LeadConcat(ElementSteps(a), ScalarSteps(es[n]));
    ElementsSpelt(a);
    if i < n {
      assert a[..i] == es[..i] && a[i] == es[i];
      ElementsReason(a, i);
    } else {
      assert a == es[..i];
    }
  }

  lemma {:induction false} FirstRefused(es: seq<Variant>) returns (i: nat)
    requires !EncodableElements(es)
    ensures i < |es| && EncodableElements(es[..i]) && (es[i].VNull? || !EncodableScalar(es[i]))
  {
    hide EncodableScalar;
    assert es[..|es|] == es;
    i := 0;
    while !es[i].VNull? && EncodableScalar(es[i])
      invariant i < |es| && EncodableElements(es[..i])
      decreases |es| - i
    {
      assert es[..i + 1] == es[..i] + [es[i]];
      i := i + 1;
    }
  }

  lemma ArrayReason(v: Variant)
    requires v.VArray? && !Encodable(v)
    ensures Reason(VariantSteps(v)) == if Overlong(v) then BadEncodingLimitsExceeded else BadEncodingError
  {
    hide ElementSteps, EncodableScalar, ScalarSteps, EncI32, OverlongScalar;
    var a, b := [Put([v.kind + 128])], ArraySteps(v.kind, v.length, v.elements);
    assert Clean(a);
    LeadConcat(a, b);
    var h := [Put(EncI32(v.length))];
    assert Clean(h);
    if SizedKind(v.kind) {
      var es := v.elements.value;
      LeadConcat(h, ElementSteps(es));
      var i := FirstRefused(es);
      ElementsReason(es, i);
      ScalarReason(es[i]);
      OnlyFirstRefused(v, i);
    } else {
      LeadConcat(h, [Refuse(BadEncodingError)]);
    }
  }

  lemma OnlyFirstRefused(v: Variant, i: nat)
    requires v.VArray? && !NullArray(v.kind, v.length, v.elements) && SizedKind(v.kind) && i < |v.elements.value|
    requires EncodableElements(v.elements.value[..i]) && (v.elements.value[i].VNull? || !EncodableScalar(v.elements.value[i]))
    ensures Overlong(v) <==> !v.elements.value[i].VNull? && OverlongScalar(v.elements.value[i])
  {
    var es := v.elements.value;
    if !es[i].VNull? && OverlongScalar(es[i]) { assert OverlongAt(v, i); }
    assert forall j :: 0 <= j < i ==> es[..i][j] == es[j];
    forall j: nat | OverlongAt(v, j) ensures j == i {
      assert forall k :: 0 <= k < j ==> es[..j][k] == es[k];
    }
  }

  lemma ValueReason(v: Variant)
    requires !Encodable(v)
    ensures Reason(VariantSteps(v)) == if Overlong(v) then BadEncodingLimitsExceeded else BadEncodingError
  {
    hide ScalarSteps, EncodableScalar;
    if v.VArray? {
      ArrayReason(v);
    } else {
      NullScalar();
      var a := [Put([TypeId(v)])];
      assert Clean(a);
      LeadConcat(a, ScalarSteps(v));
      ScalarReason(v);
    }
  }

  /** Entry j is the first that cannot be encoded: everything before it, and its own bytes up to what is refused. */
  function Reached(c: Cover, ns: seq<Notice>, j: nat): (r: nat)
    requires |ns| < 0x8000_0000 && j < |ns| && AllEncodable(ns[..j])
  {
    |Ahead(c, ns)| + |EncNotices(ns[..j])| + 5 + |Lead(VariantSteps(ns[j].entry.value))|
  }

  lemma NoticeReason(n: Notice)
    requires !Encodable(n.entry.value)
    ensures Reason(NoticeSteps(n)) == Reason(VariantSteps(n.entry.value))
    ensures |Lead(NoticeSteps(n))| == 5 + |Lead(VariantSteps(n.entry.value))|
  {
    hide VariantSteps, Encodable, StatusAndTimeSteps, LE, Lead, Reason;
    var v := n.entry.value;
    var d := ValueOf(n.entry);
    VariantSpelt(v);
    LeadConcat(VariantSteps(v), StatusAndTimeSteps(d));
    var m, h := [Put([DataValueMask(d)])], [Put(LE(n.handle, 4))];
    SpellPut([DataValueMask(d)]);
    SpellPut(LE(n.handle, 4));
    LeadConcat(m, VariantSteps(v) + StatusAndTimeSteps(d));
    CleanConcat(VariantSteps(v), StatusAndTimeSteps(d));
    LeadConcat(h, DataValueSteps(d));
  }

  lemma {:induction false} NoticesReason(ns: seq<Notice>, j: nat)
    requires j < |ns| && AllEncodable(ns[..j]) && !Encodable(ns[j].entry.value)
    ensures Reason(NoticesSteps(ns)) == Reason(NoticeSteps(ns[j]))
    ensures Lead(NoticesSteps(ns)) == EncNotices(ns[..j]) + Lead(NoticeSteps(ns[j]))
  {
    hide NoticeSteps, Encodable, Lead, Reason, EncNotices;
    var n := |ns| - 1;
    var a := ns[..n];
    LeadConcat(NoticesSteps(a), NoticeSteps(ns[n]));
    NoticesSpelt(a);
    if j < n {
      assert a[..j] == ns[..j] && a[j] == ns[j];
      NoticesReason(a, j);
      assert !AllEncodable(a);
    } else {
      assert a == ns[..j];
    }
  }

  lemma ChangeReason(ns: seq<Notice>, j: nat)
    requires |ns| < 0x8000_0000 && j < |ns| && AllEncodable(ns[..j]) && !Encodable(ns[j].entry.value)
    ensures Reason(DataChangeSteps(ns)) == Reason(VariantSteps(ns[j].entry.value))
    ensures |Lead(DataChangeSteps(ns))| == |DataChangeHeader() + EncI32(0) + EncI32(|ns|)| + |EncNotices(ns[..j])| + 5 + |Lead(VariantSteps(ns[j].entry.value))|
  {
    hide NoticesSteps, NoticeSteps, VariantSteps, Encodable, Lead, Reason, EncNotices, HeaderSteps, EncI32, DataChangeHeader, AllEncodable;
    NoticeReason(ns[j]);
    NoticesReason(ns, j);
    NoticesSpelt(ns);
    assert !AllEncodable(ns) by { NotAll(ns, j); }
    var h, z, n := HeaderSteps(), [Put(EncI32(0))], [Put(EncI32(|ns|))];
    HeaderSpelt();
    SpellPut(EncI32(0));
    SpellPut(EncI32(|ns|));
    LeadConcat(NoticesSteps(ns), z);
    CleanConcat(NoticesSteps(ns), z);
    LeadConcat(n, NoticesSteps(ns) + z);
    CleanConcat(h, z);
    LeadConcat(h, z);
    LeadConcat(h + z, BodySteps(ns));
  }

  lemma NotAll(ns: seq<Notice>, j: nat)
    requires j < |ns| && !Encodable(ns[j].entry.value)
    ensures !AllEncodable(ns)
  {
  }

  /**
   Why an answer that cannot be sent is not: the buffer ends before the first
   entry that cannot be encoded is reached, or that entry is refused, because a
   string in it is too long or because it has no encoding.
   */
  lemma RefusedStatus(c: Cover, ns: seq<Notice>, j: nat, capacity: nat)
    requires |ns| < 0x8000_0000 && j < |ns| && AllEncodable(ns[..j]) && !Encodable(ns[j].entry.value)
    ensures BuildStatus(c, ns, capacity)
      == if Reached(c, ns, j) <= capacity && Overlong(ns[j].entry.value) then BadEncodingLimitsExceeded else BadEncodingError
  {
    hide PreludeSteps, Prelude, MessageHeaderSteps, MessageHeader, DataChangeSteps, TrailerSteps, VariantSteps, Encodable, Lead, Reason, EncNotices, AllEncodable, Lay, EncI32, DataChangeHeader;
    var v := ns[j].entry.value;
    ChangeReason(ns, j);
    ValueReason(v);
    NotAll(ns, j);
    AnswerReason(c, ns);
    AnswerSpelt(c, ns);
    SpellHonest(AnswerSteps(c, ns), false, []);
    var p := Pen(Good, [], capacity);
    LayStatus(p, AnswerSteps(c, ns));
    MessageFails(c, ns, p);
  }

  lemma AnswerReason(c: Cover, ns: seq<Notice>)
    requires |ns| < 0x8000_0000 && !AllEncodable(ns)
    ensures Reason(AnswerSteps(c, ns)) == Reason(DataChangeSteps(ns))
    ensures |Lead(AnswerSteps(c, ns))| == |Prelude(c.handle, c.sub, c.more)| + |MessageHeader(c.number, c.time, ns)| + |Lead(DataChangeSteps(ns))|
  {
    hide PreludeSteps, Prelude, MessageHeaderSteps, MessageHeader, DataChangeSteps, TrailerSteps, Lead, Reason, AllEncodable;
    var a, b, d := PreludeSteps(c.handle, c.sub, c.more), MessageHeaderSteps(c.number, c.time, ns), TrailerSteps(Prefix(c.acks, MAX_PUBLISH_ACKS));
    PreludeSpelt(c.handle, c.sub, c.more);
    MessageHeaderSpelt(c.number, c.time, ns);
    DataChangeSpelt(ns);
    assert ns != [] by { NoneToEncode(); }
    LeadConcat(b, DataChangeSteps(ns));
    CleanConcat(b, DataChangeSteps(ns));
    LeadConcat(a, MessageSteps(c.number, c.time, ns));
    CleanConcat(a, MessageSteps(c.number, c.time, ns));
    LeadConcat(a + MessageSteps(c.number, c.time, ns), d);
  }

  lemma MessageFails(c: Cover, ns: seq<Notice>, p: Pen)
    requires |ns| < 0x8000_0000 && !AllEncodable(ns) && p.Standing()
    ensures Lay(p, PreludeSteps(c.handle, c.sub, c.more) + MessageSteps(c.number, c.time, ns)).1 != Good
  {
    hide PreludeSteps, Prelude, MessageSteps, Draft, AllEncodable, Lay, Lead, Reason;
    var a, b := PreludeSteps(c.handle, c.sub, c.more), MessageSteps(c.number, c.time, ns);
    PreludeSpelt(c.handle, c.sub, c.more);
    MessageSpelt(c.number, c.time, ns);
    SpellConcat(a, b, true, false, Prelude(c.handle, c.sub, c.more), []);
    SpellHonest(a + b, false, Prelude(c.handle, c.sub, c.more) + []);
    LayStatus(p, a + b);
    CleanReason(a + b);
  }
}
