/**
 The client's reading of what a publish cycle sends: request handle,
 Subscription, moreNotifications, the message, and the codes of the
 acknowledgements; or the fault.
 */
module Answers {
  import opened Types
  import opened Wire
  import opened Codec
  import opened Ledgers
  import opened ItemStates
  import opened Selection
  import opened PoolStates
  import opened Notifications
  import opened Publishing
  import opened Responses
  import opened Messages
  import opened SubStates
  import opened CycleStates

  // ----- Reading

  datatype Header = Header(kind: u32, handle: u32, result: u32)

  /** Timestamp, handle, result, no diagnostics, no string table, no additional header. */
  function ReadFields(s: seq<byte>, kind: u32): (r: Decoded<Header>) {
    if |s| < 24 || s[16] != 0 || FromLE(s[17..21]) != 0xFFFF_FFFF || s[21..24] != [0, 0, 0] then Err(BadDecodingError)
    else Ok(Header(kind, Four(s[8..12]), Four(s[12..16])), 24)
  }

  /** Type id, and the fields of a ResponseHeader. */
  function ReadHeader(s: seq<byte>): (r: Decoded<Header>) {
    match DecNodeId(s)
    case Err(e) => Err(e)
    case Ok(id, k) => if id.Numeric? && id.ns == 0 then ReadFields(s[k..], id.id).After(k) else Err(BadDecodingError)
  }

  function Four(s: seq<byte>): (r: u32)
    requires |s| == 4
  {
    Pow256Values();
    FromLE(s)
  }

  /** The acknowledgement codes of a response. */
  function ReadCodes(s: seq<byte>, n: nat): (r: Decoded<seq<u32>>)
    ensures r.Ok? ==> r.used <= |s|
  {
    if n == 0 then Ok([], 0)
    else match DecU32(s)
      case Err(e) => Err(e)
      case Ok(code, _) =>
        match ReadCodes(s[4..], n - 1)
        case Err(e) => Err(e)
        case Ok(rest, m) => Ok([code] + rest, 4 + m)
  }

  /** What goes before the message: handle, Subscription and moreNotifications, with no available sequence numbers. */
  datatype Front = Front(handle: u32, sub: u32, more: bool)

  function ReadFront(s: seq<byte>): (r: Decoded<Front>)
    ensures r.Ok? ==> r.used <= |s|
  {
    match ReadHeader(s)
    case Err(e) => Err(e)
    case Ok(h, k) =>
      if h.kind != 829 || h.result != 0 || |s| < k + 9 || FromLE(s[k + 4..k + 8]) != 0 || s[k + 8] > 1 then Err(BadDecodingError)
      else Ok(Front(h.handle, Four(s[k..k + 4]), s[k + 8] == 1), k + 9)
  }

  datatype Told = Told(front: Front, note: Note, codes: seq<u32>)

  /** A whole PublishResponse, with nothing after its empty diagnostics. */
  function ReadAnswer(s: seq<byte>): (r: Option<Told>) {
    match ReadFront(s)
    case Err(_) => None
    case Ok(front, k) =>
      match ReadMessage(s[k..])
      case Err(_) => None
      case Ok(note, m) =>
        if m > |s| - k then None
        else
          var t := s[k + m..];
          match DecI32(t)
          case Err(_) => None
          case Ok(n, _) =>
            if n < 0 then None
            else match ReadCodes(t[4..], n)
              case Err(_) => None
              case Ok(codes, u) => if t[4 + u..] == [0, 0, 0, 0] then Some(Told(front, note, codes)) else None
  }

  // ----- Reading what was written

  lemma {:induction false} CodesRoundTrip(acks: seq<u32>, rest: seq<byte>)
    ensures |EncAcks(acks)| == 4 * |acks| && ReadCodes(EncAcks(acks) + rest, |acks|) == Ok(acks, 4 * |acks|)
  {
    hide LE, DecU32;
    if acks == [] {
      assert [] + rest == rest;
    } else {
      EncAcksFront(acks);
      var a, b := LE(acks[0], 4), EncAcks(acks[1..]);
      CodesRoundTrip(acks[1..], rest);
      assert (a + b) + rest == a + (b + rest);
      U32RoundTrip(acks[0], b + rest);
      Messages.Dropped(a, b + rest);
      assert [acks[0]] + acks[1..] == acks;
    }
  }

  lemma {:induction false} EncAcksFront(acks: seq<u32>)
    requires acks != []
    ensures EncAcks(acks) == LE(acks[0], 4) + EncAcks(acks[1..])
  {
    hide LE;
    var n := |acks| - 1;
    if n == 0 {
      assert acks[..0] == [] && acks[1..] == [];
      assert EncAcks(acks[..0]) + LE(acks[0], 4) == LE(acks[0], 4) + EncAcks(acks[1..]);
    } else {
      EncAcksFront(acks[..n]);
      assert acks[..n][0] == acks[0] && acks[..n][1..] == acks[1..][..n - 1] && acks[1..][n - 1] == acks[n];
      assert EncAcks(acks[1..]) == EncAcks(acks[1..][..n - 1]) + LE(acks[n], 4);
      var a, b, c := LE(acks[0], 4), EncAcks(acks[..n][1..]), LE(acks[n], 4);
      assert (a + b) + c == a + (b + c);
    }
  }

  lemma FourAt(a: seq<byte>, v: u32, c: seq<byte>)
    ensures var s := a + (LE(v, 4) + c); |s| >= |a| + 4 && FromLE(s[|a|..|a| + 4]) == v && s[|a| + 4..] == c
  {
    hide LE, FromLE;
    Pow256Values();
    LEInverse(v, 4);
    var s := a + (LE(v, 4) + c);
    assert s[|a|..|a| + 4] == LE(v, 4);
  }

  /** The tail of a header: no diagnostics, a null string table, a null extension. */
  lemma HeaderTailBytes(result: u32)
    ensures HeaderTail(result) == LE(result, 4) + ([0] + (LE(0xFFFF_FFFF, 4) + [0, 0, 0]))
  {
    hide LE;
    assert EncNodeId(Numeric(0, 0)) == [0, 0];
    assert EncI32(-1) == LE(0xFFFF_FFFF, 4);
    assert [0, 0] + [0] == [0, 0, 0];
  }

  lemma FieldsRoundTrip(kind: u32, handle: u32, result: u32, rest: seq<byte>)
    ensures ReadFields(EncI64(0) + (LE(handle, 4) + (HeaderTail(result) + rest)), kind) == Ok(Header(kind, handle, result), 24)
  {
    hide LE, FromLE, EncI64, HeaderTail;
    var time, h, t := EncI64(0), LE(handle, 4), HeaderTail(result);
    var s := time + (h + (t + rest));
    Length64(0);
    HeaderTailBytes(result);
    FourAt(time, handle, t + rest);
    var q, z := LE(0xFFFF_FFFF, 4), [0, 0, 0] + rest;
    assert s == (time + h) + (LE(result, 4) + ([0] + (q + z)));
    FourAt(time + h, result, [0] + (q + z));
    var front := time + h + LE(result, 4) + [0];
    assert s == front + (q + z);
    FourAt(front, 0xFFFF_FFFF, z);
    assert s[16] == front[16];
    assert s[21..24] == z[..3];
  }

  lemma HeaderRoundTrip(kind: u32, handle: u32, result: u32, rest: seq<byte>)
    ensures ReadHeader(ResponseHeader(kind, handle, result) + rest) == Ok(Header(kind, handle, result), |ResponseHeader(kind, handle, result)|)
  {
    hide LE, EncI64, EncNodeId, DecNodeId, HeaderTail, ReadFields;
    var id, time, h, t := EncNodeId(Numeric(0, kind)), EncI64(0), LE(handle, 4), HeaderTail(result);
    var u := time + (h + (t + rest));
    assert ResponseHeader(kind, handle, result) + rest == id + u;
    NodeIdRoundTrip(Numeric(0, kind), u);
    Messages.Dropped(id, u);
    FieldsRoundTrip(kind, handle, result, rest);
    Length64(0);
    HeaderTailBytes(result);
  }

  lemma FrontRoundTrip(handle: u32, sub: u32, more: bool, rest: seq<byte>)
    ensures ReadFront(Prelude(handle, sub, more) + rest) == Ok(Front(handle, sub, more), |Prelude(handle, sub, more)|)
  {
    hide LE, FromLE, ResponseHeader, ReadHeader;
    var h := ResponseHeader(829, handle, 0);
    var flag := [if more then 1 else 0];
    assert EncI32(0) == LE(0, 4);
    var s := Prelude(handle, sub, more) + rest;
    assert s == h + (LE(sub, 4) + EncI32(0) + flag + rest);
    HeaderRoundTrip(829, handle, 0, LE(sub, 4) + EncI32(0) + flag + rest);
    assert s == h + (LE(sub, 4) + (LE(0, 4) + flag + rest));
    FourAt(h, sub, LE(0, 4) + flag + rest);
    assert s == (h + LE(sub, 4)) + (LE(0, 4) + (flag + rest));
    FourAt(h + LE(sub, 4), 0, flag + rest);
    assert s[|h| + 8] == flag[0];
  }

  /** Handle, Subscription and flag are read from every answer, whatever values it carries. */
  lemma FrontIsRead(c: Cover, ns: seq<Notice>)
    requires Sendable(ns)
    ensures ReadFront(Answer(c, ns)).Ok? && ReadFront(Answer(c, ns)).value == Front(c.handle, c.sub, c.more)
  {
    hide Prelude, Message, Trailer, ReadFront, Sendable, Prefix;
    var m, t := Message(c.number, c.time, ns), Trailer(Prefix(c.acks, MAX_PUBLISH_ACKS));
    Join(Prelude(c.handle, c.sub, c.more), m, t);
    FrontRoundTrip(c.handle, c.sub, c.more, m + t);
  }

  lemma Join(a: seq<byte>, b: seq<byte>, c: seq<byte>)
    ensures a + b + c == a + (b + c)
  {
  }

  /** Without arrays, which no reader takes, everything is. */
  lemma AnswerIsRead(c: Cover, ns: seq<Notice>)
    requires Sendable(ns) && NoArrays(ns)
    ensures ReadAnswer(Answer(c, ns)) ==
      Some(Told(Front(c.handle, c.sub, c.more), Note(c.number, c.time, if ns == [] then None else Some(Meant(ns))), Prefix(c.acks, 4)))
  {
    hide Prelude, Message, ReadFront, ReadMessage, DecI32, EncI32, EncAcks, ReadCodes, NoArrays, Meant, Sendable;
    var acks := Prefix(c.acks, MAX_PUBLISH_ACKS);
    var p, m, t := Prelude(c.handle, c.sub, c.more), Message(c.number, c.time, ns), Trailer(acks);
    var s := Answer(c, ns);
    Join(p, m, t);
    FrontRoundTrip(c.handle, c.sub, c.more, m + t);
    Messages.Dropped(p, m + t);
    NotificationRoundTrip(c.number, c.time, ns, t);
    assert s == (p + m) + t;
    Messages.Dropped(p + m, t);
    var n, z := EncI32(|acks|), EncI32(0);
    assert z == [0, 0, 0, 0] by { ZeroBytes(); }
    assert t == n + (EncAcks(acks) + z);
    Length32(|acks|);
    I32RoundTrip(|acks|, EncAcks(acks) + z);
    Messages.Dropped(n, EncAcks(acks) + z);
    CodesRoundTrip(acks, z);
    assert t == (n + EncAcks(acks)) + z;
    Messages.Dropped(n + EncAcks(acks), z);
  }

  lemma ZeroBytes()
    ensures EncI32(0) == [0, 0, 0, 0]
  {
    LE4(0);
  }

  // ----- What a cycle tells the client

  /** The notices a cycle sends, if it sends. */
  function Carried(ss: seq<ItemState>, sub: SubState, m: Moment): (r: seq<Notice>)
    requires AllFit(ss) && |m.values| == |ss| <= MAX_ITEMS
    ensures |r| < 0x8000_0000
  {
    Batch(Ready(ss, sub, m.values), sub)
  }

  lemma CycleReplies(ss: seq<ItemState>, sub: SubState, queue: seq<Request>, m: Moment)
    requires AllFit(ss) && |m.values| == |ss| <= MAX_ITEMS
    ensures var t, ns := Cycle(ss, sub, queue, m), Carried(ss, sub, m);
      t.outcome.Idle? || (
        var at := FirstFor(queue, sub.session);
        var more := ns != [] && |ns| < |Due(Ready(ss, sub, m.values), sub)|;
        at.Some? && t.outcome == ReplyTo(queue[at.value], Cover(queue[at.value].handle, sub.id, more, sub.number, m.time, queue[at.value].acks), ns, m.emitted, m.faulted))
  {
    hide AllFit, Ready, ReplyTo, FirstFor, DrainedAll, SubState.Posting;
    var ready := Ready(ss, sub, m.values);
    if Batch(ready, sub) == [] { assert Capped(|Due(ready, sub)|, sub.maxNotifications) == 0; }
  }

  /**
   Every answer of a cycle, as the client reads it: the handle of the request,
   the Subscription, moreNotifications exactly if fewer entries are sent than
   are due, and, if no array is among them, the number the next data message
   has or will have, the entries, and the codes of the request's
   acknowledgements. Without entries it says so, and claims no more.
   */
  lemma CycleTellsTheClient(ss: seq<ItemState>, sub: SubState, queue: seq<Request>, m: Moment)
    requires AllFit(ss) && |m.values| == |ss| <= MAX_ITEMS && Cycle(ss, sub, queue, m).outcome.Answered?
    ensures var o, ns, due := Cycle(ss, sub, queue, m).outcome, Carried(ss, sub, m), Due(Ready(ss, sub, m.values), sub);
      && o.request in queue && o.request.Waiting? && o.request.session == sub.session && |o.body| <= 512
      && ReadFront(o.body).Ok? && ReadFront(o.body).value == Front(o.request.handle, sub.id, ns != [] && |ns| < |due|)
      && (NoArrays(ns) ==>
            ReadAnswer(o.body) ==
              Some(Told(ReadFront(o.body).value, Note(sub.number, m.time, if ns == [] then None else Some(Meant(ns))), Prefix(o.request.acks, 4))))
      && ns == due[..|ns|] && (sub.maxNotifications > 0 ==> |ns| <= sub.maxNotifications) && (|ns| < |due| ==> |ns| == sub.maxNotifications)
  {
    hide AllFit, Ready, FirstFor, Cycle, Due, ReadFront, ReadAnswer, NoArrays, Meant, Sendable, Answer, BuildStatus;
    CycleReplies(ss, sub, queue, m);
    FirstForIsFirst(queue, sub.session);
    var q := queue[FirstFor(queue, sub.session).value];
    var ns, due := Carried(ss, sub, m), Due(Ready(ss, sub, m.values), sub);
    var c := Cover(q.handle, sub.id, ns != [] && |ns| < |due|, sub.number, m.time, q.acks);
    AnsweredExactly(q, c, ns, m.emitted, m.faulted);
    FrontIsRead(c, ns);
    if NoArrays(ns) { AnswerIsRead(c, ns); }
    assert due[..|ns|] == Prefix(due, |ns|);
  }

  /** What goes out instead is read as the fault Bad_ResponseTooLarge under the request's handle. */
  lemma FaultTellsTheClient(ss: seq<ItemState>, sub: SubState, queue: seq<Request>, m: Moment)
    requires AllFit(ss) && |m.values| == |ss| <= MAX_ITEMS && Cycle(ss, sub, queue, m).outcome.Faulted?
    ensures var o := Cycle(ss, sub, queue, m).outcome;
      o.request in queue && o.request.Waiting? && o.request.session == sub.session && ReadHeader(o.body) == Ok(Header(397, o.request.handle, 0x80B9_0000), |o.body|)
  {
    hide AllFit, Ready, FirstFor, Cycle, Due, ReadHeader, BuildStatus, Sendable, Answer, ResponseHeader;
    CycleReplies(ss, sub, queue, m);
    FirstForIsFirst(queue, sub.session);
    var q := queue[FirstFor(queue, sub.session).value];
    HeaderRoundTrip(397, q.handle, 0x80B9_0000, []);
    var h := ResponseHeader(397, q.handle, 0x80B9_0000);
    assert h + [] == h;
  }
  /** Handle and DataValue of entry k: the value, and its status unless that is Good. */
  lemma {:induction false} MeantAre(ns: seq<Notice>, k: nat)
    requires k < |ns|
    ensures Meant(ns)[k] ==
      (ns[k].handle, DataValue(Some(ns[k].entry.value), if ns[k].entry.status == 0 then None else Some(ns[k].entry.status), None, None))
  {
    if k > 0 { MeantAre(ns[1..], k - 1); }
  }
}
