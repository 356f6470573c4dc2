/**
 One publish cycle as a function: what publish_due makes of the items, of one
 Subscription whose time has come, and of the waiting PublishRequests. Section
 5.14 of OPC 10000-4.
 */
module CycleStates {
  import opened Types
  import opened Wire
  import opened Codec
  import opened Steps
  import opened Timers
  import opened Ledgers
  import opened ItemStates
  import opened Selection
  import opened PoolStates
  import opened Notifications
  import opened Publishing
  import opened Responses
  import opened SubStates

  const BODY_BYTES: nat := 512

  /** Few enough items that a count of queued entries stays a positive Int32. */
  const MAX_ITEMS: nat := 0x40_0000

  // ----- Waiting PublishRequests

  datatype Request = Free | Waiting(session: u32, id: u32, handle: u32, enqueued: u64, acks: seq<u32>)

  predicate For(r: Request, session: u32) {
    r.Waiting? && r.session == session
  }

  /** The slot publish_request_dequeue settles on among the first n. */
  function Found(queue: seq<Request>, session: u32, n: nat): (r: Option<nat>)
    requires n <= |queue|
    ensures r.Some? ==> r.value < n && For(queue[r.value], session)
  {
    if n == 0 then None
    else
      var best := Found(queue, session, n - 1);
      if For(queue[n - 1], session) && (best.None? || queue[n - 1].enqueued < queue[best.value].enqueued) then Some(n - 1) else best
  }

  function FirstFor(queue: seq<Request>, session: u32): (r: Option<nat>)
    ensures r.Some? ==> r.value < |queue| && For(queue[r.value], session)
  {
    Found(queue, session, |queue|)
  }

  /** Slot i holds the request of the session that came first; among equals the lowest slot. */
  ghost predicate First(queue: seq<Request>, session: u32, i: nat) {
    && i < |queue| && For(queue[i], session)
    && forall j :: 0 <= j < |queue| && For(queue[j], session) ==>
         queue[i].enqueued < queue[j].enqueued || (queue[i].enqueued == queue[j].enqueued && i <= j)
  }

  lemma {:induction false} FoundIsFirst(queue: seq<Request>, session: u32, n: nat)
    requires n <= |queue|
    ensures Found(queue, session, n).None? <==> forall j :: 0 <= j < n ==> !For(queue[j], session)
    ensures Found(queue, session, n).Some? ==> First(queue[..n], session, Found(queue, session, n).value)
  {
    if n > 0 {
      FoundIsFirst(queue, session, n - 1);
      assert forall j :: 0 <= j < n - 1 ==> queue[..n - 1][j] == queue[..n][j];
    }
  }

  /** The request taken is the waiting one of the session that came first, in the lowest slot among equals. */
  lemma FirstForIsFirst(queue: seq<Request>, session: u32)
    ensures FirstFor(queue, session).None? <==> forall j :: 0 <= j < |queue| ==> queue[j].Free? || queue[j].session != session
    ensures FirstFor(queue, session).Some? ==>
      var i := FirstFor(queue, session).value;
      && i < |queue| && queue[i].Waiting? && queue[i].session == session
      && forall j :: 0 <= j < |queue| && queue[j].Waiting? && queue[j].session == session ==>
           queue[i].enqueued < queue[j].enqueued || (queue[i].enqueued == queue[j].enqueued && i <= j)
  {
    FoundIsFirst(queue, session, |queue|);
    assert queue[..|queue|] == queue;
  }

  /** The first free slot of the request queue, or none. */
  function FreeSlot(queue: seq<Request>): (r: Option<nat>)
    ensures r.Some? ==> r.value < |queue| && queue[r.value].Free? && forall j :: 0 <= j < r.value ==> queue[j].Waiting?
    ensures r.None? ==> forall j :: 0 <= j < |queue| ==> queue[j].Waiting?
    decreases |queue|
  {
    if queue == [] then None
    else if queue[0].Free? then Some(0)
    else match FreeSlot(queue[1..])
      case None => None
      case Some(i) => Some(i + 1)
  }

  // ----- Answering

  const SERVICE_FAULT: u32 := 397
  const RESPONSE_TOO_LARGE: u32 := 0x80B9_0000

  /** What became of a request taken from the queue. */
  datatype Outcome =
    | Idle                                        // none was taken
    | Answered(request: Request, body: seq<byte>)
    | Faulted(request: Request, body: seq<byte>)  // answered with Bad_ResponseTooLarge instead
    | Dropped(request: Request)                   // nothing went out

  /** publish_response_oversize_status. */
  predicate Oversize(s: Status) {
    s == BadEncodingError || s == BadOutOfMemory || s == BadResponseTooLarge
  }

  /** What the outside contributes to one cycle: the reads, the clock, and what emission returns. */
  datatype Moment = Moment(values: seq<Entry>, time: i64, emitted: Status, faulted: Status)

  /** The status with which building and emitting end. */
  function SendStatus(c: Cover, ns: seq<Notice>, emitted: Status): (r: Status)
    requires |ns| < 0x8000_0000
  {
    if BuildStatus(c, ns, BODY_BYTES) == Good then emitted else BuildStatus(c, ns, BODY_BYTES)
  }

  /** Build, emit, and if that was too much, the fault. */
  function ReplyTo(r: Request, c: Cover, ns: seq<Notice>, emitted: Status, faulted: Status): (o: Outcome)
    requires |ns| < 0x8000_0000 && r.Waiting?
    ensures !o.Idle? && o.request == r
    ensures o.Answered? ==> Sendable(ns) && o.body == Answer(c, ns)
  {
    var s := SendStatus(c, ns, emitted);
    BuildsExactlyIf(c, ns, BODY_BYTES);
    if s == Good then Answered(r, Answer(c, ns))
    else if Oversize(s) && faulted == Good then Faulted(r, ResponseHeader(SERVICE_FAULT, c.handle, RESPONSE_TOO_LARGE))
    else Dropped(r)
  }

  function CoverOf(r: Request, sub: SubState, more: bool, time: i64): (c: Cover)
    requires r.Waiting?
  {
    Cover(r.handle, sub.id, more, sub.number, time, r.acks)
  }

  // ----- The cycle

  datatype Turn = Turn(items: seq<ItemState>, sub: SubState, queue: seq<Request>, outcome: Outcome)

  lemma {:induction false} GatherBound(vs: seq<ItemView>, chosen: seq<bool>, n: nat)
    requires n <= |vs| == |chosen| && forall i :: 0 <= i < |vs| ==> |vs[i].queued| <= 255
    ensures |Gather(vs, chosen, n)| <= 255 * n
  {
    if n > 0 { GatherBound(vs, chosen, n - 1); }
  }

  lemma SelectedBound(ss: seq<ItemState>, sub: u32)
    requires AllFit(ss) && |ss| <= MAX_ITEMS
    ensures |Selected(Views(ss), sub)| < 0x8000_0000
  {
    hide Gather;
    var vs := Views(ss);
    forall i | 0 <= i < |vs| ensures |vs[i].queued| <= 255 { assert ss[i].Fits(); }
    GatherBound(vs, Reporters(vs, sub), |vs|);
    GatherBound(vs, Linked(vs, sub), |vs|);
  }

  /** The items once prepared, and resent if asked for; nothing happens while publishing is disabled. */
  function Ready(ss: seq<ItemState>, sub: SubState, values: seq<Entry>): (r: seq<ItemState>)
    requires AllFit(ss) && |values| == |ss|
    ensures |r| == |ss| && AllFit(r)
  {
    if sub.enabled then Refreshed(ss, sub.id, sub.resend, values) else ss
  }

  /** Everything the cycle could deliver. */
  function Due(ss: seq<ItemState>, sub: SubState): (r: seq<Notice>) {
    if sub.enabled then Selected(Views(ss), sub.id) else []
  }

  /** The notices the cycle delivers: the due ones up to the cap. */
  function Batch(ss: seq<ItemState>, sub: SubState): (r: seq<Notice>)
    requires AllFit(ss) && |ss| <= MAX_ITEMS
    ensures |r| == Capped(|Due(ss, sub)|, sub.maxNotifications) && |r| < 0x8000_0000
  {
    SelectedBound(ss, sub.id);
    Prefix(Due(ss, sub), Capped(|Due(ss, sub)|, sub.maxNotifications))
  }

  function Counted(ss: seq<ItemState>, sub: SubState): (r: SubState)
    requires AllFit(ss) && |ss| <= MAX_ITEMS
  {
    if sub.enabled then sub.(resend := false, more := |Batch(ss, sub)| < |Due(ss, sub)|) else sub
  }

  /** A cycle with data: what the answer carries leaves the queues, and only if it went out. */
  function WithData(ss: seq<ItemState>, sub: SubState, queue: seq<Request>, m: Moment, ns: seq<Notice>): (r: Turn)
    requires AllFit(ss) && |ns| < 0x8000_0000
    ensures |r.items| == |ss| && |r.queue| == |queue| && AllFit(r.items)
  {
    match FirstFor(queue, sub.session)
    case None => Turn(ss, sub, queue, Idle)
    case Some(at) =>
      var o := ReplyTo(queue[at], CoverOf(queue[at], sub, sub.more, m.time), ns, m.emitted, m.faulted);
      if o.Answered? then Turn(DrainedAll(ss, sub.id, |ns|), sub.Posting(m.time, ns), queue[at := Free], o)
      else Turn(ss, sub, queue[at := Free], o)
  }

  /** A cycle without data: count up, and when it is time send a message that consumes no sequence number. */
  function WithoutData(ss: seq<ItemState>, sub: SubState, queue: seq<Request>, m: Moment): (r: Turn)
    ensures r.items == ss && |r.queue| == |queue|
  {
    var n := (sub.keepAlive + 1) % TWO32;
    var counted := sub.(keepAlive := n);
    if n < sub.maxKeepAlive then Turn(ss, counted, queue, Idle)
    else match FirstFor(queue, sub.session)
      case None => Turn(ss, counted, queue, Idle)
      case Some(at) =>
        var o := ReplyTo(queue[at], CoverOf(queue[at], sub, false, m.time), [], m.emitted, m.faulted);
        Turn(ss, if o.Answered? then counted.(keepAlive := 0) else counted, queue[at := Free], o)
  }

  /** publish_due, for one Subscription whose time has come, up to its timer. */
  function Cycle(ss: seq<ItemState>, sub: SubState, queue: seq<Request>, m: Moment): (r: Turn)
    requires AllFit(ss) && |m.values| == |ss| <= MAX_ITEMS
    ensures |r.items| == |ss| && |r.queue| == |queue| && AllFit(r.items)
  {
    hide Refreshed, Batch, Counted, WithData, WithoutData, AllFit;
    var ready := Ready(ss, sub, m.values);
    var ns := Batch(ready, sub);
    if ns != [] then WithData(ready, Counted(ready, sub), queue, m, ns) else WithoutData(ready, Counted(ready, sub), queue, m)
  }

  // ----- What the outcome says

  /** A request is answered exactly if the entries can be sent, the answer fits, and it goes out. */
  lemma AnsweredExactly(r: Request, c: Cover, ns: seq<Notice>, emitted: Status, faulted: Status)
    requires |ns| < 0x8000_0000 && r.Waiting?
    ensures ReplyTo(r, c, ns, emitted, faulted).Answered? <==> emitted == Good && Sendable(ns) && |Answer(c, ns)| <= BODY_BYTES
  {
    hide BuildStatus, Sendable, Answer;
    BuildsExactlyIf(c, ns, BODY_BYTES);
  }

  /** The first entry that cannot be encoded. */
  lemma FirstUnsendable(ns: seq<Notice>) returns (j: nat)
    requires !AllEncodable(ns)
    ensures j < |ns| && AllEncodable(ns[..j]) && !Encodable(ns[j].entry.value)
  {
    hide Encodable;
    assert ns[..|ns|] == ns;
    j := 0;
    while Encodable(ns[j].entry.value)
      invariant j < |ns| && AllEncodable(ns[..j])
      decreases |ns| - j
    {
      assert ns[..j + 1] == ns[..j] + [ns[j]];
      j := j + 1;
    }
  }

  /**
   What becomes of a request whose entries cannot all be encoded, given that
   the fault itself goes out: it is dropped without an answer exactly if the
   first such entry is reached within the buffer and one of its strings is too
   long; in every other case, no encoding at all or no room, the fault answers it.
   */
  lemma UnsendableIsDroppedOrFaulted(r: Request, c: Cover, ns: seq<Notice>, j: nat, emitted: Status, faulted: Status)
    requires |ns| < 0x8000_0000 && r.Waiting? && faulted == Good
    requires j < |ns| && AllEncodable(ns[..j]) && !Encodable(ns[j].entry.value)
    ensures var dropped := Reached(c, ns, j) <= BODY_BYTES && Overlong(ns[j].entry.value);
      var o := ReplyTo(r, c, ns, emitted, faulted);
      if dropped then o == Dropped(r) else o == Faulted(r, ResponseHeader(SERVICE_FAULT, c.handle, RESPONSE_TOO_LARGE))
  {
    hide BuildStatus, Sendable, Answer, Reached, Overlong, Encodable, AllEncodable, ResponseHeader;
    RefusedStatus(c, ns, j, BODY_BYTES);
  }

  /** If the entries can be sent: answered if it fits and goes out, faulted if it does not fit or emission calls it too large, dropped otherwise. */
  lemma SendableIsDroppedOrFaulted(r: Request, c: Cover, ns: seq<Notice>, emitted: Status, faulted: Status)
    requires r.Waiting? && Sendable(ns)
    ensures var fits := |Answer(c, ns)| <= BODY_BYTES;
      var o := ReplyTo(r, c, ns, emitted, faulted);
      && (o.Answered? <==> fits && emitted == Good) && (!o.Answered? && !o.Faulted? ==> o == Dropped(r))
      && (o.Faulted? <==>
            faulted == Good && (!fits || emitted == BadEncodingError || emitted == BadOutOfMemory || emitted == BadResponseTooLarge))
  {
    hide Answer, DataChangeBody, AllEncodable, AnswerSteps, Lay, Draft, Prelude, Trailer, Message;
    BuildsExactlyIf(c, ns, BODY_BYTES);
    AnswerSpelt(c, ns);
    LayClean(Pen(Good, [], BODY_BYTES), AnswerSteps(c, ns));
  }

  /** One item whose value is a string of more than 4096 bytes: its request is dropped, whatever the client or the transport does. */
  lemma OverlongIsDropped(r: Request, c: Cover, i: nat, handle: u32, text: seq<byte>, emitted: Status)
    requires r.Waiting? && |text| > MAX_STRING
    ensures ReplyTo(r, c, [Notice(i, handle, Entry(VString(UaString.Bytes(text)), GOOD))], emitted, Good) == Dropped(r)
  {
    hide BuildStatus, Reached, Encodable, AllEncodable;
    var n := Notice(i, handle, Entry(VString(UaString.Bytes(text)), GOOD));
    var ns := [n];
    assert ns[..0] == [] && AllEncodable(ns[..0]) by { NoneToEncode(); }
    assert !Encodable(n.entry.value) && Overlong(n.entry.value) by { TooLong(text); }
    TooLongReached(c, ns, text);
    UnsendableIsDroppedOrFaulted(r, c, ns, 0, emitted, Good);
  }

  lemma TooLong(text: seq<byte>)
    requires |text| > MAX_STRING
    ensures !Encodable(VString(UaString.Bytes(text))) && Overlong(VString(UaString.Bytes(text)))
  {
  }

  lemma TooLongReached(c: Cover, ns: seq<Notice>, text: seq<byte>)
    requires |text| > MAX_STRING && |ns| == 1 && AllEncodable(ns[..0]) && ns[0].entry.value == VString(UaString.Bytes(text))
    ensures Reached(c, ns, 0) <= BODY_BYTES
  {
    hide LE, EncI32, EncI64;
    var steps := VariantSteps(VString(UaString.Bytes(text)));
    assert steps == [Put([12]), Refuse(BadEncodingLimitsExceeded)];
    assert steps[1..] == [Refuse(BadEncodingLimitsExceeded)];
    assert Lead(steps) == [12] + [];
    assert EncNotices(ns[..0]) == [];
    AheadShort(c, ns);
  }

  lemma AheadShort(c: Cover, ns: seq<Notice>)
    requires |ns| < 0x8000_0000
    ensures |Ahead(c, ns)| <= 100
  {
    hide LE;
    Length32(0);
    Length32(-1);
    Length32(|ns|);
    Length32(if ns == [] then 0 else 1);
  }
}
