/**
 One publish cycle of a Subscription, as publish_due runs it: prepare the
 queues, resend what was asked for, count, answer a waiting PublishRequest, and
 drain what the answer carried. Each method is proved to do to the objects what
 the function of CycleState.dfy does to their states.
 */
module Cycles {
  import opened Types
  import opened Wire
  import opened Codec
  import opened Steps
  import opened Cursors
  import opened Timers
  import opened Ledgers
  import opened ItemStates
  import opened Items
  import opened Selection
  import opened PoolStates
  import opened Notifications
  import opened Publishing
  import opened Draining
  import opened Responses
  import opened SubStates
  import opened CycleStates

  // ----- Preparing

  /** One item of the loop; no other item is touched. */
  method PrepareOne(items: seq<MonitoredItem>, i: nat, item: MonitoredItem)
    requires Sound(items) && Apart(items) && i < |items| && item == items[i]
    modifies item`queueSize, item`head, item`tail, item`count, item`queueOverflow, item`lastReported, item`hasReported,
             item`pending, item`ledger, item.queue
    ensures Sound(items) && old(item.State()).Fits() && item.State() == old(item.State()).Woken()
  {
    hide ItemState.Valid, ItemState.Woken, RingContents, NumberOf, MonitoredItem.State, MonitoredItem.Told;
    item.HoldsFits();
    item.PreparePending();
    forall j | 0 <= j < |items| ensures items[j].Valid() {
      if j != i { assert items[j] != item && items[j].queue != item.queue; }
    }
  }

  /** prepare_reportable_queues. */
  method PrepareQueues(items: seq<MonitoredItem>, sub: u32)
    requires Sound(items) && Apart(items)
    modifies items`queueSize, items`head, items`tail, items`count, items`queueOverflow, items`lastReported, items`hasReported,
             items`pending, items`ledger, Queues(items)
    ensures Sound(items) && AllFit(old(StatesOf(items))) && StatesOf(items) == WokenAll(old(StatesOf(items)), sub)
  {
    hide Sound, AllFit, ItemState.Woken, ItemState.Fits, MonitoredItem.State, WokenIf;
    ghost var ss := StatesOf(items);
    SoundStates(items);
    for n := 0 to |items|
      invariant Sound(items)
      invariant forall k :: 0 <= k < n ==> ss[k].Fits() && items[k].State() == WokenIf(ss[k], sub)
      invariant forall k :: n <= k < |items| ==> items[k].State() == ss[k]
    {
      var item := items[n];
      EachFits(ss, n);
      WokenOr(ss[n], sub);
      assert item.State() == ss[n];
      OnState(item, sub);
      if item.inUse && item.subscriptionId == sub && item.mode != DISABLED {
        PrepareOne(items, n, item);
      }
    }
  }

  lemma OnState(item: MonitoredItem, sub: u32)
    ensures item.State().On(sub) <==> item.inUse && item.subscriptionId == sub && item.mode != DISABLED
    ensures item.State().Reporting(sub) <==> item.inUse && item.subscriptionId == sub && item.mode == REPORTING
  {
  }

  lemma WokenOr(s: ItemState, sub: u32)
    requires s.Fits()
    ensures WokenIf(s, sub) == if s.On(sub) then s.Woken() else s
  {
  }

  // ----- Resending

  method ResendOne(items: seq<MonitoredItem>, i: nat, item: MonitoredItem, read: Entry)
    requires Sound(items) && Apart(items) && i < |items| && item == items[i]
    modifies item`lastValue, item`lastStatus, item`hasValue, item`queueSize, item`head, item`tail, item`count,
             item`queueOverflow, item`lastReported, item`hasReported, item`pending, item`ledger, item.queue
    ensures Sound(items) && old(item.State()).Fits() && item.State() == old(item.State()).TakeOver(old(item.State()).Resend(read))
  {
    hide ItemState.Valid, ItemState.TakeOver, ItemState.Resend, RingContents, NumberOf, MonitoredItem.State, MonitoredItem.Told;
    item.HoldsFits();
    item.Resend(read.value, read.status);
    forall j | 0 <= j < |items| ensures items[j].Valid() {
      if j != i { assert items[j] != item && items[j].queue != item.queue; }
    }
  }

  /** enqueue_resend_data, given what reading each item returns. */
  method ResendData(items: seq<MonitoredItem>, sub: u32, values: seq<Entry>)
    requires Sound(items) && Apart(items) && |values| == |items|
    modifies items`lastValue, items`lastStatus, items`hasValue, items`queueSize, items`head, items`tail, items`count,
             items`queueOverflow, items`lastReported, items`hasReported, items`pending, items`ledger, Queues(items)
    ensures Sound(items) && AllFit(old(StatesOf(items))) && StatesOf(items) == ResentAll(old(StatesOf(items)), sub, values)
  {
    hide Sound, AllFit, ItemState.TakeOver, ItemState.Resend, ItemState.Fits, MonitoredItem.State, ResentIf;
    ghost var ss := StatesOf(items);
    SoundStates(items);
    for n := 0 to |items|
      invariant Sound(items)
      invariant forall k :: 0 <= k < n ==> ss[k].Fits() && items[k].State() == ResentIf(ss[k], sub, values[k])
      invariant forall k :: n <= k < |items| ==> items[k].State() == ss[k]
    {
      var item := items[n];
      EachFits(ss, n);
      ResentOr(ss[n], sub, values[n]);
      assert item.State() == ss[n];
      OnState(item, sub);
      if item.inUse && item.subscriptionId == sub && item.mode == REPORTING {
        ResendOne(items, n, item, values[n]);
      }
    }
  }

  lemma ResentOr(s: ItemState, sub: u32, read: Entry)
    requires s.Fits()
    ensures ResentIf(s, sub, read) == if s.Reporting(sub) then s.TakeOver(s.Resend(read)) else s
  {
  }

  // ----- Waiting PublishRequests

  /** publish_request_dequeue. */
  method Dequeue(queue: array<Request>, session: u32) returns (r: Request)
    modifies queue
    ensures match FirstFor(old(queue[..]), session)
      case None => r == Free && queue[..] == old(queue[..])
      case Some(at) => r == old(queue[at]) && queue[..] == old(queue[..])[at := Free]
  {
    var found, best := false, 0;
    for i := 0 to queue.Length
      invariant queue[..] == old(queue[..])
      invariant found ==> best < i
      invariant Found(queue[..], session, i) == if found then Some(best) else None
    {
      assert queue[i] == queue[..][i];
      if For(queue[i], session) && (!found || queue[i].enqueued < queue[best].enqueued) {
        found, best := true, i;
      }
    }
    if !found {
      return Free;
    }
    r := queue[best];
    queue[best] := Free;
  }

  /** mu_publish_request_enqueue: the first free slot, or none. */
  method Enlist(queue: array<Request>, r: Request) returns (s: Status)
    requires r.Waiting?
    modifies queue
    ensures match FreeSlot(old(queue[..]))
      case None => s == BadTooManyPublishRequests && queue[..] == old(queue[..])
      case Some(at) => s == Good && queue[..] == old(queue[..])[at := r]
  {
    hide FreeSlot;
    for i := 0 to queue.Length
      invariant queue[..] == old(queue[..]) && forall j :: 0 <= j < i ==> queue[j].Waiting?
    {
      if queue[i].Free? {
        FirstFreeSlot(queue[..], i);
        queue[i] := r;
        return Good;
      }
    }
    FirstFreeSlot(queue[..], queue.Length);
    return BadTooManyPublishRequests;
  }

  lemma FirstFreeSlot(queue: seq<Request>, i: nat)
    requires i <= |queue| && (i < |queue| ==> queue[i].Free?) && forall j :: 0 <= j < i ==> queue[j].Waiting?
    ensures FreeSlot(queue) == if i < |queue| then Some(i) else None
  {
    hide FreeSlot;
    var r := FreeSlot(queue);
    if r.Some? && i < |queue| {
      assert !(r.value < i) && !(i < r.value);
    }
  }

  // ----- A Subscription

  /** revise_subscription_counts: a lifetime of at least three keep-alives, without overflow. */
  method ReviseCounts(lifetimeAsked: u32, keepAliveAsked: u32) returns (lifetime: u32, keepAlive: u32)
    ensures (lifetime, keepAlive) == Revised(lifetimeAsked, keepAliveAsked)
  {
    keepAlive := keepAliveAsked;
    if keepAlive == 0 {
      keepAlive := 1;
    }
    if keepAlive > MAX_NUMBER / 3 {
      keepAlive := MAX_NUMBER / 3;
    }
    var least := keepAlive * 3;
    lifetime := lifetimeAsked;
    if lifetime < least {
      lifetime := least;
    }
  }

  class Subscription {
    var inUse: bool
    var id: u32
    var sessionId: u32
    var interval: u32
    var maxKeepAlive: u32
    var lifetime: u32
    var maxNotifications: u32
    var publishingEnabled: bool
    var sequenceNumber: u32
    var keepAlive: u32
    var nextPublish: u64
    var more: bool
    var resendPending: bool
    var retransmit: Option<Sent>

    ghost var sent: seq<Posted>

    ghost function State(): (r: SubState)
      reads this
    {
      SubState(inUse, id, sessionId, interval, maxKeepAlive, lifetime, maxNotifications, publishingEnabled, sequenceNumber,
               keepAlive, nextPublish, more, resendPending, retransmit, sent)
    }

    /** A slot as it stands after memset. */
    constructor ()
      ensures State() == BLANK
    {
      inUse, id, sessionId, interval, maxKeepAlive, lifetime, maxNotifications := false, 0, 0, 0, 0, 0, 0;
      publishingEnabled, sequenceNumber, keepAlive, nextPublish, more, resendPending := false, 0, 0, 0, false, false;
      retransmit, sent := None, [];
    }

    /** memset of the slot. */
    method Clear()
      modifies this
      ensures State() == BLANK
    {
      ClearSettings();
      ClearProgress();
    }

    method ClearSettings()
      modifies `inUse, `id, `sessionId, `interval, `maxKeepAlive, `lifetime, `maxNotifications, `publishingEnabled
      ensures !inUse && id == 0 && sessionId == 0 && interval == 0 && maxKeepAlive == 0 && lifetime == 0 && maxNotifications == 0
      ensures !publishingEnabled
    {
      inUse, id, sessionId, interval, maxKeepAlive := false, 0, 0, 0, 0;
      lifetime, maxNotifications, publishingEnabled := 0, 0, false;
    }

    method ClearProgress()
      modifies `sequenceNumber, `keepAlive, `nextPublish, `more, `resendPending, `retransmit, `sent
      ensures sequenceNumber == 0 && keepAlive == 0 && nextPublish == 0 && !more && !resendPending && retransmit == None && sent == []
    {
      sequenceNumber, keepAlive, nextPublish, more, resendPending := 0, 0, 0, false, false;
      retransmit, sent := None, [];
    }

    /** The rest of mu_subscription_create: a new life, whose first data message will be number 1. */
    method Start(id: u32, session: u32, interval: u32, lifetimeAsked: u32, keepAliveAsked: u32, maxNotifications: u32, enabled: bool, now: u64)
      modifies this
      ensures State() == Started(id, session, interval, lifetimeAsked, keepAliveAsked, maxNotifications, enabled, now)
    {
      Clear();
      inUse, this.id, sessionId := true, id, session;
      Modify(interval, lifetimeAsked, keepAliveAsked, maxNotifications);
      publishingEnabled := enabled;
      sequenceNumber := 1;
      nextPublish := (now + interval) % TWO64;
    }

    /** mu_subscription_apply_parameters. */
    method Modify(interval: u32, lifetimeAsked: u32, keepAliveAsked: u32, maxNotifications: u32)
      modifies `interval, `maxKeepAlive, `lifetime, `maxNotifications
      ensures State() == old(State()).Modified(interval, lifetimeAsked, keepAliveAsked, maxNotifications)
    {
      hide Revised;
      this.interval, this.maxNotifications := interval, maxNotifications;
      lifetime, maxKeepAlive := ReviseCounts(lifetimeAsked, keepAliveAsked);
    }

    /** What publish_due leaves on the subscription after a data message went out. */
    method Conclude(message: seq<byte>, ghost time: i64, ghost notices: seq<Notice>)
      requires Sendable(notices) && message == Message(sequenceNumber, time, notices)
      modifies `keepAlive, `sequenceNumber, `retransmit, `sent
      ensures State() == old(State()).Posting(time, notices)
    {
      hide Sendable, Message;
      keepAlive := 0;
      sent := sent + [Posted(sequenceNumber, time, notices, message)];
      retransmit := None;
      if |message| <= RETRANSMIT_BYTES {
        retransmit := Some(Sent(sequenceNumber, message));
      }
      sequenceNumber := (sequenceNumber + 1) % TWO32;
      if sequenceNumber == 0 {
        sequenceNumber := 1;
      }
    }

    /** advance_publish_timer. */
    method AdvanceTimer(now: u64)
      requires nextPublish <= now
      modifies `nextPublish
      ensures State() == old(State()).(nextPublish := Saturated(NextTick(old(nextPublish), Effective(interval), now)))
    {
      hide Saturated, NextTick;
      nextPublish := AdvancePublishTimer(nextPublish, interval, now);
    }

    /** mu_subscription_acknowledge, once the subscription is found. */
    method Acknowledge(number: u32) returns (s: Status)
      modifies `retransmit
      ensures s == (if old(State()).Retains(number) then Good else BadSequenceNumberUnknown)
      ensures State() == old(State()).Acknowledged(number)
    {
      if retransmit.Some? && retransmit.value.number == number {
        retransmit := None;
        return Good;
      }
      return BadSequenceNumberUnknown;
    }

    /** mu_subscription_republish, once the subscription is found: the message retained under the number. */
    method Republish(number: u32) returns (s: Status, message: seq<byte>)
      ensures if State().Retains(number) then s == Good && message == State().retained.value.message
              else s == BadMessageNotAvailable && message == []
    {
      if retransmit.Some? && retransmit.value.number == number {
        return Good, retransmit.value.message;
      }
      return BadMessageNotAvailable, [];
    }
  }

  // ----- Answering

  /** mu_write_service_fault. */
  method WriteFault(buffer: array<byte>, handle: u32, result: u32) returns (s: Status, length: nat)
    modifies buffer
    ensures s == Good <==> |ResponseHeader(SERVICE_FAULT, handle, result)| <= buffer.Length
    ensures s == Good ==> length <= buffer.Length && buffer[..length] == ResponseHeader(SERVICE_FAULT, handle, result)
  {
    hide ResponseHeader, ResponseHeaderSteps, Lay;
    var w := new BinaryWriter(buffer);
    s := WriteResponseHeader(w, SERVICE_FAULT, handle, result);
    ResponseHeaderSpelt(SERVICE_FAULT, handle, result);
    LayClean(Pen(Good, [], buffer.Length), ResponseHeaderSteps(SERVICE_FAULT, handle, result));
    length := w.position;
  }

  lemma FaultFits(handle: u32, result: u32)
    ensures |ResponseHeader(SERVICE_FAULT, handle, result)| <= BODY_BYTES
  {
    hide LE;
    Length32(-1);
  }

  /** Build and emit. */
  method Attempt(items: seq<MonitoredItem>, c: Cover, count: i32, emitted: Status, buffer: array<byte>)
    returns (s: Status, body: seq<byte>, message: seq<byte>)
    requires Rings(items) && 0 <= count <= |Selected(ViewsOf(items), c.sub)| && buffer.Length == BODY_BYTES
    modifies buffer
    ensures var ns := Prefix(Selected(ViewsOf(items), c.sub), count);
      && s == SendStatus(c, ns, emitted)
      && (s == Good ==> Sendable(ns) && body == Answer(c, ns) && message == Message(c.number, c.time, ns))
  {
    hide ViewsOf, ViewOf, Rings, Selected, Sendable, Answer, Message, Prefix, BuildStatus;
    ghost var vs := ViewsOf(items);
    var length, start, end;
    s, length, start, end := BuildResponse(items, c, count, buffer);
    assert ViewsOf(items) == vs;
    body, message := [], [];
    if s == Good {
      body, message := buffer[..length], buffer[start..end];
      s := emitted;
    }
  }

  /** emit_publish_response_too_large_fault; `faulted` is what its emission returns. */
  method EmitFault(r: Request, faulted: Status, buffer: array<byte>) returns (o: Outcome)
    requires r.Waiting? && buffer.Length == BODY_BYTES
    modifies buffer
    ensures o == if faulted == Good then Faulted(r, ResponseHeader(SERVICE_FAULT, r.handle, RESPONSE_TOO_LARGE)) else Dropped(r)
  {
    hide ResponseHeader;
    FaultFits(r.handle, RESPONSE_TOO_LARGE);
    var s, length := WriteFault(buffer, r.handle, RESPONSE_TOO_LARGE);
    o := if faulted == Good then Faulted(r, buffer[..length]) else Dropped(r);
  }

  /** Build, emit, and if that was too much, the fault; `emitted` and `faulted` are what emission returns. */
  method Respond(items: seq<MonitoredItem>, r: Request, c: Cover, count: i32, emitted: Status, faulted: Status)
    returns (o: Outcome, message: seq<byte>)
    requires r.Waiting? && c.handle == r.handle && Rings(items) && 0 <= count <= |Selected(ViewsOf(items), c.sub)|
    ensures var ns := Prefix(Selected(ViewsOf(items), c.sub), count);
      && o == ReplyTo(r, c, ns, emitted, faulted)
      && (o.Answered? ==> Sendable(ns) && message == Message(c.number, c.time, ns))
  {
    hide ViewsOf, ViewOf, Rings, Selected, Sendable, Answer, Message, Prefix, SendStatus, ResponseHeader, Oversize;
    ghost var vs := ViewsOf(items);
    var buffer := new byte[BODY_BYTES];
    assert ViewsOf(items) == vs;
    var s, body;
    s, body, message := Attempt(items, c, count, emitted, buffer);
    assert ViewsOf(items) == vs;
    if s == Good {
      o := Answered(r, body);
    } else if Oversize(s) {
      o := EmitFault(r, faulted, buffer);
      assert ViewsOf(items) == vs;
    } else {
      o := Dropped(r);
    }
  }

  /** A cycle with data: what the answer carries leaves the queues, and only if it went out. */
  method PublishData(items: seq<MonitoredItem>, sub: Subscription, queue: array<Request>, count: i32, m: Moment,
                     ghost ss: seq<ItemState>, ghost ns: seq<Notice>) returns (o: Outcome)
    requires Sound(items) && Apart(items) && ss == StatesOf(items) && AllFit(ss) && Prepared(ss, sub.id)
    requires 0 < count == |ns| && ns == Prefix(Selected(Views(ss), sub.id), count)
    modifies items`queueSize, items`head, items`tail, items`count, items`queueOverflow, items`pending, items`ledger,
             sub`sequenceNumber, sub`retransmit, sub`sent, sub`keepAlive, queue
    ensures Sound(items)
    ensures Turn(StatesOf(items), sub.State(), queue[..], o) == WithData(ss, old(sub.State()), old(queue[..]), m, ns)
  {
    hide ViewsOf, ViewOf, Rings, Selected, Sendable, Message, Sound, Prepared, Prefix, ReplyTo, AllFit, DrainedAll, SubState.Posting, MonitoredItem.State, FirstFor;
    var r := Dequeue(queue, sub.sessionId);
    assert Sound(items) && StatesOf(items) == ss;
    if r.Free? {
      o := Idle;
      return;
    }
    o := AnswerData(items, sub, r, count, m, ss, ns);
  }

  /** Answer the request taken, and if the answer went out drain and record it. */
  method AnswerData(items: seq<MonitoredItem>, sub: Subscription, r: Request, count: i32, m: Moment,
                    ghost ss: seq<ItemState>, ghost ns: seq<Notice>) returns (o: Outcome)
    requires r.Waiting? && Sound(items) && Apart(items) && ss == StatesOf(items) && AllFit(ss) && Prepared(ss, sub.id)
    requires 0 < count == |ns| && ns == Prefix(Selected(Views(ss), sub.id), count)
    modifies items`queueSize, items`head, items`tail, items`count, items`queueOverflow, items`pending, items`ledger,
             sub`sequenceNumber, sub`retransmit, sub`sent, sub`keepAlive
    ensures Sound(items) && o == ReplyTo(r, CoverOf(r, old(sub.State()), sub.more, m.time), ns, m.emitted, m.faulted)
    ensures StatesOf(items) == if o.Answered? then DrainedAll(ss, sub.id, |ns|) else ss
    ensures sub.State() == if o.Answered? then old(sub.State()).Posting(m.time, ns) else old(sub.State())
  {
    hide ViewsOf, ViewOf, Rings, Selected, Sendable, Message, Sound, Prepared, Prefix, ReplyTo, AllFit, DrainedAll, SubState.Posting, MonitoredItem.State;
    SoundViews(items);
    var message;
    o, message := Respond(items, r, Cover(r.handle, sub.id, sub.more, sub.sequenceNumber, m.time, r.acks), count, m.emitted, m.faulted);
    assert Sound(items) && StatesOf(items) == ss;
    if o.Answered? {
      ClearReported(items, sub.id, count, ss);
      ghost var after := StatesOf(items);
      sub.Conclude(message, m.time, ns);
      assert Sound(items) && StatesOf(items) == after;
    }
  }

  lemma Untouched(items: seq<MonitoredItem>, ss: seq<ItemState>)
    requires Sound(items) && StatesOf(items) == ss
    ensures Rings(items) && ViewsOf(items) == Views(ss)
  {
    hide Sound, StatesOf, ViewsOf, Views;
    SoundViews(items);
  }

  /** A cycle without data: count up, and when it is time send a message that consumes no sequence number. */
  method KeepAlive(items: seq<MonitoredItem>, sub: Subscription, queue: array<Request>, m: Moment, ghost ss: seq<ItemState>) returns (o: Outcome)
    requires Sound(items) && ss == StatesOf(items)
    modifies sub`keepAlive, queue
    ensures Sound(items) && StatesOf(items) == ss
    ensures Turn(ss, sub.State(), queue[..], o) == WithoutData(ss, old(sub.State()), old(queue[..]), m)
  {
    hide ViewsOf, ViewOf, Rings, Selected, Sound, ReplyTo, MonitoredItem.State, FirstFor;
    SoundViews(items);
    sub.keepAlive := (sub.keepAlive + 1) % TWO32;
    if sub.keepAlive < sub.maxKeepAlive {
      return Idle;
    }
    var r := Dequeue(queue, sub.sessionId);
    assert Sound(items) && StatesOf(items) == ss && Rings(items) && ViewsOf(items) == Views(ss) by { Untouched(items, ss); }
    if r.Free? {
      return Idle;
    }
    var message;
    o, message := Respond(items, r, Cover(r.handle, sub.id, false, sub.sequenceNumber, m.time, r.acks), 0, m.emitted, m.faulted);
    assert Prefix(Selected(Views(ss), sub.id), 0) == [];
    if o.Answered? {
      sub.keepAlive := 0;
    }
  }

  // ----- The whole cycle

  /** prepare_reportable_queues, then enqueue_resend_data if a resend was asked for. */
  method Refresh(items: seq<MonitoredItem>, sub: u32, resend: bool, values: seq<Entry>)
    requires Sound(items) && Apart(items) && |values| == |items|
    modifies items`lastValue, items`lastStatus, items`hasValue, items`queueSize, items`head, items`tail, items`count,
             items`queueOverflow, items`lastReported, items`hasReported, items`pending, items`ledger, Queues(items)
    ensures Sound(items) && AllFit(old(StatesOf(items))) && StatesOf(items) == Refreshed(old(StatesOf(items)), sub, resend, values)
  {
    hide Sound, AllFit, StatesOf, WokenAll, ResentAll;
    PrepareQueues(items, sub);
    if resend {
      ResendData(items, sub, values);
    }
  }

  /** After preparing, no item that is on waits. */
  lemma RefreshedPrepared(ss: seq<ItemState>, sub: u32, resend: bool, values: seq<Entry>)
    requires AllValid(ss) && AllFit(ss) && |values| == |ss|
    ensures Prepared(Refreshed(ss, sub, resend, values), sub)
  {
    hide ItemState.Valid, ItemState.Woken, ItemState.TakeOver, AllFit;
    forall i | 0 <= i < |ss| && Refreshed(ss, sub, resend, values)[i].On(sub)
      ensures Refreshed(ss, sub, resend, values)[i].ledger.Valid() && !Refreshed(ss, sub, resend, values)[i].Waiting()
    {
      EachFits(ss, i);
      WokenRests(ss[i], sub);
      ValidCore(WokenIf(ss[i], sub));
      TakeOverValid(WokenIf(ss[i], sub), WokenIf(ss[i], sub).Resend(values[i]));
    }
  }

  lemma WokenRests(s: ItemState, sub: u32)
    requires s.Valid() && s.Fits()
    ensures WokenIf(s, sub).Valid() && WokenIf(s, sub).ledger.Valid() && (WokenIf(s, sub).On(sub) ==> !WokenIf(s, sub).Waiting())
    ensures WokenIf(s, sub).On(sub) == s.On(sub)
  {
    hide Enqueue, Ordered, Faithful;
    WokenValid(s);
  }

  /** count_reportable_items, which leaves moreNotifications on the subscription. */
  method CountCycle(items: seq<MonitoredItem>, sub: Subscription, ghost ss: seq<ItemState>) returns (count: i32)
    requires Sound(items) && ss == StatesOf(items) && AllFit(ss) && |items| <= MAX_ITEMS && sub.publishingEnabled
    modifies sub`more
    ensures Sound(items) && StatesOf(items) == ss && count == |Batch(ss, old(sub.State()))|
    ensures sub.more <==> count < |Due(ss, old(sub.State()))|
  {
    hide ViewsOf, ViewOf, Rings, Selected, Capped, Sound, MonitoredItem.State, AllFit, Prefix;
    SoundViews(items);
    SelectedBound(ss, sub.id);
    var n, more := CountReportable(items, sub.id, sub.maxNotifications);
    count := n;
    sub.more := more;
  }

  /** The first half: prepare, resend if asked to, and count. */
  method PrepareCycle(items: seq<MonitoredItem>, sub: Subscription, values: seq<Entry>) returns (count: i32)
    requires Sound(items) && Apart(items) && |values| == |items| <= MAX_ITEMS && sub.publishingEnabled
    modifies items`lastValue, items`lastStatus, items`hasValue, items`queueSize, items`head, items`tail, items`count,
             items`queueOverflow, items`lastReported, items`hasReported, items`pending, items`ledger, Queues(items),
             sub`more, sub`resendPending
    ensures Sound(items) && AllFit(old(StatesOf(items)))
    ensures StatesOf(items) == Ready(old(StatesOf(items)), old(sub.State()), values) && Prepared(StatesOf(items), sub.id)
    ensures sub.State() == CycleStates.Counted(StatesOf(items), old(sub.State())) && count == |Batch(StatesOf(items), old(sub.State()))|
  {
    hide Sound, Prepared, Rings, Selected, Capped, AllFit, Refreshed, StatesOf, Prefix, AllValid;
    ghost var ss := StatesOf(items);
    SoundStates(items);
    var resend := sub.resendPending;
    sub.resendPending := false;
    Refresh(items, sub.id, resend, values);
    RefreshedPrepared(ss, sub.id, resend, values);
    SoundStates(items);
    count := CountCycle(items, sub, StatesOf(items));
  }

  /** publish_due, for one subscription whose time has come, up to its timer. */
  method PublishOne(items: seq<MonitoredItem>, sub: Subscription, queue: array<Request>, m: Moment) returns (o: Outcome)
    requires Sound(items) && Apart(items) && |m.values| == |items| <= MAX_ITEMS
    modifies items`lastValue, items`lastStatus, items`hasValue, items`queueSize, items`head, items`tail, items`count,
             items`queueOverflow, items`lastReported, items`hasReported, items`pending, items`ledger, Queues(items), queue,
             sub`more, sub`resendPending, sub`keepAlive, sub`sequenceNumber, sub`retransmit, sub`sent
    ensures Sound(items) && AllFit(old(StatesOf(items)))
    ensures Turn(StatesOf(items), sub.State(), queue[..], o) == Cycle(old(StatesOf(items)), old(sub.State()), old(queue[..]), m)
  {
    hide Sound, Prepared, Rings, Selected, Capped, AllFit, Refreshed, StatesOf, Prefix, WithData, WithoutData;
    SoundStates(items);
    var count := 0;
    ghost var s, q := sub.State(), queue[..];
    if sub.publishingEnabled {
      count := PrepareCycle(items, sub, m.values);
    }
    ghost var ss := StatesOf(items);
    SoundStates(items);
    ghost var ns := Batch(ss, s);
    BatchIs(ss, s);
    if count > 0 {
      o := PublishData(items, sub, queue, count, m, ss, ns);
    } else {
      o := KeepAlive(items, sub, queue, m, ss);
    }
  }

  lemma BatchIs(ss: seq<ItemState>, s: SubState)
    requires AllFit(ss) && |ss| <= MAX_ITEMS
    ensures !s.enabled ==> Batch(ss, s) == []
    ensures s.enabled ==> Batch(ss, s) == Prefix(Selected(Views(ss), s.id), |Batch(ss, s)|)
  {
    hide AllFit, Selected;
  }
}
