/**
 The subscription engine as a state machine: its pools as values, every service
 and the tick as steps, and what holds in every state a run reaches. The objects
 of Engine.dfy are proved to take exactly these steps.
 */
module Machines {
  import opened Types
  import opened Timers
  import opened Ledgers
  import opened ItemStates
  import opened Selection
  import opened PoolStates
  import opened Responses
  import opened SubStates
  import opened CycleStates
  import opened Registry

  function ItemRow(s: ItemState): (r: Row) { Row(s.inUse, s.id, s.subscription) }

  function SubRow(s: SubState): (r: Row) { Row(s.inUse, s.id, s.session) }

  function ItemRows(ss: seq<ItemState>): (r: seq<Row>)
    ensures |r| == |ss| && forall i :: 0 <= i < |ss| ==> r[i] == ItemRow(ss[i])
  {
    seq(|ss|, i requires 0 <= i < |ss| => ItemRow(ss[i]))
  }

  function SubRows(ss: seq<SubState>): (r: seq<Row>)
    ensures |r| == |ss| && forall k :: 0 <= k < |ss| ==> r[k] == SubRow(ss[k])
  {
    seq(|ss|, k requires 0 <= k < |ss| => SubRow(ss[k]))
  }

  datatype Machine = Machine(items: seq<ItemState>, subs: seq<SubState>, queue: seq<Request>, nextSub: u32, nextItem: u32, active: nat)
  {
    predicate Small() {
      |items| <= MAX_ITEMS && |subs| < MAX_ID && AllFit(items)
    }

    /** Exact accounts, numbered messages, consistent pools, and every delivery to an item told by a message of its Subscription. */
    ghost predicate Valid() {
      && |items| <= MAX_ITEMS && |subs| < MAX_ID
      && AllValid(items) && AllGenuine(subs)
      && Consistent(ItemRows(items), SubRows(subs), active)
      && Accounted(items, subs)
    }
  }

  ghost predicate AllGenuine(subs: seq<SubState>) {
    forall k :: 0 <= k < |subs| ==> subs[k].Valid()
  }

  /** What the messages from the n-th on say of item i, one after the other. */
  function TakenSince(sent: seq<Posted>, n: nat, i: nat): (r: seq<Entry>) {
    if |sent| <= n then []
    else TakenSince(sent[..|sent| - 1], n, i) + TakenFrom(sent[|sent| - 1].notices, i)
  }

  /** What was ever delivered to the item is what the data messages sent since it was created say of it. */
  ghost predicate Accounts(s: ItemState, sub: SubState, i: nat) {
    s.since <= |sub.sent| && s.ledger.Valid() && s.ledger.Delivered() == TakenSince(sub.sent, s.since, i)
  }

  ghost predicate Belongs(s: ItemState, sub: SubState) {
    s.inUse && sub.inUse && s.subscription == sub.id
  }

  ghost predicate Accounted(items: seq<ItemState>, subs: seq<SubState>) {
    forall i, k :: 0 <= i < |items| && 0 <= k < |subs| && Belongs(items[i], subs[k]) ==> Accounts(items[i], subs[k], i)
  }

  // ----- Steps

  datatype Op =
    | Subscribing(session: u32, interval: u32, lifetime: u32, keepAlive: u32, maxNotifications: u32, enabled: bool, now: u64)
    | Modifying(session: u32, sub: u32, interval: u32, lifetime: u32, keepAlive: u32, maxNotifications: u32)
    | Enabling(session: u32, sub: u32, enabled: bool)
    | Unsubscribing(session: u32, sub: u32)
    | Monitoring(session: u32, sub: u32, config: Config, mode: u32, size: u32, initial: Option<Entry>, now: u64)
    | Adjusting(session: u32, sub: u32, id: u32, filter: Status, interval: u32, handle: u32)
    | Switching(session: u32, sub: u32, id: u32, mode: u32)
    | Linking(session: u32, sub: u32, id: u32, linked: u32)
    | Unlinking(session: u32, sub: u32, id: u32, linked: u32)
    | Unmonitoring(session: u32, sub: u32, id: u32)
    | Requesting(session: u32, id: u32, handle: u32, now: u64, acks: seq<(u32, u32)>)
    | Republishing(session: u32, sub: u32, number: u32)
    | Resending(session: u32, sub: u32)
    | Closing(session: u32)
    | Ticking(now: u64, aggregates: seq<Option<Entry>>, samples: seq<Entry>, moments: seq<Moment>)

  /** What a step returns: a status, with the message of a Republish and the outcomes of a tick. */
  datatype Reply = Reply(status: Status, message: seq<byte>, outcomes: seq<Outcome>)

  function Said(s: Status): (r: Reply) { Reply(s, [], []) }

  /** The slot of a session's Subscription, |subs| if there is none. */
  function SubAt(m: Machine, session: u32, sub: u32): (r: nat)
    ensures r <= |m.subs|
  {
    Place(SubRows(m.subs), Row(true, sub, session))
  }

  function ItemAt(m: Machine, sub: u32, id: u32): (r: nat)
    ensures r <= |m.items|
  {
    Place(ItemRows(m.items), Row(true, id, sub))
  }

  function WithSub(m: Machine, k: nat, s: SubState): (r: Machine)
    requires k < |m.subs|
  {
    m.(subs := m.subs[k := s])
  }

  function WithItem(m: Machine, i: nat, s: ItemState): (r: Machine)
    requires i < |m.items|
  {
    m.(items := m.items[i := s])
  }

  /** The Subscriptions with a new one in the first free slot, under the first fresh id; the counter after it. */
  ghost function Registered(ss: seq<SubState>, next: u32, session: u32, interval: u32, lifetime: u32, keepAlive: u32, maxNotifications: u32, enabled: bool, now: u64)
    : (r: (seq<SubState>, u32, Status))
    requires |ss| < MAX_ID
    ensures |r.0| == |ss|
  {
    var rows := SubRows(ss);
    match FreeRow(rows)
    case None => (ss, next, BadTooManySubscriptions)
    case Some(k) =>
      SomeFresh(rows, next);
      var id := Fresh(rows, next, 0).value;
      (ss[k := Started(id, session, interval, lifetime, keepAlive, maxNotifications, enabled, now)], IdAfter(id), Good)
  }

  /** mu_subscription_create. */
  ghost function Subscribe(m: Machine, session: u32, interval: u32, lifetime: u32, keepAlive: u32, maxNotifications: u32, enabled: bool, now: u64): (r: (Machine, Status))
    requires m.Small()
  {
    var r := Registered(m.subs, m.nextSub, session, interval, lifetime, keepAlive, maxNotifications, enabled, now);
    (m.(subs := r.0, nextSub := r.1), r.2)
  }

  /** The items of a Subscription are cleared, the others stay. */
  function Cleared(ss: seq<ItemState>, sub: u32): (r: seq<ItemState>)
    ensures |r| == |ss|
    ensures forall i :: 0 <= i < |ss| ==> r[i] == if ss[i].inUse && ss[i].subscription == sub then Blank(ss[i].depth) else ss[i]
  {
    seq(|ss|, i requires 0 <= i < |ss| => if ss[i].inUse && ss[i].subscription == sub then Blank(ss[i].depth) else ss[i])
  }

  /** The Subscription of slot k goes, and its items with it. */
  function Dropping(m: Machine, k: nat): (r: Machine)
    requires k < |m.subs|
  {
    var items := Cleared(m.items, m.subs[k].id);
    m.(items := items, subs := m.subs[k := BLANK], active := CountLive(ItemRows(items)))
  }

  /** mu_subscription_delete. */
  function Unsubscribe(m: Machine, session: u32, sub: u32): (r: (Machine, Status)) {
    var k := SubAt(m, session, sub);
    if k == |m.subs| then (m, BadSubscriptionIdInvalid) else (Dropping(m, k), Good)
  }

  /** The loop of CloseSession over the first n slots, looking for the given session id. */
  function Closed(m: Machine, session: u32, n: nat): (r: Machine)
    requires n <= |m.subs|
    ensures |r.subs| == |m.subs|
  {
    if n == 0 then m
    else
      var c := Closed(m, session, n - 1);
      if c.subs[n - 1].inUse && c.subs[n - 1].session == session then Dropping(c, n - 1) else c
  }

  /** What CreateMonitoredItems asks for. */
  datatype Wanted = Wanted(sub: u32, config: Config, mode: byte, nextSample: u64, size: u32, initial: Option<Entry>)

  /** An item as it is created, in a slot of the given depth. */
  function Created(depth: nat, id: u32, since: nat, w: Wanted): (r: ItemState) {
    Blank(depth).(inUse := true, id := id, subscription := w.sub, since := since)
      .Configured(w.config, w.mode, w.nextSample, w.size, w.initial)
  }

  /** The items with a new one in the first free slot, under the first fresh id; the counter after it. */
  ghost function Admitted(ss: seq<ItemState>, next: u32, since: nat, w: Wanted): (r: (seq<ItemState>, u32, Status))
    requires |ss| < MAX_ID
    ensures |r.0| == |ss|
  {
    var rows := ItemRows(ss);
    match FreeRow(rows)
    case None => (ss, next, BadTooManyMonitoredItems)
    case Some(i) =>
      SomeFresh(rows, next);
      var id := Fresh(rows, next, 0).value;
      (ss[i := Created(ss[i].depth, id, since, w)], IdAfter(id), Good)
  }

  ghost function Admit(m: Machine, since: nat, w: Wanted): (r: (Machine, Status))
    requires m.Small()
  {
    var r := Admitted(m.items, m.nextItem, since, w);
    (m.(items := r.0, nextItem := r.1, active := if r.2 == Good then m.active + 1 else m.active), r.2)
  }

  /** mu_monitored_item_alloc and the rest of CreateMonitoredItems for one item. */
  ghost function Monitor(m: Machine, session: u32, sub: u32, config: Config, mode: u32, size: u32, initial: Option<Entry>, now: u64): (r: (Machine, Status))
    requires m.Small()
  {
    var k := SubAt(m, session, sub);
    if k == |m.subs| then (m, BadSubscriptionIdInvalid)
    else Admit(m, |m.subs[k].sent|, Wanted(sub, config, (mode % 256) as byte, (now + config.samplingInterval) % TWO64, size, initial))
  }

  /** The session has the Subscription and that has the item; otherwise the status says which is missing. */
  function Lacks(m: Machine, session: u32, sub: u32, id: u32): (r: Status)
    ensures r == Good ==> ItemAt(m, sub, id) < |m.items| && SubAt(m, session, sub) < |m.subs|
  {
    if SubAt(m, session, sub) == |m.subs| then BadSubscriptionIdInvalid
    else if ItemAt(m, sub, id) == |m.items| then BadMonitoredItemIdInvalid
    else Good
  }

  /** mu_monitored_item_delete. */
  function Unmonitor(m: Machine, session: u32, sub: u32, id: u32): (r: (Machine, Status)) {
    if Lacks(m, session, sub, id) != Good then (m, Lacks(m, session, sub, id))
    else
      var i := ItemAt(m, sub, id);
      (WithItem(m, i, Blank(m.items[i].depth)).(active := if m.active > 0 then m.active - 1 else 0), Good)
  }

  /** What ModifyMonitoredItems, SetMonitoringMode and SetTriggering change of an item. */
  datatype Setting =
    | Sampling(interval: u32, handle: u32)
    | Mode(mode: byte)
    | AddLink(linked: u32)
    | RemoveLink(linked: u32)

  function Set(s: ItemState, c: Setting): (r: (ItemState, Status)) {
    match c
    case Sampling(interval, handle) => (s.(config := s.config.(samplingInterval := interval, clientHandle := handle)), Good)
    case Mode(mode) => (s.(mode := mode), Good)
    case AddLink(linked) =>
      (s.(triggered := WithLink(s.triggered, linked)),
       if linked in s.triggered || |s.triggered| < MAX_TRIGGER_LINKS then Good else BadTooManyOperations)
    case RemoveLink(linked) =>
      (s.(triggered := WithoutLink(s.triggered, linked)), if linked in s.triggered then Good else BadMonitoredItemIdInvalid)
  }

  function SetAt(m: Machine, i: nat, c: Setting): (r: (Machine, Status))
    requires i < |m.items|
  {
    var r := Set(m.items[i], c);
    (m.(items := m.items[i := r.0]), r.1)
  }

  /** ModifyMonitoredItems, given what its filter was found to be. */
  function Adjust(m: Machine, session: u32, sub: u32, id: u32, filter: Status, interval: u32, handle: u32): (r: (Machine, Status)) {
    if Lacks(m, session, sub, id) != Good then (m, Lacks(m, session, sub, id))
    else if filter != Good then (m, filter)
    else SetAt(m, ItemAt(m, sub, id), Sampling(interval, handle))
  }

  /** SetMonitoringMode, which keeps the low byte of the mode. */
  function Switch(m: Machine, session: u32, sub: u32, id: u32, mode: u32): (r: (Machine, Status)) {
    if Lacks(m, session, sub, id) != Good then (m, Lacks(m, session, sub, id))
    else SetAt(m, ItemAt(m, sub, id), Mode((mode % 256) as byte))
  }

  /** Both items of a link are there; otherwise the status says what is missing. */
  function LacksOne(m: Machine, session: u32, sub: u32, id: u32, linked: u32): (r: Status)
    ensures r == Good ==> ItemAt(m, sub, id) < |m.items|
  {
    if Lacks(m, session, sub, id) != Good then Lacks(m, session, sub, id)
    else if ItemAt(m, sub, linked) == |m.items| then BadMonitoredItemIdInvalid
    else Good
  }

  /** mu_monitored_item_add_trigger_link. */
  function Link(m: Machine, session: u32, sub: u32, id: u32, linked: u32): (r: (Machine, Status)) {
    if LacksOne(m, session, sub, id, linked) != Good then (m, LacksOne(m, session, sub, id, linked))
    else SetAt(m, ItemAt(m, sub, id), AddLink(linked))
  }

  /** mu_monitored_item_remove_trigger_link. */
  function Unlink(m: Machine, session: u32, sub: u32, id: u32, linked: u32): (r: (Machine, Status)) {
    if LacksOne(m, session, sub, id, linked) != Good then (m, LacksOne(m, session, sub, id, linked))
    else SetAt(m, ItemAt(m, sub, id), RemoveLink(linked))
  }

  /** What ModifySubscription, SetPublishingMode and ResendData change. */
  datatype Change =
    | Parameters(interval: u32, lifetime: u32, keepAlive: u32, maxNotifications: u32)
    | Publishing(enabled: bool)
    | Resend

  function Changed(s: SubState, c: Change): (r: SubState) {
    match c
    case Parameters(interval, lifetime, keepAlive, maxNotifications) => s.Modified(interval, lifetime, keepAlive, maxNotifications)
    case Publishing(enabled) => s.(enabled := enabled)
    case Resend => s.(resend := true)
  }

  function ChangeSub(m: Machine, session: u32, sub: u32, c: Change): (r: (Machine, Status)) {
    var k := SubAt(m, session, sub);
    if k == |m.subs| then (m, BadSubscriptionIdInvalid) else (WithSub(m, k, Changed(m.subs[k], c)), Good)
  }

  /** mu_subscription_acknowledge. */
  function Acknowledge(m: Machine, session: u32, sub: u32, number: u32): (r: (Machine, Status)) {
    var k := SubAt(m, session, sub);
    if k == |m.subs| then (m, BadSubscriptionIdInvalid)
    else if m.subs[k].Retains(number) then (WithSub(m, k, m.subs[k].Acknowledged(number)), Good)
    else (m, BadSequenceNumberUnknown)
  }

  /** The code a response carries for the result of an acknowledgement. */
  function AckCode(s: Status): (r: u32) {
    if s == Good then 0 else if s == BadSubscriptionIdInvalid then 0x8028_0000 else 0x807A_0000
  }

  /** The acknowledgements of a PublishRequest, in order, and their codes. */
  function AcknowledgeAll(m: Machine, session: u32, acks: seq<(u32, u32)>): (r: (Machine, seq<u32>))
    ensures |r.1| == |acks| && r.0.items == m.items && r.0.queue == m.queue && |r.0.subs| == |m.subs|
  {
    if acks == [] then (m, [])
    else
      var n := |acks| - 1;
      var before := AcknowledgeAll(m, session, acks[..n]);
      var last := Acknowledge(before.0, session, acks[n].0, acks[n].1);
      (last.0, before.1 + [AckCode(last.1)])
  }

  /** Publish: acknowledge, then park the request. */
  function Park(m: Machine, session: u32, id: u32, handle: u32, now: u64, acks: seq<(u32, u32)>): (r: (Machine, Status)) {
    if |acks| > MAX_PUBLISH_ACKS then (m, BadTooManyOperations)
    else
      var done := AcknowledgeAll(m, session, acks);
      match FreeSlot(m.queue)
      case None => (done.0, BadTooManyPublishRequests)
      case Some(at) => (done.0.(queue := m.queue[at := Waiting(session, id, handle, now, done.1)]), Good)
  }

  /** mu_subscription_republish. */
  function Republished(m: Machine, session: u32, sub: u32, number: u32): (r: (Status, seq<byte>)) {
    var k := SubAt(m, session, sub);
    if k == |m.subs| then (BadSubscriptionIdInvalid, [])
    else if m.subs[k].Retains(number) then (Good, m.subs[k].retained.value.message)
    else (BadMessageNotAvailable, [])
  }

  // ----- The tick

  /** One slot of publish_due: the cycle of a Subscription whose time has come, and then its timer. */
  function Served(m: Machine, k: nat, now: u64, moment: Moment): (r: (Machine, Outcome))
    requires m.Small() && k < |m.subs| && |moment.values| == |m.items|
    ensures r.0.Small() && |r.0.items| == |m.items| && |r.0.subs| == |m.subs|
  {
    var s := m.subs[k];
    if s.inUse && s.nextPublish <= now then
      var t := Cycle(m.items, s, m.queue, moment);
      var next := Saturated(NextTick(s.nextPublish, Effective(s.interval), now));
      (m.(items := t.items, subs := m.subs[k := t.sub.(nextPublish := next)], queue := t.queue), t.outcome)
    else (m, Idle)
  }

  /** publish_due over the first n slots. */
  function Swept(m: Machine, now: u64, moments: seq<Moment>, n: nat): (r: (Machine, seq<Outcome>))
    requires m.Small() && n <= |m.subs| == |moments| && forall k :: 0 <= k < |moments| ==> |moments[k].values| == |m.items|
    ensures r.0.Small() && |r.0.items| == |m.items| && |r.0.subs| == |m.subs| && |r.1| == n
  {
    if n == 0 then (m, [])
    else
      var before := Swept(m, now, moments, n - 1);
      var last := Served(before.0, n - 1, now, moments[n - 1]);
      (last.0, before.1 + [last.1])
  }

  /** The tick carries one input per slot. */
  predicate Sized(m: Machine, op: Op) {
    op.Ticking? ==>
      && |op.aggregates| == |op.samples| == |m.items|
      && |op.moments| == |m.subs| && forall k :: 0 <= k < |op.moments| ==> |op.moments[k].values| == |m.items|
  }

  /** mu_subscriptions_tick. */
  function Tick(m: Machine, now: u64, aggregates: seq<Option<Entry>>, samples: seq<Entry>, moments: seq<Moment>): (r: (Machine, seq<Outcome>))
    requires m.Small() && |aggregates| == |samples| == |m.items|
    requires |moments| == |m.subs| && forall k :: 0 <= k < |moments| ==> |moments[k].values| == |m.items|
  {
    Swept(m.(items := TickedAll(m.items, now, aggregates, samples)), now, moments, |m.subs|)
  }

  ghost function Next(m: Machine, op: Op): (r: (Machine, Reply))
    requires m.Small() && Sized(m, op)
  {
    match op
    case Subscribing(session, interval, lifetime, keepAlive, maxNotifications, enabled, now) =>
      var r := Subscribe(m, session, interval, lifetime, keepAlive, maxNotifications, enabled, now);
      (r.0, Said(r.1))
    case Modifying(session, sub, interval, lifetime, keepAlive, maxNotifications) =>
      var r := ChangeSub(m, session, sub, Parameters(interval, lifetime, keepAlive, maxNotifications));
      (r.0, Said(r.1))
    case Enabling(session, sub, enabled) =>
      var r := ChangeSub(m, session, sub, Publishing(enabled));
      (r.0, Said(r.1))
    case Unsubscribing(session, sub) =>
      var r := Unsubscribe(m, session, sub);
      (r.0, Said(r.1))
    case Monitoring(session, sub, config, mode, size, initial, now) =>
      var r := Monitor(m, session, sub, config, mode, size, initial, now);
      (r.0, Said(r.1))
    case Adjusting(session, sub, id, filter, interval, handle) =>
      var r := Adjust(m, session, sub, id, filter, interval, handle);
      (r.0, Said(r.1))
    case Switching(session, sub, id, mode) =>
      var r := Switch(m, session, sub, id, mode);
      (r.0, Said(r.1))
    case Linking(session, sub, id, linked) =>
      var r := Link(m, session, sub, id, linked);
      (r.0, Said(r.1))
    case Unlinking(session, sub, id, linked) =>
      var r := Unlink(m, session, sub, id, linked);
      (r.0, Said(r.1))
    case Unmonitoring(session, sub, id) =>
      var r := Unmonitor(m, session, sub, id);
      (r.0, Said(r.1))
    case Requesting(session, id, handle, now, acks) =>
      var r := Park(m, session, id, handle, now, acks);
      (r.0, Said(r.1))
    case Republishing(session, sub, number) =>
      var r := Republished(m, session, sub, number);
      (m, Reply(r.0, r.1, []))
    case Resending(session, sub) =>
      var r := ChangeSub(m, session, sub, Resend);
      (r.0, Said(r.1))
    case Closing(session) => (Closed(m, session, |m.subs|), Said(Good))
    case Ticking(now, aggregates, samples, moments) =>
      var r := Tick(m, now, aggregates, samples, moments);
      (r.0, Reply(Good, [], r.1))
  }
}
