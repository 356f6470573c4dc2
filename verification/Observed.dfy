/**
 What the caller of each service observes afterwards: the fields of the
 Subscription or item it named, and the refusal if there is none.
 */
module Observations {
  import opened Types
  import opened Timers
  import opened Ledgers
  import opened ItemStates
  import Items
  import opened Selection
  import opened PoolStates
  import opened Responses
  import opened SubStates
  import opened CycleStates
  import opened Registry
  import opened Machines
  import opened Runs
  import opened Retentions

  // ----- Subscriptions

  /** A new Subscription is in the first free slot, under an id no live one has, as asked for, with nothing sent. */
  lemma AfterCreateSubscription(m: Machine, op: Op, k: nat)
    requires m.Valid() && m.Small() && op.Subscribing?
    requires k < |m.subs| && !m.subs[k].inUse && forall j :: 0 <= j < k ==> m.subs[j].inUse
    ensures Next(m, op).1.status == Good && |Next(m, op).0.subs| == |m.subs|
    ensures var s := Next(m, op).0.subs[k];
      && s.inUse && s.session == op.session && s.id != 0 && (forall j :: 0 <= j < |m.subs| && m.subs[j].inUse ==> m.subs[j].id != s.id)
      && s.interval == op.interval && s.maxNotifications == op.maxNotifications && s.enabled == op.enabled
      && s.nextPublish == (op.now + op.interval) % 0x1_0000_0000_0000_0000
      && s.number == 1 && s.sent == [] && s.retained == None && s.keepAlive == 0 && !s.resend && !s.more
      && s.maxKeepAlive == (if op.keepAlive == 0 then 1 else if op.keepAlive > 0x5555_5555 then 0x5555_5555 else op.keepAlive)
      && s.lifetime == (if op.lifetime < 3 * s.maxKeepAlive then 3 * s.maxKeepAlive else op.lifetime)
      && Next(m, op).0.nextSub == (if s.id == 0xFFFF_FFFF then 1 else s.id + 1)
  {
    hide Machine.Small, Machine.Valid, AllFit, Fresh;
    var rows := SubRows(m.subs);
    assert forall j :: 0 <= j < |rows| ==> rows[j].inUse == m.subs[j].inUse;
    assert FreeRow(rows) == Some(k) by { FirstFreeIs(rows, k); }
    assert |rows| < MAX_ID by { SmallPools(m); }
    SomeFresh(rows, m.nextSub);
    NotLive(rows, Fresh(rows, m.nextSub, 0).value);
  }

  lemma NotLive(rows: seq<Row>, id: u32)
    requires !HasLive(rows, id)
    ensures forall j :: 0 <= j < |rows| && rows[j].inUse ==> rows[j].id != id
  {
  }

  lemma SmallPools(m: Machine)
    requires m.Small()
    ensures |m.subs| < MAX_ID && |m.items| < MAX_ID
  {
  }

  lemma FirstFreeIs(rows: seq<Row>, k: nat)
    requires k < |rows| && !rows[k].inUse && forall j :: 0 <= j < k ==> rows[j].inUse
    ensures FreeRow(rows) == Some(k)
  {
    hide FreeRow;
    var r := FreeRow(rows);
    if r.Some? { assert !(r.value < k) && !(k < r.value); }
  }

  /** Where none is free the service says so, and nothing changes. */
  lemma NoRoomForSubscription(m: Machine, op: Op)
    requires m.Small() && op.Subscribing? && forall j :: 0 <= j < |m.subs| ==> m.subs[j].inUse
    ensures Next(m, op) == (m, Reply(BadTooManySubscriptions, [], []))
  {
    hide Machine.Small, AllFit, Fresh;
    assert FreeRow(SubRows(m.subs)).None?;
  }

  /** ModifySubscription: the parameters are the new ones, revised as at creation; number, messages and timer stay. */
  lemma AfterModifySubscription(m: Machine, k: nat, interval: u32, lifetime: u32, keepAlive: u32, maxNotifications: u32)
    requires m.Valid() && m.Small() && k < |m.subs| && m.subs[k].inUse
    ensures var r := Next(m, Modifying(m.subs[k].session, m.subs[k].id, interval, lifetime, keepAlive, maxNotifications));
      && r.1.status == Good && |r.0.subs| == |m.subs|
      && var s, t := m.subs[k], r.0.subs[k];
        && t.interval == interval && t.maxNotifications == maxNotifications
        && t.maxKeepAlive == (if keepAlive == 0 then 1 else if keepAlive > 0x5555_5555 then 0x5555_5555 else keepAlive)
        && t.lifetime == (if lifetime < 3 * t.maxKeepAlive then 3 * t.maxKeepAlive else lifetime)
        && t == s.(interval := t.interval, maxNotifications := t.maxNotifications, maxKeepAlive := t.maxKeepAlive, lifetime := t.lifetime)
  {
    hide Machine.Small, Machine.Valid, Place;
    FoundAt(m, k);
  }

  /** SetPublishingMode: publishing is as asked for, and nothing else changed. */
  lemma AfterSetPublishingMode(m: Machine, k: nat, enabled: bool)
    requires m.Valid() && m.Small() && k < |m.subs| && m.subs[k].inUse
    ensures var r := Next(m, Enabling(m.subs[k].session, m.subs[k].id, enabled));
      r.1.status == Good && r.0 == m.(subs := m.subs[k := m.subs[k].(enabled := enabled)])
  {
    hide Machine.Small, Machine.Valid, Place;
    FoundAt(m, k);
  }

  /** ResendData: the next cycle will resend, and nothing else changed. */
  lemma AfterResendData(m: Machine, k: nat)
    requires m.Valid() && m.Small() && k < |m.subs| && m.subs[k].inUse
    ensures var r := Next(m, Resending(m.subs[k].session, m.subs[k].id));
      r.1.status == Good && r.0 == m.(subs := m.subs[k := m.subs[k].(resend := true)])
  {
    hide Machine.Small, Machine.Valid, Place;
    FoundAt(m, k);
  }

  /** DeleteSubscriptions: the Subscription and all its items are gone, every other slot is as it was. */
  lemma AfterDeleteSubscription(m: Machine, k: nat)
    requires m.Valid() && m.Small() && k < |m.subs| && m.subs[k].inUse
    ensures var r := Next(m, Unsubscribing(m.subs[k].session, m.subs[k].id));
      && r.1.status == Good && |r.0.subs| == |m.subs| && |r.0.items| == |m.items|
      && !r.0.subs[k].inUse && (forall j :: 0 <= j < |m.subs| && j != k ==> r.0.subs[j] == m.subs[j])
      && forall i :: 0 <= i < |m.items| ==>
           if m.items[i].inUse && m.items[i].subscription == m.subs[k].id then !r.0.items[i].inUse else r.0.items[i] == m.items[i]
  {
    hide Machine.Small, Machine.Valid, Place, CountLive;
    FoundAt(m, k);
  }

  /** The Subscription a step names, if it names one. */
  function Named(op: Op): (r: Option<u32>) {
    match op
    case Modifying(_, sub, _, _, _, _) => Some(sub)
    case Enabling(_, sub, _) => Some(sub)
    case Unsubscribing(_, sub) => Some(sub)
    case Monitoring(_, sub, _, _, _, _, _) => Some(sub)
    case Adjusting(_, sub, _, _, _, _) => Some(sub)
    case Switching(_, sub, _, _) => Some(sub)
    case Linking(_, sub, _, _) => Some(sub)
    case Unlinking(_, sub, _, _) => Some(sub)
    case Unmonitoring(_, sub, _) => Some(sub)
    case Republishing(_, sub, _) => Some(sub)
    case Resending(_, sub) => Some(sub)
    case _ => None
  }

  /** A step that names a Subscription the session does not have is refused for that, and changes nothing. */
  lemma StrangersAreRefused(m: Machine, op: Op)
    requires m.Small() && Named(op).Some?
    requires forall j :: 0 <= j < |m.subs| ==> !(m.subs[j].inUse && m.subs[j].id == Named(op).value && m.subs[j].session == op.session)
    ensures Next(m, op).0 == m && Next(m, op).1.status == BadSubscriptionIdInvalid
  {
    hide Machine.Small, Place, Closed, Swept, Fresh, CountLive, Set, Started;
    RowAt(m, op.session, Named(op).value);
    assert SubAt(m, op.session, Named(op).value) == |m.subs|;
  }

  // ----- Items

  /** The one slot of a live item is where it is found. */
  lemma ItemFoundAt(m: Machine, i: nat)
    requires m.Valid() && i < |m.items| && m.items[i].inUse
    ensures ItemAt(m, m.items[i].subscription, m.items[i].id) == i
  {
    hide Place, AllValid, AllGenuine, Accounted, CountLive;
    var rows, row := ItemRows(m.items), ItemRow(m.items[i]);
    assert rows[i] == row && row.inUse;
    assert forall j :: 0 <= j < i && rows[j].inUse ==> rows[j].id != rows[i].id;
    OnlyPlace(rows, row, i);
  }

  lemma BothFound(m: Machine, k: nat, i: nat)
    requires m.Valid() && k < |m.subs| && i < |m.items| && Belongs(m.items[i], m.subs[k])
    ensures Lacks(m, m.subs[k].session, m.subs[k].id, m.items[i].id) == Good && ItemAt(m, m.subs[k].id, m.items[i].id) == i
  {
    hide Machine.Valid, Place;
    FoundAt(m, k);
    ItemFoundAt(m, i);
  }

  /**
   CreateMonitoredItems: the item is in the first free slot under an id no live
   item has, with the mode's low byte, the settings asked for and a queue of the
   size asked for within 1 and the slot's depth; nothing is queued, and the
   value first read waits to be reported exactly if its status is Good.
   */
  lemma AfterCreateItem(m: Machine, op: Op, k: nat, i: nat)
    requires m.Valid() && m.Small() && op.Monitoring? && k < |m.subs| && m.subs[k].inUse && op.session == m.subs[k].session && op.sub == m.subs[k].id
    requires i < |m.items| && !m.items[i].inUse && forall j :: 0 <= j < i ==> m.items[j].inUse
    ensures Next(m, op).1.status == Good && |Next(m, op).0.items| == |m.items| && Next(m, op).0.active == m.active + 1
    ensures var s := Next(m, op).0.items[i];
      && s.inUse && s.subscription == op.sub && s.id != 0 && (forall j :: 0 <= j < |m.items| && m.items[j].inUse ==> m.items[j].id != s.id)
      && s.config == op.config && s.mode == op.mode % 256 && s.triggered == []
      && s.nextSample == (op.now + op.config.samplingInterval) % 0x1_0000_0000_0000_0000
      && s.depth == m.items[i].depth && s.size == (if op.size == 0 then 1 else if op.size > s.depth then s.depth else op.size)
      && s.ledger == EMPTY && !s.hasReported
      && s.hasValue == s.pending == (op.initial.Some? && op.initial.value.status == 0)
      && (op.initial.Some? ==> s.last == op.initial.value)
      && Next(m, op).0.nextItem == (if s.id == 0xFFFF_FFFF then 1 else s.id + 1)
  {
    hide Machine.Small, Machine.Valid, AllFit, Fresh, Place;
    FoundAt(m, k);
    var rows := ItemRows(m.items);
    assert forall j :: 0 <= j < |rows| ==> rows[j].inUse == m.items[j].inUse;
    assert FreeRow(rows) == Some(i) by { FirstFreeIs(rows, i); }
    assert |rows| < MAX_ID by { SmallPools(m); }
    SomeFresh(rows, m.nextItem);
    NotLive(rows, Fresh(rows, m.nextItem, 0).value);
  }

  /** ModifyMonitoredItems: sampling interval and client handle are the new ones; with a bad filter nothing changes. */
  lemma AfterModifyItem(m: Machine, k: nat, i: nat, filter: Status, interval: u32, handle: u32)
    requires m.Valid() && m.Small() && k < |m.subs| && i < |m.items| && Belongs(m.items[i], m.subs[k])
    ensures var r := Next(m, Adjusting(m.subs[k].session, m.subs[k].id, m.items[i].id, filter, interval, handle));
      && r.1.status == filter
      && (filter != Good ==> r.0 == m)
      && (filter == Good ==>
            && r.0 == m.(items := r.0.items) && |r.0.items| == |m.items|
            && r.0.items[i].config.samplingInterval == interval && r.0.items[i].config.clientHandle == handle
            && r.0.items[i] == m.items[i].(config := m.items[i].config.(samplingInterval := interval, clientHandle := handle)))
  {
    hide Machine.Small, Machine.Valid, Lacks, ItemAt;
    BothFound(m, k, i);
  }

  /** SetMonitoringMode: the mode is the low byte asked for, and nothing else changed. */
  lemma AfterSetMonitoringMode(m: Machine, k: nat, i: nat, mode: u32)
    requires m.Valid() && m.Small() && k < |m.subs| && i < |m.items| && Belongs(m.items[i], m.subs[k])
    ensures var r := Next(m, Switching(m.subs[k].session, m.subs[k].id, m.items[i].id, mode));
      r.1.status == Good && r.0 == m.(items := m.items[i := m.items[i].(mode := (mode % 256) as byte)])
  {
    hide Machine.Small, Machine.Valid, Lacks, ItemAt;
    BothFound(m, k, i);
  }

  /** SetTriggering, a link to add: there afterwards unless four others are; never twice. */
  lemma AfterAddLink(m: Machine, k: nat, i: nat, j: nat)
    requires m.Valid() && m.Small() && k < |m.subs| && i < |m.items| && Belongs(m.items[i], m.subs[k])
    requires j < |m.items| && Belongs(m.items[j], m.subs[k])
    ensures var linked, links := m.items[j].id, m.items[i].triggered;
      var r := Next(m, Linking(m.subs[k].session, m.subs[k].id, m.items[i].id, linked));
      var after := if linked in links || |links| >= 4 then links else links + [linked];
      r.1.status == (if linked in after then Good else BadTooManyOperations) && r.0 == m.(items := m.items[i := m.items[i].(triggered := after)])
  {
    hide Machine.Small, Machine.Valid, Lacks, ItemAt;
    BothFound(m, k, i);
    BothFound(m, k, j);
  }

  /** SetTriggering, a link to remove: the first such link is gone, the others are in order. */
  lemma AfterRemoveLink(m: Machine, k: nat, i: nat, j: nat, a: seq<u32>, b: seq<u32>)
    requires m.Valid() && m.Small() && k < |m.subs| && i < |m.items| && Belongs(m.items[i], m.subs[k])
    requires j < |m.items| && Belongs(m.items[j], m.subs[k])
    requires m.items[i].triggered == a + [m.items[j].id] + b && m.items[j].id !in a
    ensures var r := Next(m, Unlinking(m.subs[k].session, m.subs[k].id, m.items[i].id, m.items[j].id));
      r.1.status == Good && r.0 == m.(items := m.items[i := m.items[i].(triggered := a + b)])
  {
    hide Machine.Small, Machine.Valid, Lacks, ItemAt, Set;
    BothFound(m, k, i);
    BothFound(m, k, j);
    LinkGoes(m.items[i], a, b, m.items[j].id);
  }

  lemma LinkGoes(s: ItemState, a: seq<u32>, b: seq<u32>, linked: u32)
    requires s.triggered == a + [linked] + b && linked !in a
    ensures Set(s, RemoveLink(linked)) == (s.(triggered := a + b), Good)
  {
    hide WithoutLink;
    assert s.triggered[|a|] == linked && s.triggered[..|a|] == a && s.triggered[|a| + 1..] == b;
    Items.FirstGoes(s.triggered, linked, |a|);
  }

  /** DeleteMonitoredItems: the item is gone and counted off, and every other slot is as it was. */
  lemma AfterDeleteItem(m: Machine, k: nat, i: nat)
    requires m.Valid() && m.Small() && k < |m.subs| && i < |m.items| && Belongs(m.items[i], m.subs[k])
    ensures var r := Next(m, Unmonitoring(m.subs[k].session, m.subs[k].id, m.items[i].id));
      && r.1.status == Good && |r.0.items| == |m.items| && r.0 == m.(items := r.0.items, active := r.0.active) && r.0.active + 1 == m.active
      && !r.0.items[i].inUse && forall j :: 0 <= j < |m.items| && j != i ==> r.0.items[j] == m.items[j]
  {
    hide Machine.Small, Machine.Valid, Lacks, ItemAt;
    BothFound(m, k, i);
    SomeActive(m, i);
  }

  lemma SomeActive(m: Machine, i: nat)
    requires m.Valid() && i < |m.items| && m.items[i].inUse
    ensures m.active > 0
  {
    hide CountLive, AllValid, AllGenuine, Accounted, UniqueIds, Owned;
    var rows := ItemRows(m.items);
    assert rows[i].inUse;
    CountUpdate(rows, i, FREE);
  }

  /** A step that names an item the Subscription does not have is refused for that, and changes nothing. */
  lemma StrangeItemsAreRefused(m: Machine, op: Op, k: nat)
    requires m.Valid() && m.Small() && k < |m.subs| && m.subs[k].inUse
    requires op.Adjusting? || op.Switching? || op.Linking? || op.Unlinking? || op.Unmonitoring?
    requires op.session == m.subs[k].session && op.sub == m.subs[k].id
    requires forall j :: 0 <= j < |m.items| ==> !(m.items[j].inUse && m.items[j].id == op.id && m.items[j].subscription == op.sub)
    ensures Next(m, op).0 == m && Next(m, op).1.status == BadMonitoredItemIdInvalid
  {
    hide Machine.Small, Machine.Valid, Place, Closed, Swept, Fresh, Set;
    FoundAt(m, k);
    ItemRowAt(m, op.sub, op.id);
    assert ItemAt(m, op.sub, op.id) == |m.items|;
  }

  /**
   Publish: more than four acknowledgements are refused before any is looked at;
   otherwise all are, one after the other, and then the request takes the first
   free slot with their codes, or is refused if there is none.
   */
  lemma AfterPublish(m: Machine, session: u32, id: u32, handle: u32, now: u64, acks: seq<(u32, u32)>)
    requires m.Small()
    ensures var r, a := Next(m, Requesting(session, id, handle, now, acks)), AcknowledgeAll(m, session, acks);
      if |acks| > 4 then r == (m, Reply(BadTooManyOperations, [], []))
      else match FreeSlot(m.queue)
        case None => r == (a.0, Reply(BadTooManyPublishRequests, [], [])) && forall j :: 0 <= j < |m.queue| ==> m.queue[j].Waiting?
        case Some(at) => r.1.status == Good && r.0.subs == a.0.subs && IsParked(m, r.0, at, Waiting(session, id, handle, now, a.1))
  {
    hide Machine.Small, AcknowledgeAll;
    hide FreeSlot;
  }

  /** The request is in the first slot that was free, and every other slot is as it was. */
  predicate IsParked(m: Machine, r: Machine, at: nat, request: Request) {
    at < |m.queue| && m.queue[at].Free? && (forall j :: 0 <= j < at ==> m.queue[j].Waiting?) && r.queue == m.queue[at := request]
  }

  // ----- Cycles

  /** What waits is queued, and with ResendData what is read, or the last value with the read's status; nothing while publishing is off. */
  lemma PreparedExactly(ss: seq<ItemState>, sub: SubState, values: seq<Entry>, i: nat)
    requires AllFit(ss) && |values| == |ss| && i < |ss|
    ensures var s, r := ss[i], Ready(ss, sub, values)[i];
      var mine := s.inUse && s.subscription == sub.id;
      if !sub.enabled then r == s
      else
        r.ledger.enqueued == s.ledger.enqueued
          + (if mine && s.mode != 0 && s.pending && s.ledger.Queued() == [] && s.hasValue then [s.last] else [])
          + (if mine && s.mode == 2 && sub.resend
             then [Entry(if values[i].status == 0 then values[i].value else if s.hasValue then s.last.value else VNull, values[i].status)]
             else [])
  {
    hide Enqueue;
    EachFits(ss, i);
  }

  /**
   A Subscription gets its cycle in a tick exactly if it is due; then it is due
   again after now, at a whole number of intervals, and not an interval later
   than need be, unless time runs out.
   */
  lemma ServedOnTime(m: Machine, k: nat, now: u64, moment: Moment)
    requires m.Small() && k < |m.subs| && |moment.values| == |m.items|
    ensures var s, r := m.subs[k], Served(m, k, now, moment);
      if s.inUse && s.nextPublish <= now then
        var i, t := if s.interval == 0 then 1 else s.interval, Cycle(m.items, s, m.queue, moment);
        var next := r.0.subs[k].nextPublish;
        && r.1 == t.outcome && r.0.items == t.items && r.0.queue == t.queue && r.0.subs[k] == t.sub.(nextPublish := next)
        && next > now - (if now == 0xFFFF_FFFF_FFFF_FFFF then 1 else 0)
        && (next < 0xFFFF_FFFF_FFFF_FFFF ==> next <= now + i && exists j: nat :: OnGrid(s.nextPublish, i, j, next))
      else r == (m, Idle)
  {
    hide Cycle, AllFit;
    var s := m.subs[k];
    if s.inUse && s.nextPublish <= now {
      var i := Effective(s.interval);
      NextTickIsLeast(s.nextPublish, i, now);
      assert OnGrid(s.nextPublish, i, (now - s.nextPublish) / i + 1, NextTick(s.nextPublish, i, now));
    }
  }

  /** x is j intervals after where the timer stood. */
  predicate OnGrid(from: nat, interval: nat, j: nat, x: nat) {
    x == from + j * interval
  }
}
