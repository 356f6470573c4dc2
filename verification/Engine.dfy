/**
 The subscription engine: the pools of Subscriptions, MonitoredItems and waiting
 PublishRequests, and the operations on them. Every operation is proved to take
 the pools exactly where the step of Machine.dfy takes their states, so whatever
 Runs.dfy proves of the machine holds of these objects.
 */
module Engines {
  import opened Types
  import opened Timers
  import opened Ledgers
  import opened ItemStates
  import opened Items
  import opened Selection
  import opened PoolStates
  import opened Publishing
  import opened Draining
  import opened Responses
  import opened SubStates
  import opened CycleStates
  import opened Cycles
  import opened Registry
  import opened Machines
  import opened Runs

  /** The rows of the slots, as the scans read them. */
  function RowsOf(items: seq<MonitoredItem>): (r: seq<Row>)
    reads items
    ensures |r| == |items| && forall i :: 0 <= i < |items| ==> r[i] == Row(items[i].inUse, items[i].id, items[i].subscriptionId)
  {
    if items == [] then []
    else
      var n := |items| - 1;
      RowsOf(items[..n]) + [Row(items[n].inUse, items[n].id, items[n].subscriptionId)]
  }

  function OwnersOf(subs: seq<Subscription>): (r: seq<Row>)
    reads subs
    ensures |r| == |subs| && forall k :: 0 <= k < |subs| ==> r[k] == Row(subs[k].inUse, subs[k].id, subs[k].sessionId)
  {
    if subs == [] then []
    else
      var n := |subs| - 1;
      OwnersOf(subs[..n]) + [Row(subs[n].inUse, subs[n].id, subs[n].sessionId)]
  }

  ghost function SubStatesOf(subs: seq<Subscription>): (r: seq<SubState>)
    reads subs
    ensures |r| == |subs| && forall k :: 0 <= k < |subs| ==> r[k] == subs[k].State()
  {
    seq(|subs|, k requires 0 <= k < |subs| reads subs => subs[k].State())
  }

  lemma RowsAre(items: seq<MonitoredItem>)
    ensures RowsOf(items) == ItemRows(StatesOf(items))
  {
    hide RowsOf;
  }

  lemma OwnersAre(subs: seq<Subscription>)
    ensures OwnersOf(subs) == SubRows(SubStatesOf(subs))
  {
    hide OwnersOf;
  }

  ghost predicate Separate(subs: seq<Subscription>) {
    forall i, j :: 0 <= i < j < |subs| ==> subs[i] != subs[j]
  }

  // ----- One item changes, no other does

  method ClaimOne(items: seq<MonitoredItem>, i: nat, item: MonitoredItem, id: u32, sub: u32, ghost since: nat)
    requires Sound(items) && Apart(items) && i < |items| && item == items[i]
    modifies item
    ensures Sound(items) && item.State().Untouched()
    ensures StatesOf(items) == old(StatesOf(items))[i := Blank(item.queue.Length).(inUse := true, id := id, subscription := sub, since := since)]
  {
    hide ItemState.Valid, RingContents, NumberOf, MonitoredItem.State;
    item.Claim(id, sub, since);
    forall j | 0 <= j < |items| ensures items[j].Valid() {
      if j != i { assert items[j] != item; }
    }
  }

  method ReleaseOne(items: seq<MonitoredItem>, i: nat, item: MonitoredItem)
    requires Sound(items) && Apart(items) && i < |items| && item == items[i]
    modifies item
    ensures Sound(items) && StatesOf(items) == old(StatesOf(items))[i := Blank(item.queue.Length)]
  {
    hide ItemState.Valid, RingContents, NumberOf, MonitoredItem.State;
    item.Clear();
    forall j | 0 <= j < |items| ensures items[j].Valid() {
      if j != i { assert items[j] != item; }
    }
  }

  method ConfigureOne(items: seq<MonitoredItem>, i: nat, item: MonitoredItem, config: Config, mode: byte, nextSample: u64, size: u32,
                      initial: Option<Entry>)
    requires Sound(items) && Apart(items) && i < |items| && item == items[i] && item.State().Untouched()
    modifies item`config, item`mode, item`nextSample, item`queueSize, item`queueOverflow, item`head, item`tail, item`count,
             item`lastValue, item`lastStatus, item`hasValue, item`pending
    ensures Sound(items)
    ensures StatesOf(items) == old(StatesOf(items))[i := old(item.State()).Configured(config, mode, nextSample, size, initial)]
  {
    hide ItemState.Valid, ItemState.Configured, ItemState.Untouched, RingContents, NumberOf, MonitoredItem.State;
    item.Configure(config, mode, nextSample, size, initial);
    forall j | 0 <= j < |items| ensures items[j].Valid() {
      if j != i { assert items[j] != item; }
    }
  }

  /** ModifyMonitoredItems, SetMonitoringMode or SetTriggering on one item. */
  method SetOne(items: seq<MonitoredItem>, i: nat, item: MonitoredItem, c: Setting) returns (s: Status)
    requires Sound(items) && Apart(items) && i < |items| && item == items[i]
    modifies item`config, item`mode, item`triggered
    ensures Sound(items)
    ensures var r := Set(old(item.State()), c);
      s == r.1 && StatesOf(items) == old(StatesOf(items))[i := r.0]
  {
    hide ItemState.Valid, RingContents, NumberOf, MonitoredItem.State, Set;
    s := Apply(item, c);
    forall j | 0 <= j < |items| ensures items[j].Valid() {
      if j != i { assert items[j] != item; }
    }
  }

  method Apply(item: MonitoredItem, c: Setting) returns (s: Status)
    requires item.Valid()
    modifies item`config, item`mode, item`triggered
    ensures item.Valid() && (item.State(), s) == Set(old(item.State()), c)
  {
    hide MonitoredItem.Valid, WithLink, WithoutLink;
    s := Good;
    match c {
      case Sampling(interval, handle) => item.Modify(interval, handle);
      case Mode(mode) => item.SetMode(mode);
      case AddLink(linked) => s := item.AddLink(linked);
      case RemoveLink(linked) => s := item.RemoveLink(linked);
    }
  }

  // ----- Sampling

  /** One live item in mu_subscriptions_tick: an aggregate if one is due, then a sample if one is. */
  method SampleOne(items: seq<MonitoredItem>, i: nat, item: MonitoredItem, now: u64, aggregate: Option<Entry>, sample: Entry)
    requires Sound(items) && Apart(items) && i < |items| && item == items[i] && item.inUse
    modifies item`lastValue, item`lastStatus, item`hasValue, item`nextSample, item`queueSize, item`head, item`tail, item`count,
             item`queueOverflow, item`lastReported, item`hasReported, item`pending, item`ledger, item.queue
    ensures Sound(items) && old(item.State()).Fits() && item.State() == Ticked(old(item.State()), now, aggregate, sample)
  {
    hide ItemState.Valid, ItemState.Sampled, ItemState.Report, RingContents, NumberOf, MonitoredItem.Holds;
    item.HoldsFits();
    if item.mode != DISABLED {
      if item.config.hasAggregate && aggregate.Some? {
        item.PublishAggregate(aggregate.value);
        item.HoldsFits();
      }
      if item.nextSample <= now {
        item.Sample(sample.value, sample.status, now);
      }
    }
    forall j | 0 <= j < |items| ensures items[j].Valid() {
      if j != i { assert items[j] != item && items[j].queue != item.queue; }
    }
  }

  /** One slot of the sampling loop. */
  method SampleIf(items: seq<MonitoredItem>, i: nat, item: MonitoredItem, now: u64, aggregate: Option<Entry>, sample: Entry) returns (live: bool)
    requires Sound(items) && Apart(items) && i < |items| && item == items[i]
    modifies item`lastValue, item`lastStatus, item`hasValue, item`nextSample, item`queueSize, item`head, item`tail, item`count,
             item`queueOverflow, item`lastReported, item`hasReported, item`pending, item`ledger, item.queue
    ensures Sound(items) && live == old(item.State()).inUse
    ensures old(item.State()).Fits() && item.State() == Ticked(old(item.State()), now, aggregate, sample)
  {
    hide Sound, Ticked, ItemState.Fits, MonitoredItem.State;
    assert item.State().Fits() by { FitsAt(items, i); }
    InUse(item);
    live := item.inUse;
    if live {
      SampleOne(items, i, item, now, aggregate, sample);
    } else {
      NotSampled(item.State(), now, aggregate, sample);
    }
  }

  lemma FitsAt(items: seq<MonitoredItem>, i: nat)
    requires Sound(items) && i < |items|
    ensures items[i].State().Fits()
  {
    hide Sound, MonitoredItem.State, AllFit, ItemState.Fits;
    SoundStates(items);
    EachFits(StatesOf(items), i);
  }

  /** The sampling loop: stopping after `active` live slots leaves no due item unsampled. */
  method SampleLive(items: seq<MonitoredItem>, active: nat, now: u64, aggregates: seq<Option<Entry>>, samples: seq<Entry>)
    requires Sound(items) && Apart(items) && |aggregates| == |samples| == |items| && active == CountLive(ItemRows(StatesOf(items)))
    modifies items`lastValue, items`lastStatus, items`hasValue, items`nextSample, items`queueSize, items`head, items`tail,
             items`count, items`queueOverflow, items`lastReported, items`hasReported, items`pending, items`ledger, Queues(items)
    ensures Sound(items) && AllFit(old(StatesOf(items))) && StatesOf(items) == TickedAll(old(StatesOf(items)), now, aggregates, samples)
  {
    hide Sound, CountLive, Ticked, AllFit, ItemState.Fits, MonitoredItem.State, TickedAll;
    SoundStates(items);
    ghost var ss := StatesOf(items);
    ghost var tt := TickedAll(ss, now, aggregates, samples);
    ghost var rows := ItemRows(ss);
    var i, checked := 0, 0;
    NoneCounted(rows);
    while i < |items| && checked < active
      invariant i <= |items| && checked == CountLive(rows[..i]) && Sound(items)
      invariant forall k :: 0 <= k < i ==> items[k].State() == tt[k]
      invariant forall k :: i <= k < |items| ==> items[k].State() == ss[k]
    {
      OneCounted(rows, i);
      EachTicked(ss, now, aggregates, samples, i);
      assert items[i].State() == ss[i];
      var live := SampleIf(items, i, items[i], now, aggregates[i], samples[i]);
      if live {
        checked := checked + 1;
      }
      i := i + 1;
    }
    PrefixGrows(rows, i);
    forall k | i <= k < |items| ensures items[k].State() == tt[k] {
      EachTicked(ss, now, aggregates, samples, k);
      AllSeen(rows, i, k);
      NotSampled(ss[k], now, aggregates[k], samples[k]);
    }
  }

  lemma EachTicked(ss: seq<ItemState>, now: u64, aggregates: seq<Option<Entry>>, samples: seq<Entry>, i: nat)
    requires AllFit(ss) && |aggregates| == |samples| == |ss| && i < |ss|
    ensures ss[i].Fits() && TickedAll(ss, now, aggregates, samples)[i] == Ticked(ss[i], now, aggregates[i], samples[i])
  {
    hide Ticked, ItemState.Fits;
    EachFits(ss, i);
  }

  lemma InUse(item: MonitoredItem)
    ensures item.State().inUse == item.inUse
  {
  }

  lemma NotSampled(s: ItemState, now: u64, aggregate: Option<Entry>, sample: Entry)
    requires s.Fits() && !s.inUse
    ensures Ticked(s, now, aggregate, sample) == s
  {
  }

  lemma NoneCounted(rows: seq<Row>)
    ensures CountLive(rows[..0]) == 0
  {
  }

  lemma OneCounted(rows: seq<Row>, i: nat)
    requires i < |rows|
    ensures CountLive(rows[..i + 1]) == CountLive(rows[..i]) + if rows[i].inUse then 1 else 0
  {
    assert rows[..i + 1][..i] == rows[..i];
  }

  // ----- Publishing what is due

  /** The cycle of a Subscription whose time has come, then its timer. */
  method PublishStep(items: seq<MonitoredItem>, sub: Subscription, queue: array<Request>, now: u64, m: Moment) returns (o: Outcome)
    requires Sound(items) && Apart(items) && |m.values| == |items| <= MAX_ITEMS && sub.nextPublish <= now
    modifies items`lastValue, items`lastStatus, items`hasValue, items`queueSize, items`head, items`tail, items`count,
             items`queueOverflow, items`lastReported, items`hasReported, items`pending, items`ledger, Queues(items), queue,
             sub`more, sub`resendPending, sub`keepAlive, sub`sequenceNumber, sub`retransmit, sub`sent, sub`nextPublish
    ensures Sound(items) && AllFit(old(StatesOf(items)))
    ensures var s := old(sub.State());
      var t := Cycle(old(StatesOf(items)), s, old(queue[..]), m);
      Turn(StatesOf(items), sub.State(), queue[..], o)
        == t.(sub := t.sub.(nextPublish := Saturated(NextTick(s.nextPublish, Effective(s.interval), now))))
  {
    hide Sound, StatesOf, AllFit, Cycle, Saturated, NextTick;
    SoundStates(items);
    o := PublishOne(items, sub, queue, m);
    sub.AdvanceTimer(now);
  }

  /** One Subscription is started or cleared, no other changes. */
  method StartOne(subs: seq<Subscription>, k: nat, sub: Subscription, id: u32, session: u32, interval: u32, lifetimeAsked: u32,
                  keepAliveAsked: u32, maxNotifications: u32, enabled: bool, now: u64)
    requires Separate(subs) && k < |subs| && sub == subs[k]
    modifies sub
    ensures SubStatesOf(subs)
      == old(SubStatesOf(subs))[k := Started(id, session, interval, lifetimeAsked, keepAliveAsked, maxNotifications, enabled, now)]
  {
    hide Subscription.State, Started;
    sub.Start(id, session, interval, lifetimeAsked, keepAliveAsked, maxNotifications, enabled, now);
  }

  method ClearOne(subs: seq<Subscription>, k: nat, sub: Subscription)
    requires Separate(subs) && k < |subs| && sub == subs[k]
    modifies sub
    ensures SubStatesOf(subs) == old(SubStatesOf(subs))[k := BLANK]
  {
    hide Subscription.State;
    sub.Clear();
  }

  /** ModifySubscription, SetPublishingMode or ResendData on one Subscription. */
  method ChangeOne(subs: seq<Subscription>, k: nat, sub: Subscription, c: Change)
    requires Separate(subs) && k < |subs| && sub == subs[k]
    modifies sub`interval, sub`maxKeepAlive, sub`lifetime, sub`maxNotifications, sub`publishingEnabled, sub`resendPending
    ensures SubStatesOf(subs) == old(SubStatesOf(subs))[k := Machines.Changed(old(sub.State()), c)]
  {
    hide Revised;
    match c {
      case Parameters(interval, lifetime, keepAlive, maxNotifications) => sub.Modify(interval, lifetime, keepAlive, maxNotifications);
      case Publishing(enabled) => sub.publishingEnabled := enabled;
      case Resend => sub.resendPending := true;
    }
  }

  method AcknowledgeOne(subs: seq<Subscription>, k: nat, sub: Subscription, number: u32) returns (s: Status)
    requires Separate(subs) && k < |subs| && sub == subs[k]
    modifies sub`retransmit
    ensures s == (if old(sub.State()).Retains(number) then Good else BadSequenceNumberUnknown)
    ensures SubStatesOf(subs) == old(SubStatesOf(subs))[k := old(sub.State()).Acknowledged(number)]
  {
    hide Subscription.State, SubState.Acknowledged, SubState.Retains;
    s := sub.Acknowledge(number);
  }

  /** The first free slot, under the first fresh id; it fails only when every slot is taken. */
  method Register(subs: seq<Subscription>, next: u32, session: u32, interval: u32, lifetimeAsked: u32, keepAliveAsked: u32,
                  maxNotifications: u32, enabled: bool, now: u64) returns (s: Status, after: u32)
    requires Separate(subs) && |subs| < MAX_ID
    modifies subs
    ensures (SubStatesOf(subs), after, s)
      == Registered(old(SubStatesOf(subs)), next, session, interval, lifetimeAsked, keepAliveAsked, maxNotifications, enabled, now)
  {
    hide Separate, SubStatesOf, SubRows, Started, Fresh, FreeRow, OwnersOf;
    ghost var rows := SubRows(SubStatesOf(subs));
    OwnersAre(subs);
    SomeFresh(rows, next);
    var found, slot, id;
    found, slot, id, after := PickSlot(OwnersOf(subs), next);
    if !found {
      return BadTooManySubscriptions, after;
    }
    StartOne(subs, slot, subs[slot], id, session, interval, lifetimeAsked, keepAliveAsked, maxNotifications, enabled, now);
    s := Good;
  }

  /** mu_monitored_item_alloc and the rest of item creation: the first free slot, under the first fresh id. */
  method TakeIn(items: seq<MonitoredItem>, next: u32, w: Wanted, ghost since: nat) returns (s: Status, after: u32)
    requires Sound(items) && Apart(items) && |items| < MAX_ID
    modifies items
    ensures Sound(items) && (StatesOf(items), after, s) == Admitted(old(StatesOf(items)), next, since, w)
  {
    hide Sound, Apart, StatesOf, ItemRows, Fresh, FreeRow, RowsOf, Created;
    ghost var ss := StatesOf(items);
    RowsAre(items);
    SomeFresh(ItemRows(ss), next);
    var found, slot, id;
    found, slot, id, after := PickSlot(RowsOf(items), next);
    if !found {
      return BadTooManyMonitoredItems, after;
    }
    DepthAt(items, slot);
    Occupy(items, slot, items[slot], id, w, since);
    s := Good;
  }

  /** The slot is taken into use and set up. */
  method Occupy(items: seq<MonitoredItem>, i: nat, item: MonitoredItem, id: u32, w: Wanted, ghost since: nat)
    requires Sound(items) && Apart(items) && i < |items| && item == items[i]
    modifies item
    ensures Sound(items) && StatesOf(items) == old(StatesOf(items))[i := Created(item.queue.Length, id, since, w)]
  {
    hide Sound, Apart, StatesOf, ItemState.Configured, ItemState.Untouched, Blank, MonitoredItem.State;
    ClaimOne(items, i, item, id, w.sub, since);
    StateAt(items, i);
    ConfigureOne(items, i, item, w.config, w.mode, w.nextSample, w.size, w.initial);
  }

  lemma DepthAt(items: seq<MonitoredItem>, i: nat)
    requires i < |items|
    ensures StatesOf(items)[i].depth == items[i].queue.Length
  {
  }

  lemma StateAt(items: seq<MonitoredItem>, i: nat)
    requires i < |items|
    ensures StatesOf(items)[i] == items[i].State()
  {
  }

  class Engine {
    const items: seq<MonitoredItem>
    const subs: seq<Subscription>
    const queue: array<Request>
    var nextSubscriptionId: u32
    var nextItemId: u32
    var active: nat

    ghost function State(): (r: Machine)
      reads this, items, subs, queue
    {
      Machine(StatesOf(items), SubStatesOf(subs), queue[..], nextSubscriptionId, nextItemId, active)
    }

    ghost predicate Valid()
      reads this, items, set i | 0 <= i < |items| :: items[i].queue, subs, queue
    {
      Apart(items) && Separate(subs) && Sound(items) && State().Valid()
    }

    /** mu_subscriptions_init over freshly allocated slots. */
    constructor (items: seq<MonitoredItem>, subs: seq<Subscription>, queue: array<Request>)
      requires |items| <= MAX_ITEMS && |subs| < MAX_ID && Apart(items) && Separate(subs) && Sound(items)
      requires forall i :: 0 <= i < |items| ==> !items[i].inUse
      requires forall k :: 0 <= k < |subs| ==> subs[k].State() == BLANK
      ensures Valid() && this.items == items && this.subs == subs && this.queue == queue
      ensures State() == Machine(StatesOf(items), SubStatesOf(subs), queue[..], 1, 1, 0)
    {
      hide Sound, Apart, Separate, MonitoredItem.State, Subscription.State;
      this.items, this.subs, this.queue := items, subs, queue;
      nextSubscriptionId, nextItemId, active := 1, 1, 0;
      new;
      SoundStates(items);
      forall i | 0 <= i < |items| ensures !items[i].State().inUse { InUse(items[i]); }
      EmptyIsValid(State());
    }

    lemma Parts()
      requires Valid()
      ensures Apart(items) && Separate(subs) && Sound(items) && State().Valid()
    {
    }

    // ----- Finding

    /** mu_subscription_find. */
    method FindSub(session: u32, sub: u32) returns (k: nat)
      ensures k == SubAt(State(), session, sub)
    {
      hide Place, StatesOf;
      OwnersAre(subs);
      k := Lookup(OwnersOf(subs), sub, session);
    }

    /** find_monitored_item_in_subscription. */
    method FindInSubscription(sub: u32, id: u32) returns (i: nat)
      ensures i == ItemAt(State(), sub, id)
    {
      hide Place, SubStatesOf;
      RowsAre(items);
      i := Lookup(RowsOf(items), id, sub);
    }

    /** find_monitored_item: stopping after `active` live slots misses none. */
    method FindItem(sub: u32, id: u32) returns (i: nat)
      requires Valid()
      ensures i == ItemAt(State(), sub, id)
    {
      hide Place, SubStatesOf, Sound, Apart, Separate, AllValid, AllGenuine, Accounted, CountLive, UniqueIds, Owned;
      RowsAre(items);
      i := LookupActive(RowsOf(items), active, id, sub);
    }

    /** The slot of a Subscription's item, for a session that has the Subscription. */
    method Locate(session: u32, sub: u32, id: u32) returns (s: Status, i: nat)
      ensures s == Lacks(State(), session, sub, id) && (s == Good ==> i == ItemAt(State(), sub, id))
    {
      hide Place, StatesOf, SubStatesOf;
      i := 0;
      var k := FindSub(session, sub);
      if k == |subs| {
        return BadSubscriptionIdInvalid, i;
      }
      i := FindInSubscription(sub, id);
      s := if i == |items| then BadMonitoredItemIdInvalid else Good;
    }

    /** The slot of the triggering item, provided both items are there. */
    method LocateBoth(session: u32, sub: u32, id: u32, linked: u32) returns (s: Status, i: nat)
      ensures s == LacksOne(State(), session, sub, id, linked) && (s == Good ==> i == ItemAt(State(), sub, id))
    {
      hide Lacks, ItemAt, StatesOf, SubStatesOf;
      s, i := Locate(session, sub, id);
      if s == Good {
        var j := FindInSubscription(sub, linked);
        if j == |items| {
          s := BadMonitoredItemIdInvalid;
        }
      }
    }

    /** The same, by the scan that stops early. */
    method LocateLive(session: u32, sub: u32, id: u32) returns (s: Status, i: nat)
      requires Valid()
      ensures s == Lacks(State(), session, sub, id) && (s == Good ==> i == ItemAt(State(), sub, id))
    {
      hide Place, StatesOf, SubStatesOf, Engine.Valid;
      i := 0;
      var k := FindSub(session, sub);
      if k == |subs| {
        return BadSubscriptionIdInvalid, i;
      }
      i := FindItem(sub, id);
      s := if i == |items| then BadMonitoredItemIdInvalid else Good;
    }

    // ----- Subscriptions

    /** mu_subscription_create: it fails only when every slot is taken. */
    method CreateSubscription(session: u32, interval: u32, lifetimeAsked: u32, keepAliveAsked: u32, maxNotifications: u32, enabled: bool,
                              now: u64) returns (s: Status)
      requires Valid()
      modifies `nextSubscriptionId, `nextItemId, `active, subs
      ensures Valid() && old(State()).Small()
      ensures (State(), s) == Subscribe(old(State()), session, interval, lifetimeAsked, keepAliveAsked, maxNotifications, enabled, now)
    {
      hide Sound, Apart, Separate, StatesOf, SubStatesOf, Machine.Valid, Machine.Small, Registered;
      ghost var m := State();
      ValidIsSmall(m);
      SubscribeValid(m, session, interval, lifetimeAsked, keepAliveAsked, maxNotifications, enabled, now);
      Slots(m);
      var next;
      s, next := RegisterIn(session, interval, lifetimeAsked, keepAliveAsked, maxNotifications, enabled, now);
      Tally(next, nextItemId, active);
    }

    /** A new Subscription touches no item and no request. */
    method RegisterIn(session: u32, interval: u32, lifetimeAsked: u32, keepAliveAsked: u32, maxNotifications: u32, enabled: bool, now: u64)
      returns (s: Status, after: u32)
      requires Separate(subs) && |subs| < MAX_ID && Sound(items)
      modifies subs
      ensures Sound(items) && StatesOf(items) == old(StatesOf(items)) && queue[..] == old(queue[..])
      ensures (SubStatesOf(subs), after, s)
        == Registered(old(SubStatesOf(subs)), nextSubscriptionId, session, interval, lifetimeAsked, keepAliveAsked, maxNotifications, enabled, now)
    {
      hide Separate, SubStatesOf, Registered, MonitoredItem.State, Sound;
      ghost var ss, q := StatesOf(items), queue[..];
      s, after := Register(subs, nextSubscriptionId, session, interval, lifetimeAsked, keepAliveAsked, maxNotifications, enabled, now);
      assert Sound(items);
      assert forall i :: 0 <= i < |items| ==> items[i].State() == ss[i];
      assert queue[..] == q;
    }

    /** The counters of the pools. */
    method Tally(nextSub: u32, nextItem: u32, live: nat)
      modifies `nextSubscriptionId, `nextItemId, `active
      ensures nextSubscriptionId == nextSub && nextItemId == nextItem && active == live
    {
      nextSubscriptionId, nextItemId, active := nextSub, nextItem, live;
    }

    /** ModifySubscription, SetPublishingMode and ResendData for one Subscription. */
    method ChangeSubscription(session: u32, sub: u32, c: Change) returns (s: Status)
      requires Valid()
      modifies subs`interval, subs`maxKeepAlive, subs`lifetime, subs`maxNotifications, subs`publishingEnabled, subs`resendPending
      ensures Valid() && (State(), s) == ChangeSub(old(State()), session, sub, c)
    {
      hide Sound, Apart, Separate, StatesOf, SubStatesOf, Machine.Valid, Place, Machines.Changed, Subscription.State;
      ghost var m := State();
      ChangeSubValid(m, session, sub, c);
      var k := FindSub(session, sub);
      if k == |subs| {
        return BadSubscriptionIdInvalid;
      }
      SubAtIs(subs, k);
      ChangeIn(k, c);
      s := Good;
    }

    /** A changed Subscription touches no item and no request. */
    method ChangeIn(k: nat, c: Change)
      requires Separate(subs) && Sound(items) && k < |subs|
      modifies subs`interval, subs`maxKeepAlive, subs`lifetime, subs`maxNotifications, subs`publishingEnabled, subs`resendPending
      ensures Sound(items) && StatesOf(items) == old(StatesOf(items)) && queue[..] == old(queue[..])
      ensures SubStatesOf(subs) == old(SubStatesOf(subs))[k := Machines.Changed(old(subs[k].State()), c)]
    {
      hide Separate, SubStatesOf, Machines.Changed, MonitoredItem.State, Sound, Subscription.State;
      ghost var ss, q := StatesOf(items), queue[..];
      ChangeOne(subs, k, subs[k], c);
      assert Sound(items);
      assert forall i :: 0 <= i < |items| ==> items[i].State() == ss[i];
      assert queue[..] == q;
    }

    /** Clears the items of a subscription, counting each one off. */
    method ReleaseItems(sub: u32)
      requires Sound(items) && Apart(items) && active == CountLive(ItemRows(StatesOf(items)))
      modifies `active, items
      ensures Sound(items) && StatesOf(items) == Cleared(old(StatesOf(items)), sub)
      ensures active == CountLive(ItemRows(StatesOf(items)))
    {
      hide Sound, CountLive, MonitoredItem.State;
      ghost var ss := StatesOf(items);
      for n := 0 to |items|
        invariant Sound(items) && active == CountLive(ItemRows(StatesOf(items)))
        invariant forall k :: 0 <= k < n ==> items[k].State() == Cleared(ss, sub)[k]
        invariant forall k :: n <= k < |items| ==> items[k].State() == ss[k]
      {
        Identity(items[n]);
        if items[n].inUse && items[n].subscriptionId == sub {
          OneLess(StatesOf(items), n, Blank(items[n].queue.Length));
          Forget(n);
        }
      }
    }

    /** The Subscription of slot k goes, and its items with it. */
    method DropSlot(k: nat)
      requires Valid() && k < |subs| && subs[k].inUse
      modifies `active, items, subs
      ensures Valid() && State() == Dropping(old(State()), k)
    {
      hide Sound, Apart, Separate, StatesOf, SubStatesOf, Machine.Valid, CountLive, Cleared;
      ghost var m := State();
      assert m.subs[k].id == subs[k].id && m.subs[k].inUse by { SubIdentity(subs, k); }
      DroppingValid(m, k);
      CountedLive(m);
      ReleaseItems(subs[k].id);
      assert SubStatesOf(subs) == m.subs;
      ClearOne(subs, k, subs[k]);
      assert StatesOf(items) == Cleared(m.items, m.subs[k].id) && Sound(items);
    }

    /** mu_subscription_delete: the Subscription goes, and its items with it. */
    method DeleteSubscription(session: u32, sub: u32) returns (s: Status)
      requires Valid()
      modifies `active, items, subs
      ensures Valid() && (State(), s) == Unsubscribe(old(State()), session, sub)
    {
      hide Engine.Valid, Place, Dropping, StatesOf, SubStatesOf;
      RowAt(State(), session, sub);
      var k := FindSub(session, sub);
      if k == |subs| {
        return BadSubscriptionIdInvalid;
      }
      SubIdentity(subs, k);
      DropSlot(k);
      s := Good;
    }

    /** The loop of CloseSession, which deletes the Subscriptions of a session id. */
    method CloseSubscriptions(session: u32)
      requires Valid()
      modifies `active, items, subs
      ensures Valid() && State() == Closed(old(State()), session, |subs|)
    {
      hide Engine.Valid, Place, Dropping, StatesOf, SubStatesOf;
      ghost var m := State();
      for n := 0 to |subs|
        invariant Valid() && State() == Closed(m, session, n)
      {
        SubIdentity(subs, n);
        if subs[n].inUse && subs[n].sessionId == session {
          DropSlot(n);
        }
      }
    }

    // ----- Items

    /** CreateMonitoredItems for one item: it fails only for want of the Subscription or of a free slot. */
    method CreateItem(session: u32, sub: u32, config: Config, mode: u32, size: u32, initial: Option<Entry>, now: u64) returns (s: Status)
      requires Valid()
      modifies `nextSubscriptionId, `nextItemId, `active, items
      ensures Valid() && old(State()).Small()
      ensures (State(), s) == Monitor(old(State()), session, sub, config, mode, size, initial, now)
    {
      hide Engine.Valid, StatesOf, SubStatesOf, Machine.Valid, Machine.Small, Machines.Admit, Place;
      ghost var m := State();
      Parts();
      ValidIsSmall(m);
      RowAt(m, session, sub);
      var k := FindSub(session, sub);
      if k == |subs| {
        return BadSubscriptionIdInvalid;
      }
      s := AddItem(k, Wanted(sub, config, (mode % 256) as byte, (now + config.samplingInterval) % TWO64, size, initial));
    }

    method AddItem(k: nat, w: Wanted) returns (s: Status)
      requires Valid() && k < |State().subs| && State().subs[k].inUse && State().subs[k].id == w.sub
      modifies `nextSubscriptionId, `nextItemId, `active, items
      ensures Valid() && old(State()).Small() && (State(), s) == Machines.Admit(old(State()), |old(State()).subs[k].sent|, w)
    {
      hide Sound, Apart, Separate, StatesOf, SubStatesOf, Machine.Valid, Machine.Small, Admitted;
      ghost var m := State();
      AdmitValid(m, k, w);
      Slots(m);
      var next;
      s, next := AdmitItem(w, |m.subs[k].sent|);
      Tally(nextSubscriptionId, next, if s == Good then active + 1 else active);
    }

    /** A new item touches no Subscription and no request. */
    method AdmitItem(w: Wanted, ghost since: nat) returns (s: Status, after: u32)
      requires Sound(items) && Apart(items) && |items| < MAX_ID
      modifies items
      ensures Sound(items) && SubStatesOf(subs) == old(SubStatesOf(subs)) && queue[..] == old(queue[..])
      ensures (StatesOf(items), after, s) == Admitted(old(StatesOf(items)), nextItemId, since, w)
    {
      hide Sound, Apart, StatesOf, Subscription.State, Admitted;
      ghost var ss, q := SubStatesOf(subs), queue[..];
      s, after := TakeIn(items, nextItemId, w, since);
      assert forall h :: 0 <= h < |subs| ==> subs[h].State() == ss[h];
      assert queue[..] == q;
    }

    /** mu_monitored_item_delete, for a Subscription of the session. */
    method DeleteItem(session: u32, sub: u32, id: u32) returns (s: Status)
      requires Valid()
      modifies `active, items
      ensures Valid() && (State(), s) == Unmonitor(old(State()), session, sub, id)
    {
      hide Sound, Apart, Separate, StatesOf, SubStatesOf, Machine.Valid, Lacks, ItemAt, Blank;
      ghost var m := State();
      UnmonitorValid(m, session, sub, id);
      var i;
      s, i := Locate(session, sub, id);
      if s != Good {
        return;
      }
      Forget(i);
    }

    method Forget(i: nat)
      requires Sound(items) && Apart(items) && i < |items|
      modifies `active, items
      ensures Sound(items) && StatesOf(items) == old(StatesOf(items))[i := Blank(old(StatesOf(items))[i].depth)]
      ensures active == (if old(active) > 0 then old(active) - 1 else 0) && SubStatesOf(subs) == old(SubStatesOf(subs)) && queue[..] == old(queue[..])
    {
      hide Sound, Apart, StatesOf, Subscription.State, Blank;
      ghost var ss, q := SubStatesOf(subs), queue[..];
      DepthAt(items, i);
      if active > 0 {
        active := active - 1;
      }
      ReleaseOne(items, i, items[i]);
      assert forall h :: 0 <= h < |subs| ==> subs[h].State() == ss[h];
      assert queue[..] == q;
    }

    /** A setting of an item touches no Subscription and no request. */
    method SetIn(i: nat, c: Setting) returns (s: Status)
      requires Valid() && i < |items|
      modifies items`config, items`mode, items`triggered
      ensures Valid() && |old(State()).items| == |items| && (State(), s) == SetAt(old(State()), i, c)
    {
      hide Sound, Apart, Separate, StatesOf, Subscription.State, Machine.Valid, Set;
      ghost var m := State();
      SetAtValid(m, i, c);
      StateAt(items, i);
      s := SetOne(items, i, items[i], c);
      assert forall h :: 0 <= h < |subs| ==> subs[h].State() == m.subs[h];
      assert queue[..] == m.queue;
    }

    /** ModifyMonitoredItems for one item, given what its filter was found to be. */
    method ModifyItem(session: u32, sub: u32, id: u32, filter: Status, interval: u32, handle: u32) returns (s: Status)
      requires Valid()
      modifies items`config, items`mode, items`triggered
      ensures Valid() && (State(), s) == Adjust(old(State()), session, sub, id, filter, interval, handle)
    {
      hide Engine.Valid, StatesOf, SubStatesOf, Lacks, ItemAt, SetAt;
      var i;
      s, i := LocateLive(session, sub, id);
      if s != Good {
        return;
      }
      if filter != Good {
        return filter;
      }
      s := SetIn(i, Sampling(interval, handle));
    }

    /** SetMonitoringMode for one item. */
    method SetMode(session: u32, sub: u32, id: u32, mode: u32) returns (s: Status)
      requires Valid()
      modifies items`config, items`mode, items`triggered
      ensures Valid() && (State(), s) == Switch(old(State()), session, sub, id, mode)
    {
      hide Engine.Valid, StatesOf, SubStatesOf, Lacks, ItemAt, SetAt;
      var i;
      s, i := LocateLive(session, sub, id);
      if s != Good {
        return;
      }
      s := SetIn(i, Mode((mode % 256) as byte));
    }

    /** SetTriggering, one link to add. */
    method AddTriggerLink(session: u32, sub: u32, id: u32, linked: u32) returns (s: Status)
      requires Valid()
      modifies items`config, items`mode, items`triggered
      ensures Valid() && (State(), s) == Link(old(State()), session, sub, id, linked)
    {
      hide Engine.Valid, StatesOf, SubStatesOf, LacksOne, ItemAt, SetAt;
      var i;
      s, i := LocateBoth(session, sub, id, linked);
      if s != Good {
        return;
      }
      s := SetIn(i, AddLink(linked));
    }

    /** SetTriggering, one link to remove. */
    method RemoveTriggerLink(session: u32, sub: u32, id: u32, linked: u32) returns (s: Status)
      requires Valid()
      modifies items`config, items`mode, items`triggered
      ensures Valid() && (State(), s) == Unlink(old(State()), session, sub, id, linked)
    {
      hide Engine.Valid, StatesOf, SubStatesOf, LacksOne, ItemAt, SetAt;
      var i;
      s, i := LocateBoth(session, sub, id, linked);
      if s != Good {
        return;
      }
      s := SetIn(i, RemoveLink(linked));
    }

    // ----- Publish and Republish

    /** mu_subscription_acknowledge. */
    method Acknowledge(session: u32, sub: u32, number: u32) returns (s: Status)
      requires Valid()
      modifies subs`retransmit
      ensures Valid() && (State(), s) == Machines.Acknowledge(old(State()), session, sub, number)
    {
      hide Sound, Apart, Separate, MonitoredItem.State, SubStatesOf, Machine.Valid, Place;
      ghost var m := State();
      AcknowledgeValid(m, session, sub, number);
      var k := FindSub(session, sub);
      if k == |subs| {
        return BadSubscriptionIdInvalid;
      }
      SubAtIs(subs, k);
      s := AcknowledgeOne(subs, k, subs[k], number);
      assert Sound(items);
      assert forall i :: 0 <= i < |items| ==> items[i].State() == m.items[i];
      assert queue[..] == m.queue;
    }

    /** The acknowledgements of a PublishRequest, in order. */
    method AcknowledgeEach(session: u32, acks: seq<(u32, u32)>) returns (codes: seq<u32>)
      requires Valid()
      modifies subs`retransmit
      ensures Valid() && (State(), codes) == AcknowledgeAll(old(State()), session, acks)
    {
      hide Engine.Valid, Engine.State, Machines.Acknowledge;
      ghost var m := State();
      codes := [];
      for n := 0 to |acks|
        invariant Valid() && (State(), codes) == AcknowledgeAll(m, session, acks[..n])
      {
        assert acks[..n + 1][..n] == acks[..n];
        var s := Acknowledge(session, acks[n].0, acks[n].1);
        codes := codes + [AckCode(s)];
      }
      assert acks[..|acks|] == acks;
    }

    /** Publish: acknowledge, then park the request; the tick answers it. */
    method Publish(session: u32, id: u32, handle: u32, now: u64, acks: seq<(u32, u32)>) returns (s: Status)
      requires Valid()
      modifies subs`retransmit, queue
      ensures Valid() && (State(), s) == Park(old(State()), session, id, handle, now, acks)
    {
      hide Sound, Apart, Separate, StatesOf, SubStatesOf, Machine.Valid, AcknowledgeAll, FreeSlot;
      ghost var m := State();
      ParkValid(m, session, id, handle, now, acks);
      if |acks| > MAX_PUBLISH_ACKS {
        return BadTooManyOperations;
      }
      var codes := AcknowledgeEach(session, acks);
      ghost var mid := State();
      s := Enlist(queue, Waiting(session, id, handle, now, codes));
      assert Sound(items) && StatesOf(items) == mid.items && SubStatesOf(subs) == mid.subs;
    }

    /** mu_subscription_republish. */
    method Republish(session: u32, sub: u32, number: u32) returns (s: Status, message: seq<byte>)
      requires Valid()
      ensures (s, message) == Republished(State(), session, sub, number)
    {
      hide Engine.Valid, StatesOf, SubStatesOf, Place;
      var k := FindSub(session, sub);
      if k == |subs| {
        return BadSubscriptionIdInvalid, [];
      }
      SubAtIs(subs, k);
      s, message := subs[k].Republish(number);
    }

    // ----- The tick

    /** The sampling half of mu_subscriptions_tick. */
    method SampleAll(now: u64, aggregates: seq<Option<Entry>>, samples: seq<Entry>)
      requires Valid() && |aggregates| == |samples| == |items|
      modifies items`lastValue, items`lastStatus, items`hasValue, items`nextSample, items`queueSize, items`head, items`tail,
               items`count, items`queueOverflow, items`lastReported, items`hasReported, items`pending, items`ledger, Queues(items)
      ensures Valid() && AllFit(old(State()).items)
      ensures State() == old(State()).(items := TickedAll(old(State()).items, now, aggregates, samples))
    {
      hide Sound, Apart, Separate, StatesOf, SubStatesOf, Machine.Valid, Machine.Small, TickedAll, CountLive, ItemRows;
      ghost var m := State();
      CountedLive(m);
      TickedPoolValid(m, now, aggregates, samples);
      SampleItems(now, aggregates, samples);
    }

    method SampleItems(now: u64, aggregates: seq<Option<Entry>>, samples: seq<Entry>)
      requires Sound(items) && Apart(items) && active == CountLive(ItemRows(StatesOf(items))) && |aggregates| == |samples| == |items|
      modifies items`lastValue, items`lastStatus, items`hasValue, items`nextSample, items`queueSize, items`head, items`tail,
               items`count, items`queueOverflow, items`lastReported, items`hasReported, items`pending, items`ledger, Queues(items)
      ensures Sound(items) && AllFit(old(StatesOf(items))) && StatesOf(items) == TickedAll(old(StatesOf(items)), now, aggregates, samples)
      ensures SubStatesOf(subs) == old(SubStatesOf(subs)) && queue[..] == old(queue[..])
    {
      hide Sound, Apart, StatesOf, TickedAll, CountLive, ItemRows, AllFit, Subscription.State;
      ghost var ss, q := SubStatesOf(subs), queue[..];
      SampleLive(items, active, now, aggregates, samples);
      assert forall k :: 0 <= k < |subs| ==> subs[k].State() == ss[k];
      assert queue[..] == q;
    }

    /** One slot of publish_due. */
    method ServeSlot(k: nat, now: u64, moment: Moment) returns (o: Outcome)
      requires Valid() && k < |subs| && |moment.values| == |items|
      modifies items`lastValue, items`lastStatus, items`hasValue, items`queueSize, items`head, items`tail, items`count,
               items`queueOverflow, items`lastReported, items`hasReported, items`pending, items`ledger, Queues(items), queue,
               subs`more, subs`resendPending, subs`keepAlive, subs`sequenceNumber, subs`retransmit, subs`sent, subs`nextPublish
      ensures Valid() && old(State()).Small() && (State(), o) == Served(old(State()), k, now, moment)
    {
      hide Sound, Apart, Separate, StatesOf, SubStatesOf, Machine.Valid, Machine.Small, Cycle, Saturated, NextTick, Subscription.State, AllFit;
      ghost var m := State();
      ServedValid(m, k, now, moment);
      Slots(m);
      Timing(subs[k]);
      SubAtIs(subs, k);
      if !subs[k].inUse || subs[k].nextPublish > now {
        return Idle;
      }
      o := ServeDue(k, subs[k], now, moment);
    }

    method ServeDue(k: nat, sub: Subscription, now: u64, moment: Moment) returns (o: Outcome)
      requires Sound(items) && Apart(items) && Separate(subs) && k < |subs| && sub == subs[k]
      requires |moment.values| == |items| <= MAX_ITEMS && sub.nextPublish <= now
      modifies items`lastValue, items`lastStatus, items`hasValue, items`queueSize, items`head, items`tail, items`count,
               items`queueOverflow, items`lastReported, items`hasReported, items`pending, items`ledger, Queues(items), queue,
               sub`more, sub`resendPending, sub`keepAlive, sub`sequenceNumber, sub`retransmit, sub`sent, sub`nextPublish
      ensures Sound(items) && AllFit(old(StatesOf(items)))
      ensures var s := old(sub.State());
        var t := Cycle(old(StatesOf(items)), s, old(queue[..]), moment);
        && StatesOf(items) == t.items && queue[..] == t.queue && o == t.outcome
        && SubStatesOf(subs) == old(SubStatesOf(subs))[k := t.sub.(nextPublish := Saturated(NextTick(s.nextPublish, Effective(s.interval), now)))]
    {
      hide Sound, Apart, StatesOf, Cycle, Saturated, NextTick, AllFit, Subscription.State;
      ghost var ss := SubStatesOf(subs);
      o := PublishStep(items, sub, queue, now, moment);
      assert forall j :: 0 <= j < |subs| && j != k ==> subs[j].State() == ss[j];
    }

    /** publish_due: every slot, in order. */
    method PublishDue(now: u64, moments: seq<Moment>) returns (os: seq<Outcome>)
      requires Valid() && |moments| == |subs| && forall k :: 0 <= k < |moments| ==> |moments[k].values| == |items|
      modifies items`lastValue, items`lastStatus, items`hasValue, items`queueSize, items`head, items`tail, items`count,
               items`queueOverflow, items`lastReported, items`hasReported, items`pending, items`ledger, Queues(items), queue,
               subs`more, subs`resendPending, subs`keepAlive, subs`sequenceNumber, subs`retransmit, subs`sent, subs`nextPublish
      ensures Valid() && old(State()).Small() && |State().subs| == |old(State()).subs| == |moments| && |old(State()).items| == |items|
      ensures (State(), os) == Swept(old(State()), now, moments, |subs|)
    {
      hide Engine.Valid, StatesOf, SubStatesOf, Machine.Small, Served;
      ghost var m := State();
      assert m.Small() by { Parts(); ValidIsSmall(m); }
      os := [];
      for n := 0 to |subs|
        invariant Valid() && (State(), os) == Swept(m, now, moments, n)
      {
        var o := ServeSlot(n, now, moments[n]);
        os := os + [o];
      }
    }

    /** mu_subscriptions_tick. */
    method RunTick(now: u64, aggregates: seq<Option<Entry>>, samples: seq<Entry>, moments: seq<Moment>) returns (os: seq<Outcome>)
      requires Valid() && |aggregates| == |samples| == |items|
      requires |moments| == |subs| && forall k :: 0 <= k < |moments| ==> |moments[k].values| == |items|
      modifies items`lastValue, items`lastStatus, items`hasValue, items`nextSample, items`queueSize, items`head, items`tail,
               items`count, items`queueOverflow, items`lastReported, items`hasReported, items`pending, items`ledger, Queues(items), queue,
               subs`more, subs`resendPending, subs`keepAlive, subs`sequenceNumber, subs`retransmit, subs`sent, subs`nextPublish
      ensures Valid() && old(State()).Small() && |old(State()).items| == |items| && |old(State()).subs| == |subs|
      ensures (State(), os) == Machines.Tick(old(State()), now, aggregates, samples, moments)
    {
      hide Engine.Valid, StatesOf, SubStatesOf, Machine.Small, Swept, TickedAll, AllFit;
      ghost var m := State();
      assert m.Small() by { Parts(); ValidIsSmall(m); }
      SampleAll(now, aggregates, samples);
      os := PublishDue(now, moments);
    }

    // ----- Runs

    /** Every service and the tick: the objects go where the machine goes, and answer what it answers. */
    method Step(op: Op) returns (reply: Reply)
      requires Valid() && Sized(State(), op)
      modifies this, items, Queues(items), subs, queue
      ensures Valid() && old(State()).Small() && (State(), reply) == Next(old(State()), op)
    {
      hide Engine.Valid, Engine.State, Machine.Small, Subscribe, ChangeSub, Unsubscribe, Monitor, Adjust, Switch, Link, Unlink, Unmonitor, Park, Republished, Closed, Machines.Tick;
      assert State().Small() by { Parts(); ValidIsSmall(State()); }
      Lengths();
      var s, message, os := Good, [], [];
      match op {
        case Subscribing(session, interval, lifetime, keepAlive, maxNotifications, enabled, now) =>
          s := CreateSubscription(session, interval, lifetime, keepAlive, maxNotifications, enabled, now);
        case Modifying(session, sub, interval, lifetime, keepAlive, maxNotifications) =>
          s := ChangeSubscription(session, sub, Parameters(interval, lifetime, keepAlive, maxNotifications));
        case Enabling(session, sub, enabled) => s := ChangeSubscription(session, sub, Publishing(enabled));
        case Unsubscribing(session, sub) => s := DeleteSubscription(session, sub);
        case Monitoring(session, sub, config, mode, size, initial, now) =>
          s := CreateItem(session, sub, config, mode, size, initial, now);
        case Adjusting(session, sub, id, filter, interval, handle) => s := ModifyItem(session, sub, id, filter, interval, handle);
        case Switching(session, sub, id, mode) => s := SetMode(session, sub, id, mode);
        case Linking(session, sub, id, linked) => s := AddTriggerLink(session, sub, id, linked);
        case Unlinking(session, sub, id, linked) => s := RemoveTriggerLink(session, sub, id, linked);
        case Unmonitoring(session, sub, id) => s := DeleteItem(session, sub, id);
        case Requesting(session, id, handle, now, acks) => s := Publish(session, id, handle, now, acks);
        case Republishing(session, sub, number) => s, message := Republish(session, sub, number);
        case Resending(session, sub) => s := ChangeSubscription(session, sub, Change.Resend);
        case Closing(session) => CloseSubscriptions(session);
        case Ticking(now, aggregates, samples, moments) => os := RunTick(now, aggregates, samples, moments);
      }
      reply := Reply(s, message, os);
    }

    lemma Lengths()
      ensures |State().items| == |items| && |State().subs| == |subs|
    {
    }

    /** The objects follow the machine over every run. */
    method Run(ops: seq<Op>)
      requires Valid() && AllSized(State(), ops)
      modifies this, items, Queues(items), subs, queue
      ensures Valid() && old(State()).Valid() && State() == After(old(State()), ops)
    {
      hide Engine.Valid, Engine.State, Machine.Valid, Machine.Small, Next, Sized;
      ghost var m := State();
      Parts();
      for n := 0 to |ops|
        invariant Valid() && State() == After(m, ops[..n])
      {
        assert ops[..n + 1][..n] == ops[..n];
        SizedAlong(m, State(), ops[n]);
        var reply := Step(ops[n]);
      }
      assert ops[..|ops|] == ops;
    }
  }

  lemma Timing(sub: Subscription)
    ensures sub.State().inUse == sub.inUse && sub.State().nextPublish == sub.nextPublish
  {
  }

  lemma SubAtIs(subs: seq<Subscription>, k: nat)
    requires k < |subs|
    ensures SubStatesOf(subs)[k] == subs[k].State()
  {
  }

  lemma Identity(item: MonitoredItem)
    ensures item.State().inUse == item.inUse && item.State().subscription == item.subscriptionId && item.State().depth == item.queue.Length
  {
  }

  lemma SubIdentity(subs: seq<Subscription>, k: nat)
    requires k < |subs|
    ensures SubStatesOf(subs)[k].inUse == subs[k].inUse && SubStatesOf(subs)[k].id == subs[k].id && SubStatesOf(subs)[k].session == subs[k].sessionId
  {
  }

  lemma CountedLive(m: Machine)
    requires m.Valid()
    ensures m.active == CountLive(ItemRows(m.items))
  {
  }

  lemma OneLess(ss: seq<ItemState>, i: nat, s: ItemState)
    requires i < |ss| && ss[i].inUse && !s.inUse
    ensures CountLive(ItemRows(ss)) > 0 && CountLive(ItemRows(ss[i := s])) == CountLive(ItemRows(ss)) - 1
  {
    hide CountLive;
    CountUpdate(ItemRows(ss), i, ItemRow(s));
    assert ItemRows(ss[i := s]) == ItemRows(ss)[i := ItemRow(s)];
  }

  lemma Slots(m: Machine)
    requires m.Small()
    ensures |m.items| <= MAX_ITEMS && |m.subs| < MAX_ID
  {
  }

  lemma EmptyIsValid(m: Machine)
    requires AllValid(m.items) && |m.items| <= MAX_ITEMS && |m.subs| < MAX_ID && m.active == 0
    requires forall i :: 0 <= i < |m.items| ==> !m.items[i].inUse
    requires forall k :: 0 <= k < |m.subs| ==> m.subs[k] == BLANK
    ensures m.Valid()
  {
    hide ItemState.Valid;
    BlankSubValid();
    NoneLive(ItemRows(m.items));
  }

  lemma {:induction false} NoneLive(rows: seq<Row>)
    requires forall i :: 0 <= i < |rows| ==> !rows[i].inUse
    ensures CountLive(rows) == 0
  {
    if rows != [] { NoneLive(rows[..|rows| - 1]); }
  }
}
