/**
 What every step of the subscription engine keeps, and what therefore holds over
 every run: nothing is delivered that no message told, nothing a message told is
 not delivered, accounts are exact, messages numbered, pools consistent.
 */
module Runs {
  import opened Types
  import opened Timers
  import opened Ledgers
  import opened ItemStates
  import opened Selection
  import opened PoolStates
  import opened Responses
  import opened SubStates
  import opened CycleStates
  import opened Registry
  import opened Machines

  lemma ValidIsSmall(m: Machine)
    requires m.Valid()
    ensures m.Small()
  {
    ValidFits(m.items);
  }

  /** Same row, same birth. */
  predicate Alike(a: ItemState, b: ItemState) {
    ItemRow(b) == ItemRow(a) && b.since == a.since
  }

  // ----- One slot changes

  lemma ItemChanged(m: Machine, i: nat, s: ItemState)
    requires m.Valid() && i < |m.items| && s.Valid() && Alike(m.items[i], s) && s.ledger == m.items[i].ledger
    ensures WithItem(m, i, s).Valid()
  {
    hide Consistent, ItemState.Valid, TakenSince;
    var r := WithItem(m, i, s);
    assert ItemRows(r.items) == ItemRows(m.items);
    forall j, k | 0 <= j < |r.items| && 0 <= k < |r.subs| && Belongs(r.items[j], r.subs[k]) ensures Accounts(r.items[j], r.subs[k], j) {
      assert Belongs(m.items[j], m.subs[k]);
      assert Accounts(m.items[j], m.subs[k], j);
    }
  }

  lemma SubChanged(m: Machine, k: nat, s: SubState)
    requires m.Valid() && k < |m.subs| && s.Valid() && SubRow(s) == SubRow(m.subs[k]) && s.sent == m.subs[k].sent
    ensures WithSub(m, k, s).Valid()
  {
    hide Consistent, AllValid, SubState.Valid, TakenSince;
    var r := WithSub(m, k, s);
    assert SubRows(r.subs) == SubRows(m.subs);
    forall i, j | 0 <= i < |r.items| && 0 <= j < |r.subs| && Belongs(r.items[i], r.subs[j]) ensures Accounts(r.items[i], r.subs[j], i) {
      assert Belongs(m.items[i], m.subs[j]);
      assert Accounts(m.items[i], m.subs[j], i);
    }
  }

  lemma RowAt(m: Machine, session: u32, sub: u32)
    ensures var k := SubAt(m, session, sub);
      k < |m.subs| ==> m.subs[k].inUse && m.subs[k].id == sub && m.subs[k].session == session
  {
    hide Place;
  }

  lemma ItemRowAt(m: Machine, sub: u32, id: u32)
    ensures var i := ItemAt(m, sub, id);
      i < |m.items| ==> m.items[i].inUse && m.items[i].id == id && m.items[i].subscription == sub
  {
    hide Place;
  }

  // ----- Creating and deleting

  lemma SubscribeValid(m: Machine, session: u32, interval: u32, lifetime: u32, keepAlive: u32, maxNotifications: u32, enabled: bool, now: u64)
    requires m.Valid()
    ensures m.Small() && Subscribe(m, session, interval, lifetime, keepAlive, maxNotifications, enabled, now).0.Valid()
  {
    hide Started, SubState.Valid, AllValid, AllFit, Fresh, Consistent, HasLive, TakenSince;
    ValidIsSmall(m);
    var rows := SubRows(m.subs);
    var r := Subscribe(m, session, interval, lifetime, keepAlive, maxNotifications, enabled, now).0;
    if FreeRow(rows).Some? {
      var k := FreeRow(rows).value;
      SomeFresh(rows, m.nextSub);
      var id := Fresh(rows, m.nextSub, 0).value;
      StartedRow(id, session, interval, lifetime, keepAlive, maxNotifications, enabled, now);
      assert SubRows(r.subs) == rows[k := Row(true, id, session)];
      SubscriptionAdded(ItemRows(m.items), rows, m.active, k, id, session);
      forall i, j | 0 <= i < |r.items| && 0 <= j < |r.subs| && Belongs(r.items[i], r.subs[j]) ensures Accounts(r.items[i], r.subs[j], i) {
        NoStranger(m, i, id);
        assert Belongs(m.items[i], m.subs[j]);
      }
    }
  }

  lemma StartedRow(id: u32, session: u32, interval: u32, lifetime: u32, keepAlive: u32, maxNotifications: u32, enabled: bool, now: u64)
    ensures var s := Started(id, session, interval, lifetime, keepAlive, maxNotifications, enabled, now);
      s.Valid() && SubRow(s) == Row(true, id, session)
  {
    StartedValid(id, session, interval, lifetime, keepAlive, maxNotifications, enabled, now);
  }

  /** A live item's Subscription is live, so no id that is not has items. */
  lemma NoStranger(m: Machine, i: nat, id: u32)
    requires Consistent(ItemRows(m.items), SubRows(m.subs), m.active) && i < |m.items| && m.items[i].inUse && !HasLive(SubRows(m.subs), id)
    ensures m.items[i].subscription != id
  {
    assert ItemRows(m.items)[i].inUse;
  }

  lemma SameSub(m: Machine, j: nat, k: nat)
    requires Consistent(ItemRows(m.items), SubRows(m.subs), m.active) && j < |m.subs| && k < |m.subs|
    requires m.subs[j].inUse && m.subs[k].inUse && m.subs[j].id == m.subs[k].id
    ensures j == k
  {
    var rows := SubRows(m.subs);
    assert rows[j].inUse && rows[k].inUse && rows[j].id == rows[k].id;
  }

  lemma DroppingConsistent(m: Machine, k: nat)
    requires Consistent(ItemRows(m.items), SubRows(m.subs), m.active) && k < |m.subs| && m.subs[k].inUse
    ensures var r := Dropping(m, k); Consistent(ItemRows(r.items), SubRows(r.subs), r.active)
  {
    hide CountLive;
    var r := Dropping(m, k);
    var a, b := ItemRows(m.items), ItemRows(r.items);
    var c, d := SubRows(m.subs), SubRows(r.subs);
    assert forall i :: 0 <= i < |b| ==> b[i] == if a[i].inUse && a[i].owner == m.subs[k].id then FREE else a[i];
    assert d == c[k := FREE];
    forall i | 0 <= i < |b| && b[i].inUse ensures HasLive(d, b[i].owner) {
      assert HasLive(c, a[i].owner);
      var j :| 0 <= j < |c| && c[j].inUse && c[j].id == a[i].owner;
      assert d[j] == c[j];
    }
  }

  lemma DroppingValid(m: Machine, k: nat)
    requires m.Valid() && k < |m.subs| && m.subs[k].inUse
    ensures Dropping(m, k).Valid()
  {
    hide Consistent, ItemState.Valid, SubState.Valid, TakenSince, CountLive;
    var r := Dropping(m, k);
    DroppingConsistent(m, k);
    forall i | 0 <= i < |r.items| ensures r.items[i].Valid() {
      ValidCore(m.items[i]);
      BlankValid(m.items[i].depth);
    }
    assert BLANK.Valid() by { BlankSubValid(); }
    forall i, j | 0 <= i < |r.items| && 0 <= j < |r.subs| && Belongs(r.items[i], r.subs[j]) ensures Accounts(r.items[i], r.subs[j], i) {
      assert Belongs(m.items[i], m.subs[j]);
    }
  }

  lemma BlankSubValid()
    ensures BLANK.Valid()
  {
  }

  lemma {:induction false} ClosedValid(m: Machine, session: u32, n: nat)
    requires m.Valid() && n <= |m.subs|
    ensures Closed(m, session, n).Valid()
  {
    hide Machine.Valid, Dropping;
    if n > 0 {
      ClosedValid(m, session, n - 1);
      var c := Closed(m, session, n - 1);
      if c.subs[n - 1].inUse { DroppingValid(c, n - 1); }
    }
  }

  lemma AdmitValid(m: Machine, k: nat, w: Wanted)
    requires m.Valid() && k < |m.subs| && m.subs[k].inUse && m.subs[k].id == w.sub
    ensures m.Small() && Admit(m, |m.subs[k].sent|, w).0.Valid()
  {
    hide ItemState.Valid, Created, AllGenuine, AllFit, Fresh, Consistent, HasLive;
    ValidIsSmall(m);
    var rows := ItemRows(m.items);
    var since := |m.subs[k].sent|;
    var r := Admit(m, since, w).0;
    if FreeRow(rows).Some? {
      var i := FreeRow(rows).value;
      SomeFresh(rows, m.nextItem);
      var id := Fresh(rows, m.nextItem, 0).value;
      ValidCore(m.items[i]);
      NewItem(m.items[i].depth, id, since, w);
      assert ItemRows(r.items) == rows[i := Row(true, id, w.sub)];
      FoundIsLive(SubRows(m.subs), k);
      ItemAdded(rows, SubRows(m.subs), m.active, i, id, w.sub);
      forall j, h | 0 <= j < |r.items| && 0 <= h < |r.subs| && Belongs(r.items[j], r.subs[h]) ensures Accounts(r.items[j], r.subs[h], j) {
        if j == i { SameSub(m, h, k); } else { assert Belongs(m.items[j], m.subs[h]); }
      }
    }
  }

  lemma NewItem(depth: nat, id: u32, since: nat, w: Wanted)
    requires 1 <= depth <= 255
    ensures var s := Created(depth, id, since, w);
      s.Valid() && ItemRow(s) == Row(true, id, w.sub) && s.since == since && s.ledger == EMPTY
  {
    hide ItemState.Valid;
    BlankValid(depth);
    var b := Blank(depth).(inUse := true, id := id, subscription := w.sub, since := since);
    ValidIgnores(Blank(depth), b);
    ConfiguredValid(b, w.config, w.mode, w.nextSample, w.size, w.initial);
  }

  lemma MonitorValid(m: Machine, session: u32, sub: u32, config: Config, mode: u32, size: u32, initial: Option<Entry>, now: u64)
    requires m.Valid()
    ensures m.Small() && Monitor(m, session, sub, config, mode, size, initial, now).0.Valid()
  {
    hide Machine.Valid, Machine.Small, Admit, Place;
    ValidIsSmall(m);
    RowAt(m, session, sub);
    var k := SubAt(m, session, sub);
    if k < |m.subs| {
      AdmitValid(m, k, Wanted(sub, config, (mode % 256) as byte, (now + config.samplingInterval) % TWO64, size, initial));
    }
  }

  lemma UnmonitorValid(m: Machine, session: u32, sub: u32, id: u32)
    requires m.Valid()
    ensures Unmonitor(m, session, sub, id).0.Valid()
  {
    hide ItemState.Valid, AllGenuine, Consistent, HasLive, Place, TakenSince;
    if Lacks(m, session, sub, id) == Good {
      var i := ItemAt(m, sub, id);
      ItemRowAt(m, sub, id);
      var r := Unmonitor(m, session, sub, id).0;
      ValidCore(m.items[i]);
      BlankValid(m.items[i].depth);
      assert ItemRows(r.items) == ItemRows(m.items)[i := FREE];
      ItemRemoved(ItemRows(m.items), SubRows(m.subs), m.active, i);
      forall j, h | 0 <= j < |r.items| && 0 <= h < |r.subs| && Belongs(r.items[j], r.subs[h]) ensures Accounts(r.items[j], r.subs[h], j) {
        assert Belongs(m.items[j], m.subs[h]);
      }
    }
  }

  // ----- Settings

  lemma SetValid(s: ItemState, c: Setting)
    requires s.Valid()
    ensures Set(s, c).0.Valid() && Alike(s, Set(s, c).0) && Set(s, c).0.ledger == s.ledger
  {
    hide ItemState.Valid, WithLink, WithoutLink;
    ValidIgnores(s, Set(s, c).0);
  }

  lemma SetAtValid(m: Machine, i: nat, c: Setting)
    requires m.Valid() && i < |m.items|
    ensures SetAt(m, i, c).0.Valid()
  {
    hide Machine.Valid, ItemState.Valid, Set;
    EachValid(m, i);
    SetValid(m.items[i], c);
    ItemChanged(m, i, Set(m.items[i], c).0);
  }

  lemma EachValid(m: Machine, i: nat)
    requires m.Valid() && i < |m.items|
    ensures m.items[i].Valid()
  {
  }

  lemma EachGenuine(m: Machine, k: nat)
    requires m.Valid() && k < |m.subs|
    ensures m.subs[k].Valid()
  {
  }

  lemma ChangedValid(s: SubState, c: Change)
    requires s.Valid()
    ensures Changed(s, c).Valid() && SubRow(Changed(s, c)) == SubRow(s) && Changed(s, c).sent == s.sent && Changed(s, c).retained == s.retained
  {
    hide Numbered, NumberAt;
    match c
    case Parameters(interval, lifetime, keepAlive, maxNotifications) => ModifiedValid(s, interval, lifetime, keepAlive, maxNotifications);
    case _ =>
  }

  lemma ChangeSubValid(m: Machine, session: u32, sub: u32, c: Change)
    requires m.Valid()
    ensures ChangeSub(m, session, sub, c).0.Valid()
  {
    hide Machine.Valid, SubState.Valid, Place, Changed;
    var k := SubAt(m, session, sub);
    if k < |m.subs| {
      EachGenuine(m, k);
      ChangedValid(m.subs[k], c);
      SubChanged(m, k, Changed(m.subs[k], c));
    }
  }

  lemma AcknowledgeValid(m: Machine, session: u32, sub: u32, number: u32)
    requires m.Valid()
    ensures Acknowledge(m, session, sub, number).0.Valid()
  {
    hide Machine.Valid, SubState.Valid, Place;
    var k := SubAt(m, session, sub);
    if k < |m.subs| {
      EachGenuine(m, k);
      AcknowledgedValid(m.subs[k], number);
      SubChanged(m, k, m.subs[k].Acknowledged(number));
    }
  }

  lemma {:induction false} AcknowledgeAllValid(m: Machine, session: u32, acks: seq<(u32, u32)>)
    requires m.Valid()
    ensures AcknowledgeAll(m, session, acks).0.Valid()
  {
    hide Machine.Valid, Acknowledge;
    if acks != [] {
      var n := |acks| - 1;
      AcknowledgeAllValid(m, session, acks[..n]);
      AcknowledgeValid(AcknowledgeAll(m, session, acks[..n]).0, session, acks[n].0, acks[n].1);
    }
  }

  lemma ParkValid(m: Machine, session: u32, id: u32, handle: u32, now: u64, acks: seq<(u32, u32)>)
    requires m.Valid()
    ensures Park(m, session, id, handle, now, acks).0.Valid()
  {
    hide AcknowledgeAll, AllValid, AllGenuine, Consistent, Accounted;
    AcknowledgeAllValid(m, session, acks);
  }

  // ----- The cycle

  /** The same messages, or one more. */
  ghost predicate Onward(was: seq<Posted>, now: seq<Posted>) {
    now == was || (|now| == |was| + 1 && now[..|was|] == was)
  }

  /** What the message says that was not there before; nothing if there is none. */
  function News(was: seq<Posted>, now: seq<Posted>): (r: seq<Notice>) {
    if |now| > |was| then now[|was|].notices else []
  }

  /** What was delivered to an item, and the row it has. */
  ghost predicate Gained(a: ItemState, b: ItemState, more: seq<Entry>)
    requires a.Fits() && b.Fits()
  {
    Alike(a, b) && b.ledger.Delivered() == a.ledger.Delivered() + more
  }

  /** Every item gained exactly what the new message says of it. */
  ghost predicate Squared(ss: seq<ItemState>, tt: seq<ItemState>, ns: seq<Notice>) {
    |tt| == |ss| && AllFit(ss) && AllFit(tt) && forall i :: 0 <= i < |ss| ==> Gained(ss[i], tt[i], TakenFrom(ns, i))
  }

  lemma NothingTaken(i: nat)
    ensures TakenFrom([], i) == []
  {
  }

  lemma NothingGained(s: ItemState)
    requires s.Fits()
    ensures Gained(s, s, [])
  {
    assert s.ledger.Delivered() + [] == s.ledger.Delivered();
  }

  lemma WokenAlike(s: ItemState, sub: u32, read: Entry)
    requires s.Fits()
    ensures Gained(s, WokenIf(s, sub), []) && Gained(s, ResentIf(s, sub, read), [])
  {
    hide Enqueue;
    NothingGained(s);
  }

  lemma GainedTwice(a: ItemState, b: ItemState, c: ItemState, more: seq<Entry>)
    requires a.Fits() && b.Fits() && c.Fits() && Gained(a, b, []) && Gained(b, c, more)
    ensures Gained(a, c, more)
  {
    assert a.ledger.Delivered() + [] == a.ledger.Delivered();
  }

  lemma ReadyGains(ss: seq<ItemState>, sub: SubState, values: seq<Entry>, i: nat)
    requires AllFit(ss) && |values| == |ss| && i < |ss|
    ensures AllFit(Ready(ss, sub, values)) && Gained(ss[i], Ready(ss, sub, values)[i], [])
  {
    hide Gained, WokenIf, ResentIf, AllFit, ItemState.Fits;
    EachFits(ss, i);
    EachFits(Ready(ss, sub, values), i);
    if sub.enabled {
      var woken := WokenAll(ss, sub.id);
      WokenAlike(ss[i], sub.id, values[i]);
      if sub.resend {
        WokenAlike(woken[i], sub.id, values[i]);
        GainedTwice(ss[i], woken[i], ResentAll(woken, sub.id, values)[i], []);
      }
    } else {
      NothingGained(ss[i]);
    }
  }

  lemma DrainedGains(ss: seq<ItemState>, sub: u32, k: nat, i: nat)
    requires AllFit(ss) && i < |ss|
    ensures AllFit(DrainedAll(ss, sub, k)) && Gained(ss[i], DrainedAll(ss, sub, k)[i], TakenFrom(Prefix(Selected(Views(ss), sub), k), i))
  {
    hide Selected, TakenFrom, Prefix, Share, Deliver;
    DrainedDelivers(ss, sub, k, i);
  }

  lemma PrefixTwice<T>(s: seq<T>, n: nat)
    ensures Prefix(s, |Prefix(s, n)|) == Prefix(s, n)
  {
  }

  /** A cycle delivers to every item exactly what the message it sends says of it, and nothing if it sends none. */
  lemma CycleSquares(ss: seq<ItemState>, sub: SubState, queue: seq<Request>, m: Moment)
    requires AllFit(ss) && |m.values| == |ss| <= MAX_ITEMS
    ensures var t := Cycle(ss, sub, queue, m);
      Onward(sub.sent, t.sub.sent) && Squared(ss, t.items, News(sub.sent, t.sub.sent))
  {
    hide AllFit, Refreshed, Ready, Gained, ReplyTo, Selected, DrainedAll, TakenFrom, ItemState.Fits, SubState.Posting;
    var t := Cycle(ss, sub, queue, m);
    var ready := Ready(ss, sub, m.values);
    var ns := Batch(ready, sub);
    var counted := Counted(ready, sub);
    assert counted.sent == sub.sent;
    forall i | 0 <= i < |ss| ensures ss[i].Fits() && t.items[i].Fits() && ready[i].Fits() && Gained(ss[i], ready[i], []) {
      EachFits(ss, i);
      EachFits(t.items, i);
      EachFits(ready, i);
      ReadyGains(ss, sub, m.values, i);
    }
    var posted := ns != [] && t.outcome.Answered?;
    if posted {
      BatchPosted(ready, sub, queue, m);
    } else {
      assert t.items == ready && t.sub.sent == sub.sent;
    }
    forall i | 0 <= i < |ss| ensures Gained(ss[i], t.items[i], TakenFrom(News(sub.sent, t.sub.sent), i)) {
      if posted {
        DrainedGains(ready, sub.id, |ns|, i);
        GainedTwice(ss[i], ready[i], t.items[i], TakenFrom(ns, i));
      } else {
        NothingTaken(i);
      }
    }
  }

  /** When data went out: the message is about the batch, and the items are drained of it. */
  lemma BatchPosted(ready: seq<ItemState>, sub: SubState, queue: seq<Request>, m: Moment)
    requires AllFit(ready) && |ready| <= MAX_ITEMS
    requires Batch(ready, sub) != [] && WithData(ready, Counted(ready, sub), queue, m, Batch(ready, sub)).outcome.Answered?
    ensures var ns := Batch(ready, sub);
      var t := WithData(ready, Counted(ready, sub), queue, m, ns);
      && sub.enabled && ns == Prefix(Selected(Views(ready), sub.id), |ns|)
      && t.items == DrainedAll(ready, sub.id, |ns|)
      && Onward(sub.sent, t.sub.sent) && News(sub.sent, t.sub.sent) == ns
  {
    hide AllFit, ReplyTo, Selected, DrainedAll, Message;
    PrefixTwice(Due(ready, sub), Capped(|Due(ready, sub)|, sub.maxNotifications));
  }

  /** What is left of a Subscription after a cycle: its row, its settings, and its messages in order. */
  lemma CycleGenuine(ss: seq<ItemState>, sub: SubState, queue: seq<Request>, m: Moment)
    requires AllFit(ss) && |m.values| == |ss| <= MAX_ITEMS && sub.Valid() && sub.inUse
    ensures var t := Cycle(ss, sub, queue, m);
      t.sub.Valid() && SubRow(t.sub) == SubRow(sub) && t.sub.interval == sub.interval
  {
    hide AllFit, Refreshed, Ready, ReplyTo, Selected, DrainedAll, SubState.Posting, Numbered, NumberAt, Batch;
    var ready := Ready(ss, sub, m.values);
    var ns, counted := Batch(ready, sub), Counted(ready, sub);
    assert counted.Valid() && counted.inUse && SubRow(counted) == SubRow(sub);
    if ns != [] {
      var at := FirstFor(queue, counted.session);
      if at.Some? && ReplyTo(queue[at.value], CoverOf(queue[at.value], counted, counted.more, m.time), ns, m.emitted, m.faulted).Answered? {
        PostingValid(counted, m.time, ns);
        PostingRow(counted, m.time, ns);
      }
    }
  }

  lemma PostingRow(s: SubState, time: i64, ns: seq<Notice>)
    requires Sendable(ns)
    ensures SubRow(s.Posting(time, ns)) == SubRow(s) && s.Posting(time, ns).interval == s.interval
  {
    hide Message, Sendable;
  }

  lemma CycleValid(ss: seq<ItemState>, sub: SubState, queue: seq<Request>, m: Moment)
    requires AllValid(ss) && |m.values| == |ss| <= MAX_ITEMS
    ensures AllFit(ss) && AllValid(Cycle(ss, sub, queue, m).items)
  {
    hide AllFit, AllValid, Refreshed, Cycle, DrainedAll, Batch;
    ValidFits(ss);
    RefreshedValid(ss, sub.id, sub.resend, m.values);
    var ready := Ready(ss, sub, m.values);
    DrainedAllValid(ready, sub.id, |Batch(ready, sub)|);
    CycleItems(ss, sub, queue, m);
  }

  lemma CycleItems(ss: seq<ItemState>, sub: SubState, queue: seq<Request>, m: Moment)
    requires AllFit(ss) && |m.values| == |ss| <= MAX_ITEMS
    ensures var ready := Ready(ss, sub, m.values);
      var t := Cycle(ss, sub, queue, m);
      t.items == ready || t.items == DrainedAll(ready, sub.id, |Batch(ready, sub)|)
  {
    hide AllFit, Ready, ReplyTo, DrainedAll, SubState.Posting, Batch;
  }

  // ----- The accounts of all items

  lemma {:induction false} TakenOnward(was: seq<Posted>, now: seq<Posted>, n: nat, i: nat)
    requires Onward(was, now) && n <= |was|
    ensures TakenSince(now, n, i) == TakenSince(was, n, i) + TakenFrom(News(was, now), i)
  {
    hide TakenFrom;
    if now == was {
      NothingTaken(i);
      assert TakenSince(was, n, i) + [] == TakenSince(was, n, i);
    } else {
      assert now[..|now| - 1] == was;
    }
  }

  /** A message says nothing of items of other Subscriptions. */
  lemma OthersNotTold(ss: seq<ItemState>, sub: u32, k: nat, i: nat)
    requires i < |ss| && !(ss[i].inUse && ss[i].subscription == sub)
    ensures TakenFrom(Prefix(Selected(Views(ss), sub), k), i) == []
  {
    hide Selected, TakenFrom;
    TakenIsAllowance(Views(ss), sub, k, i);
  }

  lemma NewsOfOthers(ss: seq<ItemState>, sub: SubState, queue: seq<Request>, m: Moment, i: nat)
    requires AllFit(ss) && |m.values| == |ss| <= MAX_ITEMS && i < |ss| && !(ss[i].inUse && ss[i].subscription == sub.id)
    ensures TakenFrom(News(sub.sent, Cycle(ss, sub, queue, m).sub.sent), i) == []
  {
    hide AllFit, Refreshed, Ready, Gained, ReplyTo, Selected, DrainedAll, TakenFrom, ItemState.Fits, SubState.Posting;
    var t := Cycle(ss, sub, queue, m);
    var ready := Ready(ss, sub, m.values);
    var ns := Batch(ready, sub);
    NothingTaken(i);
    assert Counted(ready, sub).sent == sub.sent;
    if ns != [] && t.outcome.Answered? {
      BatchPosted(ready, sub, queue, m);
      EachFits(ss, i);
      EachFits(ready, i);
      ReadyGains(ss, sub, m.values, i);
      assert ItemRow(ready[i]) == ItemRow(ss[i]) by { GainedAlike(ss[i], ready[i], []); }
      OthersNotTold(ready, sub.id, |ns|, i);
    } else {
      assert t.sub.sent == sub.sent;
    }
  }

  lemma GainedAlike(a: ItemState, b: ItemState, more: seq<Entry>)
    requires a.Fits() && b.Fits() && Gained(a, b, more)
    ensures ItemRow(b) == ItemRow(a)
  {
  }

  lemma ServedValid(m: Machine, k: nat, now: u64, moment: Moment)
    requires m.Valid() && k < |m.subs| && |moment.values| == |m.items|
    ensures m.Small() && Served(m, k, now, moment).0.Valid()
  {
    hide AllFit, Consistent, Cycle, NextTick, Saturated, TakenSince, TakenFrom, AllValid, SubState.Valid, AllGenuine, ItemState.Fits;
    ValidIsSmall(m);
    var s := m.subs[k];
    if s.inUse && s.nextPublish <= now {
      var t := Cycle(m.items, s, m.queue, moment);
      var r := Served(m, k, now, moment).0;
      EachGenuine(m, k);
      CycleValid(m.items, s, m.queue, moment);
      CycleGenuine(m.items, s, m.queue, moment);
      CycleSquares(m.items, s, m.queue, moment);
      TimerIsNoMatter(t.sub, r.subs[k].nextPublish);
      GenuineUpdate(m.subs, k, r.subs[k]);
      assert ItemRows(r.items) == ItemRows(m.items);
      assert SubRows(r.subs) == SubRows(m.subs);
      forall i, j | 0 <= i < |r.items| && 0 <= j < |r.subs| && Belongs(r.items[i], r.subs[j]) ensures Accounts(r.items[i], r.subs[j], i) {
        assert Belongs(m.items[i], m.subs[j]);
        assert Accounts(m.items[i], m.subs[j], i);
        ServedAccounts(m, k, moment, t, i, j, r.items[i], r.subs[j]);
      }
    }
  }

  lemma TimerIsNoMatter(s: SubState, next: u64)
    requires s.Valid()
    ensures s.(nextPublish := next).Valid()
  {
    hide Numbered, NumberAt;
  }

  lemma GenuineUpdate(subs: seq<SubState>, k: nat, s: SubState)
    requires AllGenuine(subs) && k < |subs| && s.Valid()
    ensures AllGenuine(subs[k := s])
  {
    hide SubState.Valid;
  }

  lemma ServedAccounts(m: Machine, k: nat, moment: Moment, t: Turn, i: nat, j: nat, a: ItemState, b: SubState)
    requires m.Valid() && m.Small() && k < |m.subs| && |moment.values| == |m.items| && i < |m.items| && j < |m.subs| && m.subs[k].inUse
    requires t == Cycle(m.items, m.subs[k], m.queue, moment) && a == t.items[i]
    requires b.sent == if j == k then t.sub.sent else m.subs[j].sent
    requires Belongs(m.items[i], m.subs[j]) && Accounts(m.items[i], m.subs[j], i)
    ensures Accounts(a, b, i)
  {
    hide AllFit, Consistent, Cycle, TakenSince, TakenFrom, AllValid, AllGenuine, ItemState.Fits;
    var s := m.subs[k];
    CycleSquares(m.items, s, m.queue, moment);
    EachFits(m.items, i);
    EachFits(t.items, i);
    assert Gained(m.items[i], a, TakenFrom(News(s.sent, t.sub.sent), i));
    assert a.ledger.Valid() by { FitsLedger(a); }
    if j == k {
      TakenOnward(s.sent, t.sub.sent, m.items[i].since, i);
    } else {
      if m.items[i].subscription == s.id { SameSub(m, j, k); }
      NewsOfOthers(m.items, s, m.queue, moment, i);
      assert m.items[i].ledger.Delivered() + [] == m.items[i].ledger.Delivered();
    }
  }

  lemma FitsLedger(s: ItemState)
    requires s.Fits()
    ensures s.ledger.Valid()
  {
  }

  lemma {:induction false} SweptValid(m: Machine, now: u64, moments: seq<Moment>, n: nat)
    requires m.Valid() && m.Small() && n <= |m.subs| == |moments| && forall k :: 0 <= k < |moments| ==> |moments[k].values| == |m.items|
    ensures Swept(m, now, moments, n).0.Valid()
  {
    hide Machine.Valid, Machine.Small, Served;
    if n > 0 {
      SweptValid(m, now, moments, n - 1);
      ServedValid(Swept(m, now, moments, n - 1).0, n - 1, now, moments[n - 1]);
    }
  }

  lemma TickedGains(s: ItemState, now: u64, aggregate: Option<Entry>, sample: Entry)
    requires s.Fits()
    ensures Gained(s, Ticked(s, now, aggregate, sample), [])
  {
    hide Enqueue, AdvanceSampleTimer, Reportworthy;
    assert s.ledger.Delivered() + [] == s.ledger.Delivered();
  }

  lemma TickedPoolValid(m: Machine, now: u64, aggregates: seq<Option<Entry>>, samples: seq<Entry>)
    requires m.Valid() && |aggregates| == |samples| == |m.items|
    ensures m.Small() && m.(items := TickedAll(m.items, now, aggregates, samples)).Valid()
  {
    hide AllFit, Consistent, Ticked, TakenSince, AllValid, AllGenuine, ItemState.Fits;
    ValidIsSmall(m);
    TickedAllValid(m.items, now, aggregates, samples);
    var r := m.(items := TickedAll(m.items, now, aggregates, samples));
    forall i | 0 <= i < |m.items| ensures Alike(m.items[i], r.items[i]) && m.items[i].Fits() && r.items[i].Fits() && Gained(m.items[i], r.items[i], []) {
      EachFits(m.items, i);
      TickedGains(m.items[i], now, aggregates[i], samples[i]);
    }
    assert ItemRows(r.items) == ItemRows(m.items);
    forall i, j | 0 <= i < |r.items| && 0 <= j < |r.subs| && Belongs(r.items[i], r.subs[j]) ensures Accounts(r.items[i], r.subs[j], i) {
      assert Belongs(m.items[i], m.subs[j]);
      assert Accounts(m.items[i], m.subs[j], i);
      FitsLedger(r.items[i]);
      assert m.items[i].ledger.Delivered() + [] == m.items[i].ledger.Delivered();
    }
  }

  lemma TickValid(m: Machine, now: u64, aggregates: seq<Option<Entry>>, samples: seq<Entry>, moments: seq<Moment>)
    requires m.Valid() && |aggregates| == |samples| == |m.items|
    requires |moments| == |m.subs| && forall k :: 0 <= k < |moments| ==> |moments[k].values| == |m.items|
    ensures m.Small() && Tick(m, now, aggregates, samples, moments).0.Valid()
  {
    hide Machine.Valid, Swept, TickedAll, AllFit;
    TickedPoolValid(m, now, aggregates, samples);
    var r := m.(items := TickedAll(m.items, now, aggregates, samples));
    ValidIsSmall(r);
    SweptValid(r, now, moments, |m.subs|);
  }

  // ----- Every step

  /** Every step keeps the machine valid. */
  lemma NextValid(m: Machine, op: Op)
    requires m.Valid() && Sized(m, op)
    ensures m.Small() && Next(m, op).0.Valid()
  {
    hide Machine.Valid, Subscribe, ChangeSub, Unsubscribe, Monitor, SetAt, ItemAt, Lacks, Unmonitor, Park, Closed, Tick, Machine.Small;
    ValidIsSmall(m);
    match op
    case Subscribing(session, interval, lifetime, keepAlive, maxNotifications, enabled, now) =>
      SubscribeValid(m, session, interval, lifetime, keepAlive, maxNotifications, enabled, now);
    case Modifying(session, sub, interval, lifetime, keepAlive, maxNotifications) =>
      ChangeSubValid(m, session, sub, Parameters(interval, lifetime, keepAlive, maxNotifications));
    case Enabling(session, sub, enabled) => ChangeSubValid(m, session, sub, Publishing(enabled));
    case Unsubscribing(session, sub) => UnsubscribeValid(m, session, sub);
    case Monitoring(session, sub, config, mode, size, initial, now) =>
      MonitorValid(m, session, sub, config, mode, size, initial, now);
    case Adjusting(session, sub, id, filter, interval, handle) => SettingValid(m, sub, id, Sampling(interval, handle));
    case Switching(session, sub, id, mode) => SettingValid(m, sub, id, Mode((mode % 256) as byte));
    case Linking(session, sub, id, linked) => SettingValid(m, sub, id, AddLink(linked));
    case Unlinking(session, sub, id, linked) => SettingValid(m, sub, id, RemoveLink(linked));
    case Unmonitoring(session, sub, id) => UnmonitorValid(m, session, sub, id);
    case Requesting(session, id, handle, now, acks) => ParkValid(m, session, id, handle, now, acks);
    case Republishing(session, sub, number) =>
    case Resending(session, sub) => ChangeSubValid(m, session, sub, Resend);
    case Closing(session) => ClosedValid(m, session, |m.subs|);
    case Ticking(now, aggregates, samples, moments) => TickValid(m, now, aggregates, samples, moments);
  }

  lemma SettingValid(m: Machine, sub: u32, id: u32, c: Setting)
    requires m.Valid()
    ensures ItemAt(m, sub, id) < |m.items| ==> SetAt(m, ItemAt(m, sub, id), c).0.Valid()
  {
    hide Machine.Valid, SetAt, ItemAt;
    if ItemAt(m, sub, id) < |m.items| { SetAtValid(m, ItemAt(m, sub, id), c); }
  }

  lemma UnsubscribeValid(m: Machine, session: u32, sub: u32)
    requires m.Valid()
    ensures Unsubscribe(m, session, sub).0.Valid()
  {
    hide Machine.Valid, Place, Dropping;
    RowAt(m, session, sub);
    if SubAt(m, session, sub) < |m.subs| { DroppingValid(m, SubAt(m, session, sub)); }
  }

  lemma {:induction false} ClosedSizes(m: Machine, session: u32, n: nat)
    requires n <= |m.subs|
    ensures |Closed(m, session, n).items| == |m.items|
  {
    if n > 0 { ClosedSizes(m, session, n - 1); }
  }

  lemma NextSizes(m: Machine, op: Op)
    requires m.Small() && Sized(m, op)
    ensures |Next(m, op).0.items| == |m.items| && |Next(m, op).0.subs| == |m.subs|
  {
    hide Place, Fresh, Swept, TickedAll, AllFit, AcknowledgeAll, Closed, Started, Cleared, CountLive;
    if op.Closing? { ClosedSizes(m, op.session, |m.subs|); }
  }

  // ----- Runs

  ghost predicate AllSized(m: Machine, ops: seq<Op>) {
    forall n :: 0 <= n < |ops| ==> Sized(m, ops[n])
  }

  /** The state a run reaches. In every one of them the machine is valid. */
  ghost function After(m: Machine, ops: seq<Op>): (r: Machine)
    requires m.Valid() && AllSized(m, ops)
    ensures r.Valid() && r.Small() && |r.items| == |m.items| && |r.subs| == |m.subs|
  {
    hide Machine.Valid, Machine.Small, Next;
    if ops == [] then
      ValidIsSmall(m);
      m
    else
      var n := |ops| - 1;
      var before := After(m, ops[..n]);
      SizedAlong(m, before, ops[n]);
      NextValid(before, ops[n]);
      NextSizes(before, ops[n]);
      ValidIsSmall(Next(before, ops[n]).0);
      Next(before, ops[n]).0
  }

  lemma SizedAlong(m: Machine, r: Machine, op: Op)
    requires Sized(m, op) && |r.items| == |m.items| && |r.subs| == |m.subs|
    ensures Sized(r, op)
  {
  }

  // ----- What is reported to an item

  /** What the sampling half of a tick reports: a due aggregate, the waiting first value, and a sample worth it. */
  function SampleReports(s: ItemState, now: u64, aggregate: Option<Entry>, sample: Entry): (r: seq<Entry>)
    requires s.Fits()
  {
    if !s.inUse || s.mode == DISABLED then []
    else if s.config.hasAggregate then (if aggregate.Some? then [aggregate.value] else [])
    else if s.nextSample > now then []
    else s.Pending() + if s.Reports(sample) then [sample] else []
  }

  /** What a cycle of a Subscription reports: what waits, and the value read if data is to be resent. */
  function CycleReports(s: ItemState, sub: SubState, read: Entry): (r: seq<Entry>)
    requires s.Fits()
  {
    if !sub.enabled then []
    else
      (if s.On(sub.id) then s.Pending() else [])
      + if sub.resend && s.Reporting(sub.id) then [s.Resend(read)] else []
  }

  /** What the cycles of the first n Subscriptions report to item i. */
  function SweptReports(m: Machine, now: u64, moments: seq<Moment>, n: nat, i: nat): (r: seq<Entry>)
    requires m.Small() && n <= |m.subs| == |moments| && i < |m.items| && forall k :: 0 <= k < |moments| ==> |moments[k].values| == |m.items|
  {
    if n == 0 then []
    else
      var before := Swept(m, now, moments, n - 1).0;
      var s := before.subs[n - 1];
      SweptReports(m, now, moments, n - 1, i)
      + if s.inUse && s.nextPublish <= now then CycleReports(before.items[i], s, moments[n - 1].values[i]) else []
  }

  /** Everything a step reports to item i: only a tick reports anything. */
  function ReportsOf(m: Machine, op: Op, i: nat): (r: seq<Entry>)
    requires m.Small() && Sized(m, op) && i < |m.items|
  {
    if op.Ticking? then
      var sampled := m.(items := TickedAll(m.items, op.now, op.aggregates, op.samples));
      SampleReports(m.items[i], op.now, op.aggregates[i], op.samples[i]) + SweptReports(sampled, op.now, op.moments, |m.subs|, i)
    else []
  }

  lemma TickedReports(s: ItemState, now: u64, aggregate: Option<Entry>, sample: Entry)
    requires s.Fits()
    ensures Ticked(s, now, aggregate, sample).ledger.enqueued == s.ledger.enqueued + SampleReports(s, now, aggregate, sample)
  {
    hide Enqueue, AdvanceSampleTimer, Reportworthy;
    assert s.ledger.enqueued + [] == s.ledger.enqueued;
    if s.inUse && s.mode != DISABLED && !s.config.hasAggregate && s.nextSample <= now {
      assert (s.ledger.enqueued + s.Pending()) + (if s.Reports(sample) then [sample] else [])
        == s.ledger.enqueued + (s.Pending() + if s.Reports(sample) then [sample] else []);
    }
  }

  lemma ReadyReports(s: ItemState, sub: SubState, read: Entry)
    requires s.Fits() && sub.enabled
    ensures var w := WokenIf(s, sub.id);
      var r := if sub.resend then ResentIf(w, sub.id, read) else w;
      r.ledger.enqueued == s.ledger.enqueued + CycleReports(s, sub, read)
  {
    hide Enqueue;
    var w := WokenIf(s, sub.id);
    assert s.ledger.enqueued + [] == s.ledger.enqueued;
    assert w.Resend(read) == s.Resend(read) && w.Reporting(sub.id) == s.Reporting(sub.id);
    var a, b := if s.On(sub.id) then s.Pending() else [], if sub.resend && s.Reporting(sub.id) then [s.Resend(read)] else [];
    assert (s.ledger.enqueued + a) + b == s.ledger.enqueued + (a + b);
  }

  lemma DrainedReports(ss: seq<ItemState>, sub: u32, k: nat, i: nat)
    requires AllFit(ss) && i < |ss|
    ensures DrainedAll(ss, sub, k)[i].ledger.enqueued == ss[i].ledger.enqueued
  {
    hide Share, Deliver;
  }

  lemma CycleReported(ss: seq<ItemState>, sub: SubState, queue: seq<Request>, m: Moment, i: nat)
    requires AllFit(ss) && |m.values| == |ss| <= MAX_ITEMS && i < |ss|
    ensures ss[i].Fits() && Cycle(ss, sub, queue, m).items[i].ledger.enqueued == ss[i].ledger.enqueued + CycleReports(ss[i], sub, m.values[i])
  {
    hide AllFit, Cycle, CycleReports, WokenIf, ResentIf, DrainedAll, ItemState.Fits;
    CycleItems(ss, sub, queue, m);
    var ready := Ready(ss, sub, m.values);
    DrainedReports(ready, sub.id, |Batch(ready, sub)|, i);
    EachFits(ss, i);
    if sub.enabled {
      ReadyReports(ss[i], sub, m.values[i]);
    } else {
      assert CycleReports(ss[i], sub, m.values[i]) == [] by { NotEnabled(ss[i], sub, m.values[i]); }
      assert ss[i].ledger.enqueued + [] == ss[i].ledger.enqueued;
    }
  }

  lemma NotEnabled(s: ItemState, sub: SubState, read: Entry)
    requires s.Fits() && !sub.enabled
    ensures CycleReports(s, sub, read) == []
  {
  }

  lemma {:induction false} SweptReported(m: Machine, now: u64, moments: seq<Moment>, n: nat, i: nat)
    requires m.Small() && n <= |m.subs| == |moments| && i < |m.items| && forall k :: 0 <= k < |moments| ==> |moments[k].values| == |m.items|
    ensures Swept(m, now, moments, n).0.items[i].ledger.enqueued == m.items[i].ledger.enqueued + SweptReports(m, now, moments, n, i)
  {
    hide Cycle, CycleReports, AllFit, ItemState.Fits, NextTick, Saturated;
    if n == 0 {
      assert m.items[i].ledger.enqueued + [] == m.items[i].ledger.enqueued;
    } else {
      SweptReported(m, now, moments, n - 1, i);
      var before := Swept(m, now, moments, n - 1).0;
      var s := before.subs[n - 1];
      CycleReported(before.items, s, before.queue, moments[n - 1], i);
      var a, b, c := m.items[i].ledger.enqueued, SweptReports(m, now, moments, n - 1, i), CycleReports(before.items[i], s, moments[n - 1].values[i]);
      assert (a + b) + c == a + (b + c) && b + [] == b;
    }
  }

  lemma TickReported(m: Machine, op: Op, i: nat)
    requires m.Small() && Sized(m, op) && i < |m.items| && op.Ticking?
    ensures Next(m, op).0.items[i].ledger.enqueued == m.items[i].ledger.enqueued + ReportsOf(m, op, i)
  {
    hide Swept, SweptReports, SampleReports, Ticked, AllFit, ItemState.Fits;
    var sampled := m.(items := TickedAll(m.items, op.now, op.aggregates, op.samples));
    EachFits(m.items, i);
    TickedReports(m.items[i], op.now, op.aggregates[i], op.samples[i]);
    SweptReported(sampled, op.now, op.moments, |m.subs|, i);
    var a, b, c := m.items[i].ledger.enqueued, SampleReports(m.items[i], op.now, op.aggregates[i], op.samples[i]), SweptReports(sampled, op.now, op.moments, |m.subs|, i);
    assert (a + b) + c == a + (b + c);
  }

  /** The slot passes to another life: an item is created in it, or the one in it is cleared. */
  ghost predicate Reborn(m: Machine, op: Op, i: nat)
    requires m.Small() && Sized(m, op) && i < |m.items| && |Next(m, op).0.items| == |m.items|
  {
    ItemRow(Next(m, op).0.items[i]) != ItemRow(m.items[i])
  }

  /** A step reports to an item exactly what ReportsOf says, unless it begins or ends the item's life. */
  lemma NextReports(m: Machine, op: Op, i: nat)
    requires m.Valid() && m.Small() && Sized(m, op) && i < |m.items|
    ensures |Next(m, op).0.items| == |m.items|
    ensures var r := Next(m, op).0.items[i];
      if Reborn(m, op, i) then r.ledger == EMPTY else r.ledger.enqueued == m.items[i].ledger.enqueued + ReportsOf(m, op, i)
  {
    hide Machine.Valid, Machine.Small, Tick, Place, Fresh, FreeRow, AcknowledgeAll, Closed, Started, ReportsOf, ItemState.Configured;
    NextSizes(m, op);
    if op.Ticking? {
      TickReported(m, op, i);
      TickRows(m, op, i);
    } else {
      assert ReportsOf(m, op, i) == [] by { OnlyTicksReport(m, op, i); }
      assert m.items[i].ledger.enqueued + [] == m.items[i].ledger.enqueued;
      LifeGoesOn(m, op, i);
    }
  }

  lemma OnlyTicksReport(m: Machine, op: Op, i: nat)
    requires m.Small() && Sized(m, op) && i < |m.items| && !op.Ticking?
    ensures ReportsOf(m, op, i) == []
  {
  }

  lemma {:induction false} SweptRows(m: Machine, now: u64, moments: seq<Moment>, n: nat, i: nat)
    requires m.Small() && n <= |m.subs| == |moments| && i < |m.items| && forall k :: 0 <= k < |moments| ==> |moments[k].values| == |m.items|
    ensures Alike(m.items[i], Swept(m, now, moments, n).0.items[i])
  {
    hide Cycle, AllFit, ItemState.Fits, NextTick, Saturated, TakenFrom;
    if n > 0 {
      SweptRows(m, now, moments, n - 1, i);
      var before := Swept(m, now, moments, n - 1).0;
      CycleSquares(before.items, before.subs[n - 1], before.queue, moments[n - 1]);
    }
  }

  lemma TickRows(m: Machine, op: Op, i: nat)
    requires m.Small() && Sized(m, op) && i < |m.items| && op.Ticking? && |Next(m, op).0.items| == |m.items|
    ensures !Reborn(m, op, i)
  {
    hide Swept, Ticked, AllFit, ItemState.Fits;
    EachFits(m.items, i);
    TickedGains(m.items[i], op.now, op.aggregates[i], op.samples[i]);
    SweptRows(m.(items := TickedAll(m.items, op.now, op.aggregates, op.samples)), op.now, op.moments, |m.subs|, i);
  }

  /** The account goes on as it was, or a life begins or ends with an empty one. */
  predicate Continues(a: ItemState, b: ItemState) {
    if ItemRow(b) != ItemRow(a) then b.ledger == EMPTY else b.ledger == a.ledger
  }

  lemma SettingContinues(m: Machine, j: nat, c: Setting, i: nat)
    requires i < |m.items| && j < |m.items|
    ensures |SetAt(m, j, c).0.items| == |m.items| && Continues(m.items[i], SetAt(m, j, c).0.items[i])
  {
    hide WithLink, WithoutLink;
  }

  lemma SettingMaybeContinues(m: Machine, sub: u32, id: u32, c: Setting, i: nat)
    requires i < |m.items|
    ensures var j := ItemAt(m, sub, id);
      j < |m.items| ==> |SetAt(m, j, c).0.items| == |m.items| && Continues(m.items[i], SetAt(m, j, c).0.items[i])
  {
    hide SetAt, ItemAt;
    if ItemAt(m, sub, id) < |m.items| { SettingContinues(m, ItemAt(m, sub, id), c, i); }
  }

  lemma MonitorContinues(m: Machine, session: u32, sub: u32, config: Config, mode: u32, size: u32, initial: Option<Entry>, now: u64, i: nat)
    requires m.Small() && i < |m.items|
    ensures var r := Monitor(m, session, sub, config, mode, size, initial, now).0;
      |r.items| == |m.items| && Continues(m.items[i], r.items[i])
  {
    hide Machine.Small, Place, Fresh;
    assert ItemRows(m.items)[i] == ItemRow(m.items[i]);
  }

  lemma UnmonitorContinues(m: Machine, session: u32, sub: u32, id: u32, i: nat)
    requires i < |m.items|
    ensures var r := Unmonitor(m, session, sub, id).0;
      |r.items| == |m.items| && Continues(m.items[i], r.items[i])
  {
    hide Place;
    ItemRowAt(m, sub, id);
  }

  lemma UnsubscribeContinues(m: Machine, session: u32, sub: u32, i: nat)
    requires i < |m.items|
    ensures var r := Unsubscribe(m, session, sub).0;
      |r.items| == |m.items| && Continues(m.items[i], r.items[i])
  {
    hide Place, CountLive;
    RowAt(m, session, sub);
    EachClearing(m.items, sub, i);
  }

  /** Steps other than a tick leave an item's account as it is, or begin or end its life with an empty one. */
  lemma LifeGoesOn(m: Machine, op: Op, i: nat)
    requires m.Small() && Sized(m, op) && i < |m.items| && !op.Ticking? && |Next(m, op).0.items| == |m.items|
    ensures Continues(m.items[i], Next(m, op).0.items[i])
  {
    hide Machine.Small, Monitor, Unmonitor, Unsubscribe, SetAt, ItemAt, Lacks, Closed, Subscribe, Acknowledge, Place;
    match op
    case Unsubscribing(session, sub) => UnsubscribeContinues(m, session, sub, i);
    case Monitoring(session, sub, config, mode, size, initial, now) => MonitorContinues(m, session, sub, config, mode, size, initial, now, i);
    case Unmonitoring(session, sub, id) => UnmonitorContinues(m, session, sub, id, i);
    case Closing(session) => ClosedLives(m, session, |m.subs|, i);
    case Subscribing(session, interval, lifetime, keepAlive, maxNotifications, enabled, now) => SubscribeItems(m, session, interval, lifetime, keepAlive, maxNotifications, enabled, now);
    case Adjusting(session, sub, id, filter, interval, handle) => SettingMaybeContinues(m, sub, id, Sampling(interval, handle), i);
    case Switching(session, sub, id, mode) => SettingMaybeContinues(m, sub, id, Mode((mode % 256) as byte), i);
    case Linking(session, sub, id, linked) => SettingMaybeContinues(m, sub, id, AddLink(linked), i);
    case Unlinking(session, sub, id, linked) => SettingMaybeContinues(m, sub, id, RemoveLink(linked), i);
    case _ =>
  }

  lemma SubscribeItems(m: Machine, session: u32, interval: u32, lifetime: u32, keepAlive: u32, maxNotifications: u32, enabled: bool, now: u64)
    requires m.Small()
    ensures Subscribe(m, session, interval, lifetime, keepAlive, maxNotifications, enabled, now).0.items == m.items
  {
    hide Machine.Small, Fresh, Started;
  }

  lemma EachClearing(ss: seq<ItemState>, sub: u32, i: nat)
    requires i < |ss|
    ensures var r := Cleared(ss, sub)[i];
      if ItemRow(r) != ItemRow(ss[i]) then r.ledger == EMPTY else r == ss[i]
  {
  }

  lemma {:induction false} ClosedLives(m: Machine, session: u32, n: nat, i: nat)
    requires n <= |m.subs| && i < |m.items|
    ensures |Closed(m, session, n).items| == |m.items|
    ensures var r := Closed(m, session, n).items[i];
      if ItemRow(r) != ItemRow(m.items[i]) then r.ledger == EMPTY && !r.inUse else r == m.items[i]
  {
    hide CountLive;
    if n > 0 {
      ClosedLives(m, session, n - 1, i);
      var c := Closed(m, session, n - 1);
      EachClearing(c.items, c.subs[n - 1].id, i);
    }
  }

  // ----- Whole runs

  /** The reports a run makes to the item in slot i, since its life began. */
  ghost function Stream(m: Machine, ops: seq<Op>, i: nat): (r: seq<Entry>)
    requires m.Valid() && AllSized(m, ops) && i < |m.items|
  {
    hide Machine.Valid, Machine.Small, Next, ReportsOf, Reborn;
    if ops == [] then m.items[i].ledger.enqueued
    else
      var n := |ops| - 1;
      var before := After(m, ops[..n]);
      SizedAlong(m, before, ops[n]);
      NextSizes(before, ops[n]);
      if Reborn(before, ops[n], i) then [] else Stream(m, ops[..n], i) + ReportsOf(before, ops[n], i)
  }

  /** In every state of every run, the account of an item holds exactly the reports made to it since its life began, in order. */
  lemma {:induction false} EnqueuedIsReported(m: Machine, ops: seq<Op>, i: nat)
    requires m.Valid() && AllSized(m, ops) && i < |m.items|
    ensures After(m, ops).items[i].ledger.enqueued == Stream(m, ops, i)
  {
    hide Machine.Valid, Machine.Small, Next, ReportsOf, Reborn;
    if ops != [] {
      var n := |ops| - 1;
      EnqueuedIsReported(m, ops[..n], i);
      var before := After(m, ops[..n]);
      SizedAlong(m, before, ops[n]);
      NextReports(before, ops[n], i);
    }
  }

  /**
   In every state of every run: what was delivered to an item is what the data
   messages its Subscription sent since it was created say of it, and that,
   followed by its queue, is what was reported to it less what overflow
   discarded, in order, with the overflow bits exactly where something is missing.
   */
  lemma DeliveredIsTold(m: Machine, ops: seq<Op>, i: nat, k: nat)
    requires m.Valid() && AllSized(m, ops) && i < |m.items| && k < |m.subs|
    requires Belongs(After(m, ops).items[i], After(m, ops).subs[k])
    ensures var r := After(m, ops);
      var l := r.items[i].ledger;
      && Exact(l) && l.enqueued == Stream(m, ops, i)
      && r.items[i].since <= |r.subs[k].sent| && l.Delivered() == TakenSince(r.subs[k].sent, r.items[i].since, i)
      && l.kept == l.Delivered() + l.Queued()
  {
    hide After, Stream, Consistent, TakenSince, AllGenuine, Exact;
    EnqueuedIsReported(m, ops, i);
    var r := After(m, ops);
    EachValid(r, i);
    ExactAccount(r.items[i]);
    assert Accounts(r.items[i], r.subs[k], i);
    Halves(r.items[i].ledger);
  }

  lemma ExactAccount(s: ItemState)
    requires s.Valid()
    ensures Exact(s.ledger)
  {
  }

  lemma Halves(l: Ledger)
    requires l.Valid()
    ensures l.kept == l.Delivered() + l.Queued()
  {
  }

  /** In every state of every run the k-th data message of a Subscription has the k-th number, and its bytes are those of what it says. */
  lemma MessagesAreNumbered(m: Machine, ops: seq<Op>, k: nat, n: nat)
    requires m.Valid() && AllSized(m, ops) && k < |m.subs| && n < |After(m, ops).subs[k].sent|
    ensures Genuine(After(m, ops).subs[k].sent, n)
  {
    hide After;
    EachGenuine(After(m, ops), k);
  }

  // ----- Republish

  /** What Republish returns is the message sent last by that Subscription of that session, under its number. */
  lemma RepublishedIsLatest(m: Machine, session: u32, sub: u32, number: u32)
    requires m.Valid() && Republished(m, session, sub, number).0 == Good
    ensures var k := SubAt(m, session, sub);
      && k < |m.subs| && m.subs[k].inUse && m.subs[k].id == sub && m.subs[k].session == session
      && |m.subs[k].sent| > 0 && m.subs[k].Latest() == Sent(number, Republished(m, session, sub, number).1)
  {
    hide Place, Consistent, Accounted, AllValid;
    RowAt(m, session, sub);
    EachGenuine(m, SubAt(m, session, sub));
  }

  /** The step acknowledges the retained message of slot k. */
  predicate Acknowledges(m: Machine, op: Op, k: nat)
    requires k < |m.subs|
  {
    op.Requesting? && op.session == m.subs[k].session && m.subs[k].retained.Some?
    && (m.subs[k].id, m.subs[k].retained.value.number) in op.acks
  }

  /** The Subscription of slot k is still there, has sent nothing new, and its message was not acknowledged. */
  ghost predicate Undisturbed(m: Machine, op: Op, k: nat)
    requires m.Small() && Sized(m, op) && k < |m.subs| && |Next(m, op).0.subs| == |m.subs|
  {
    var s := Next(m, op).0.subs[k];
    SubRow(s) == SubRow(m.subs[k]) && s.sent == m.subs[k].sent && !Acknowledges(m, op, k)
  }

  lemma AcknowledgeSpares(m: Machine, session: u32, sub: u32, number: u32, k: nat)
    requires k < |m.subs| && !(session == m.subs[k].session && m.subs[k].Retains(number) && sub == m.subs[k].id)
    ensures var r := Acknowledge(m, session, sub, number).0;
      |r.subs| == |m.subs| && r.subs[k] == m.subs[k]
  {
    hide Place;
    RowAt(m, session, sub);
  }

  lemma {:induction false} AcksSpare(m: Machine, session: u32, acks: seq<(u32, u32)>, k: nat)
    requires k < |m.subs| && (session == m.subs[k].session && m.subs[k].retained.Some? ==> (m.subs[k].id, m.subs[k].retained.value.number) !in acks)
    ensures AcknowledgeAll(m, session, acks).0.subs[k] == m.subs[k]
  {
    hide Acknowledge;
    if acks != [] {
      var n := |acks| - 1;
      AcksSpare(m, session, acks[..n], k);
      assert acks[n] in acks;
      AcknowledgeSpares(AcknowledgeAll(m, session, acks[..n]).0, session, acks[n].0, acks[n].1, k);
    }
  }

  lemma DataRetains(ss: seq<ItemState>, sub: SubState, queue: seq<Request>, m: Moment, ns: seq<Notice>)
    requires AllFit(ss) && |ns| < 0x8000_0000
    ensures var t := WithData(ss, sub, queue, m, ns); t.sub == sub || |t.sub.sent| == |sub.sent| + 1
  {
    hide AllFit, ReplyTo, DrainedAll, Message;
  }

  lemma CycleRetains(ss: seq<ItemState>, sub: SubState, queue: seq<Request>, m: Moment)
    requires AllFit(ss) && |m.values| == |ss| <= MAX_ITEMS
    ensures var t := Cycle(ss, sub, queue, m); t.sub.sent == sub.sent ==> t.sub.retained == sub.retained
  {
    hide AllFit, Ready, ReplyTo, Batch, WithData;
    var ready := Ready(ss, sub, m.values);
    DataRetains(ready, Counted(ready, sub), queue, m, Batch(ready, sub));
  }

  lemma {:induction false} SweptRetains(m: Machine, now: u64, moments: seq<Moment>, n: nat, k: nat)
    requires m.Small() && n <= |m.subs| == |moments| && k < |m.subs| && forall j :: 0 <= j < |moments| ==> |moments[j].values| == |m.items|
    ensures var s := Swept(m, now, moments, n).0.subs[k];
      (k >= n ==> s == m.subs[k]) && (s.sent == m.subs[k].sent ==> s.retained == m.subs[k].retained)
  {
    hide Cycle, AllFit, NextTick, Saturated;
    if n > 0 {
      SweptRetains(m, now, moments, n - 1, k);
      var before := Swept(m, now, moments, n - 1).0;
      CycleRetains(before.items, before.subs[n - 1], before.queue, moments[n - 1]);
    }
  }

  lemma ClosedRetains(m: Machine, session: u32, n: nat, k: nat)
    requires n <= |m.subs| && k < |m.subs|
    ensures var s := Closed(m, session, n).subs[k];
      s == m.subs[k] || (s == BLANK && m.subs[k].inUse)
  {
    hide Cleared, CountLive;
    if n > 0 { ClosedRetains(m, session, n - 1, k); }
  }

  lemma TickRetains(m: Machine, op: Op, k: nat)
    requires m.Small() && Sized(m, op) && op.Ticking? && k < |m.subs|
    ensures |Next(m, op).0.subs| == |m.subs|
    ensures Next(m, op).0.subs[k].sent == m.subs[k].sent ==> Next(m, op).0.subs[k].retained == m.subs[k].retained
  {
    hide Swept, AllFit;
    SweptRetains(m.(items := TickedAll(m.items, op.now, op.aggregates, op.samples)), op.now, op.moments, |m.subs|, k);
  }

  lemma ParkRetains(m: Machine, op: Op, k: nat)
    requires m.Small() && Sized(m, op) && op.Requesting? && k < |m.subs| && !Acknowledges(m, op, k)
    ensures |Next(m, op).0.subs| == |m.subs| && Next(m, op).0.subs[k] == m.subs[k]
  {
    hide AcknowledgeAll, Machine.Small;
    AcksSpare(m, op.session, op.acks, k);
  }

  lemma DroppingRetains(m: Machine, op: Op, k: nat)
    requires m.Small() && Sized(m, op) && (op.Unsubscribing? || op.Closing?) && k < |m.subs|
    ensures |Next(m, op).0.subs| == |m.subs| && (Next(m, op).0.subs[k] == m.subs[k] || Next(m, op).0.subs[k] == BLANK)
  {
    hide Closed, Machine.Small, Place, Cleared, CountLive;
    if op.Closing? { ClosedRetains(m, op.session, |m.subs|, k); }
  }

  /** A step that neither deletes the Subscription, nor sends for it, nor acknowledges its message leaves it retained. */
  lemma NextRetains(m: Machine, op: Op, k: nat)
    requires m.Small() && Sized(m, op) && k < |m.subs| && m.subs[k].inUse
    requires |Next(m, op).0.subs| == |m.subs| && Undisturbed(m, op, k)
    ensures Next(m, op).0.subs[k].retained == m.subs[k].retained
  {
    hide Machine.Small, Next, Acknowledges;
    if op.Ticking? {
      TickRetains(m, op, k);
    } else if op.Requesting? {
      ParkRetains(m, op, k);
    } else if op.Unsubscribing? || op.Closing? {
      DroppingRetains(m, op, k);
    } else if op.Subscribing? {
      SubscribeSpares(m, op, k);
    } else if op.Modifying? || op.Enabling? || op.Resending? {
      ChangeSpares(m, op, k);
    } else {
      ItemStepsSpare(m, op);
    }
  }

  /** No step of the run deletes the Subscription of slot k, sends for it or acknowledges its message. */
  ghost predicate AllUndisturbed(m: Machine, ops: seq<Op>, k: nat)
    requires m.Valid() && AllSized(m, ops) && k < |m.subs|
  {
    hide Machine.Valid, Machine.Small, Next, Undisturbed, After;
    ops == [] || (
      var n := |ops| - 1;
      var before := After(m, ops[..n]);
      SizedAlong(m, before, ops[n]);
      NextSizes(before, ops[n]);
      AllUndisturbed(m, ops[..n], k) && Undisturbed(before, ops[n], k))
  }

  /** A message can be republished, byte for byte, as long as it is neither acknowledged nor replaced. */
  lemma {:induction false} RetainedAlongRuns(m: Machine, ops: seq<Op>, k: nat)
    requires m.Valid() && AllSized(m, ops) && k < |m.subs| && m.subs[k].inUse && AllUndisturbed(m, ops, k)
    ensures var s := After(m, ops).subs[k];
      s.inUse && SubRow(s) == SubRow(m.subs[k]) && s.retained == m.subs[k].retained
  {
    hide Machine.Valid, Machine.Small, Next, Acknowledges;
    if ops != [] {
      var n := |ops| - 1;
      RetainedAlongRuns(m, ops[..n], k);
      var before := After(m, ops[..n]);
      SizedAlong(m, before, ops[n]);
      NextSizes(before, ops[n]);
      NextRetains(before, ops[n], k);
    }
  }

  lemma SubscribeSpares(m: Machine, op: Op, k: nat)
    requires m.Small() && Sized(m, op) && k < |m.subs| && op.Subscribing? && m.subs[k].inUse
    ensures |Next(m, op).0.subs| == |m.subs| && Next(m, op).0.subs[k] == m.subs[k]
  {
    hide Machine.Small, Fresh, Started;
    assert SubRows(m.subs)[k].inUse;
  }

  lemma ChangeSpares(m: Machine, op: Op, k: nat)
    requires m.Small() && Sized(m, op) && k < |m.subs| && (op.Modifying? || op.Enabling? || op.Resending?)
    ensures |Next(m, op).0.subs| == |m.subs| && Next(m, op).0.subs[k].retained == m.subs[k].retained
  {
    hide Machine.Small, Place;
  }

  lemma ItemStepsSpare(m: Machine, op: Op)
    requires m.Small() && Sized(m, op)
    requires op.Monitoring? || op.Adjusting? || op.Switching? || op.Linking? || op.Unlinking? || op.Unmonitoring? || op.Republishing?
    ensures Next(m, op).0.subs == m.subs
  {
    hide Machine.Small, Place, Fresh, WithoutLink, ItemState.Configured;
  }
}
