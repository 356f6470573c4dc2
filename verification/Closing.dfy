/**
 CloseSession and the Subscriptions of the session. The handler looks for them
 under the id of the slot it has just reset, so it finds none, and slots of the
 Subscription pool are lost one by one.
 */
module Closings {
  import opened Types
  import opened Draining
  import opened SubStates
  import opened Registry
  import opened Machines
  import opened Runs
  import opened Frames
  import opened Engines
  import S = Sessions

  lemma {:induction false} NoneClosed(m: Machine, session: u32, n: nat)
    requires n <= |m.subs| && forall k :: 0 <= k < |m.subs| && m.subs[k].inUse ==> m.subs[k].session != session
    ensures Closed(m, session, n) == m
  {
    if n > 0 { NoneClosed(m, session, n - 1); }
  }

  /** No Subscription belongs to the session id of a reset slot. */
  ghost predicate NoneOfZero(m: Machine) {
    forall k :: 0 <= k < |m.subs| && m.subs[k].inUse ==> m.subs[k].session != 0
  }

  /** How many Subscriptions are live. */
  function Live(m: Machine): (r: nat) { CountLive(SubRows(m.subs)) }

  /** The handler: close the slot, then delete what belongs to the slot's id as it is then. */
  method HandleClose(table: S.SessionTable, engine: Engine, i: nat, token: u32) returns (s: Status)
    requires table.Valid() && i < table.slots.Length && engine.Valid()
    modifies table`log, table.slots, engine`active, engine.items, engine.subs
    ensures table.Valid() && engine.Valid()
    ensures s == Good <==> old(table.slots[i].state) != S.Closed && old(table.slots[i].token) == token
    ensures s == Good ==> table.slots[..] == old(table.slots[..])[i := S.CLOSED]
    ensures s == Good ==> engine.State() == Closed(old(engine.State()), 0, |old(engine.State()).subs|)
    ensures s != Good ==> table.slots[..] == old(table.slots[..]) && engine.State() == old(engine.State())
  {
    hide Engine.Valid, S.SessionTable.Valid, Closed;
    ghost var m, q := engine.State(), engine.queue[..];
    s := table.CloseSession(i, token);
    assert engine.Valid() && engine.State() == m;
    if s == Good {
      assert table.slots[i] == table.slots[..][i];
      engine.Lengths();
      engine.CloseSubscriptions(table.slots[i].id);
    }
  }

  /**
   A Subscription survives the close of its session exactly if the session's id
   is not 0, and no live session's id is.
   */
  lemma CloseKeepsSubscriptions(m: Machine, k: nat)
    requires k < |m.subs| && m.subs[k].inUse
    ensures Closed(m, 0, |m.subs|).subs[k].inUse <==> m.subs[k].session != 0
    ensures m.subs[k].session != 0 ==> Closed(m, 0, |m.subs|).subs[k] == m.subs[k]
  {
    hide Closed;
    ClosedExactly(m, 0, |m.subs|, k);
  }

  // ----- The pool runs dry

  lemma NewSubscriptionCounts(m: Machine, session: u32, interval: u32, now: u64)
    requires m.Small() && NoneOfZero(m) && session != 0
    ensures var r := Subscribe(m, session, interval, 0, 0, 0, true, now);
      && NoneOfZero(r.0) && |r.0.subs| == |m.subs|
      && (r.1 == Good <==> !Full(SubRows(m.subs)))
      && (r.1 == Good ==> Live(r.0) == Live(m) + 1) && (r.1 != Good ==> r.0 == m)
  {
    hide Machine.Small, CountLive, Fresh;
    var rows := SubRows(m.subs);
    var r := Subscribe(m, session, interval, 0, 0, 0, true, now).0;
    if FreeRow(rows).Some? {
      var k := FreeRow(rows).value;
      SomeFreshSlots(m);
      var s := r.subs[k];
      CountUpdate(rows, k, SubRow(s));
      assert SubRows(r.subs) == rows[k := SubRow(s)];
    }
  }

  lemma SomeFreshSlots(m: Machine)
    requires m.Small()
    ensures |m.subs| < MAX_ID && Fresh(SubRows(m.subs), m.nextSub, 0).Some?
  {
    SomeFresh(SubRows(m.subs), m.nextSub);
  }

  lemma {:induction false} FullIfAllLive(rows: seq<Row>)
    requires CountLive(rows) == |rows|
    ensures Full(rows)
  {
    if rows != [] {
      var n := |rows| - 1;
      FullIfAllLive(rows[..n]);
      forall j | 0 <= j < |rows| ensures rows[j].inUse {
        if j < n { assert rows[..n][j].inUse; }
      }
    }
  }

  lemma {:induction false} AllLiveIfFull(rows: seq<Row>)
    requires Full(rows)
    ensures CountLive(rows) == |rows|
  {
    if rows != [] { AllLiveIfFull(rows[..|rows| - 1]); }
  }

  ghost predicate AllClosed(slots: seq<S.Session>) {
    forall i :: 0 <= i < |slots| ==> slots[i].state == S.Closed
  }

  /** The only live session is that of slot i. */
  ghost predicate OnlySession(slots: seq<S.Session>, i: nat) {
    i < |slots| && slots[i].state != S.Closed && forall j :: 0 <= j < |slots| && j != i ==> slots[j].state == S.Closed
  }

  /** A client comes: its session is created and activated, and let through to a handler. */
  method Enter(table: S.SessionTable, idEntropy: u32, tokenEntropy: u32) returns (slot: nat)
    requires table.Valid() && table.channelOpen && table.slots.Length > 0 && AllClosed(table.slots[..])
    modifies table`log, table.slots
    ensures table.Valid() && OnlySession(table.slots[..], slot) && table.slots[slot].id != 0
  {
    hide S.SessionTable.Valid;
    assert table.slots[..][0].state == S.Closed;
    var created, i := table.CreateSession(true, Some(idEntropy), Some(tokenEntropy));
    var token := table.slots[i].token;
    assert OnlySession(table.slots[..], i);
    assert S.Tokens(table.slots[..])[i] == Some(token);
    var activated := table.ActivateSession(token, 321, Good);
    assert table.slots[i].state == S.Activated;
    var passed, active := table.Gate(S.WithSession, Good, token);
    slot := active.value;
  }

  /** A session comes, subscribes once, and is closed: it is gone, the Subscription is not. */
  method Visit(table: S.SessionTable, engine: Engine, idEntropy: u32, tokenEntropy: u32, interval: u32, now: u64) returns (s: Status)
    requires table.Valid() && table.channelOpen && table.slots.Length > 0 && AllClosed(table.slots[..])
    requires engine.Valid() && NoneOfZero(engine.State())
    modifies table`log, table.slots, engine, engine.items, engine.subs
    ensures table.Valid() && AllClosed(table.slots[..]) && engine.Valid() && NoneOfZero(engine.State())
    ensures |engine.State().subs| == |old(engine.State()).subs|
    ensures s == Good <==> !Full(SubRows(old(engine.State()).subs))
    ensures Live(engine.State()) == Live(old(engine.State())) + if s == Good then 1 else 0
  {
    hide Engine.Valid, Engine.State, S.SessionTable.Valid, Closed, Subscribe, Full, NoneOfZero, Live;
    ghost var m := engine.State();
    var slot := Enter(table, idEntropy, tokenEntropy);
    assert engine.Valid() && engine.State() == m;
    var id, token := table.slots[slot].id, table.slots[slot].token;
    NewSubscriptionCountsOf(engine, m, id, interval, now);
    s := engine.CreateSubscription(id, interval, 0, 0, 0, true, now);
    ghost var after := engine.State();
    assert table.Valid();
    var closed := HandleClose(table, engine, slot, token);
    NoneClosedOfZero(after);
  }

  lemma NewSubscriptionCountsOf(engine: Engine, m: Machine, session: u32, interval: u32, now: u64)
    requires engine.Valid() && engine.State() == m && NoneOfZero(m) && session != 0
    ensures m.Small()
    ensures var r := Subscribe(m, session, interval, 0, 0, 0, true, now);
      && NoneOfZero(r.0) && |r.0.subs| == |m.subs|
      && (r.1 == Good <==> !Full(SubRows(m.subs)))
      && (r.1 == Good ==> Live(r.0) == Live(m) + 1) && (r.1 != Good ==> r.0 == m)
  {
    hide Engine.State, Machine.Valid, Machine.Small, Subscribe, NoneOfZero, Live, Full;
    engine.Parts();
    ValidIsSmall(m);
    NewSubscriptionCounts(m, session, interval, now);
  }

  lemma NoneClosedOfZero(m: Machine)
    requires NoneOfZero(m)
    ensures Closed(m, 0, |m.subs|) == m
  {
    hide Closed;
    NoneClosed(m, 0, |m.subs|);
  }

  /**
   As many visits as there are slots, and the pool is full though no session is
   left: from then on every CreateSubscription is refused.
   */
  method Exhaust(table: S.SessionTable, engine: Engine, idEntropy: seq<u32>, tokenEntropy: seq<u32>, interval: u32, now: u64)
    requires table.Valid() && table.channelOpen && table.slots.Length > 0 && AllClosed(table.slots[..])
    requires engine.Valid() && NoneOfZero(engine.State())
    requires |idEntropy| == |tokenEntropy| >= |engine.State().subs|
    modifies table`log, table.slots, engine, engine.items, engine.subs
    ensures table.Valid() && AllClosed(table.slots[..]) && engine.Valid() && Full(SubRows(engine.State().subs))
  {
    hide Engine.Valid, Engine.State, S.SessionTable.Valid, NoneOfZero, Full, CountLive;
    ghost var total := |engine.State().subs|;
    for n := 0 to |idEntropy|
      invariant table.Valid() && AllClosed(table.slots[..]) && engine.Valid() && NoneOfZero(engine.State())
      invariant |engine.State().subs| == total && (Live(engine.State()) >= n || Live(engine.State()) == total)
    {
      ghost var m := engine.State();
      var s := Visit(table, engine, idEntropy[n], tokenEntropy[n], interval, now);
      if s != Good { AllLiveIfFull(SubRows(m.subs)); }
    }
    FullIfAllLive(SubRows(engine.State().subs));
  }
  /** And no CreateSubscription succeeds then, whoever asks. */
  lemma FullRefuses(m: Machine, session: u32, interval: u32, lifetime: u32, keepAlive: u32, maxNotifications: u32, enabled: bool, now: u64)
    requires m.Small() && Full(SubRows(m.subs))
    ensures Subscribe(m, session, interval, lifetime, keepAlive, maxNotifications, enabled, now) == (m, BadTooManySubscriptions)
  {
    hide Machine.Small, Fresh;
  }
}
