/**
 What a step leaves alone: every slot it does not name, and everything that
 belongs to another session. Only the tick goes over all slots.
 */
module Frames {
  import opened Types
  import opened Timers
  import opened Ledgers
  import opened ItemStates
  import opened Selection
  import opened PoolStates
  import opened Responses
  import opened SubStates
  import opened CycleStates
  import opened Registry
  import opened Machines
  import opened Runs

  /** The step is about the Subscription of slot k. */
  ghost predicate NamesSub(m: Machine, op: Op, k: nat)
    requires k < |m.subs|
  {
    match op
    case Subscribing(_, _, _, _, _, _, _) => FreeRow(SubRows(m.subs)) == Some(k)
    case Modifying(session, sub, _, _, _, _) => SubAt(m, session, sub) == k
    case Enabling(session, sub, _) => SubAt(m, session, sub) == k
    case Unsubscribing(session, sub) => SubAt(m, session, sub) == k
    case Resending(session, sub) => SubAt(m, session, sub) == k
    case Requesting(_, _, _, _, _) => Acknowledges(m, op, k)
    case Closing(session) => m.subs[k].inUse && m.subs[k].session == session
    case Ticking(_, _, _, _) => true
    case _ => false
  }

  /** Slot j holds a Subscription that the step deletes. */
  ghost predicate Deletes(m: Machine, op: Op, j: nat)
    requires j < |m.subs|
  {
    match op
    case Unsubscribing(session, sub) => SubAt(m, session, sub) == j
    case Closing(session) => m.subs[j].inUse && m.subs[j].session == session
    case _ => false
  }

  /** The step is about the item of slot i, or deletes its Subscription. */
  ghost predicate NamesItem(m: Machine, op: Op, i: nat)
    requires i < |m.items|
  {
    match op
    case Monitoring(_, _, _, _, _, _, _) => FreeRow(ItemRows(m.items)) == Some(i)
    case Adjusting(_, sub, id, _, _, _) => ItemAt(m, sub, id) == i
    case Switching(_, sub, id, _) => ItemAt(m, sub, id) == i
    case Linking(_, sub, id, _) => ItemAt(m, sub, id) == i
    case Unlinking(_, sub, id, _) => ItemAt(m, sub, id) == i
    case Unmonitoring(_, sub, id) => ItemAt(m, sub, id) == i
    case Ticking(_, _, _, _) => true
    case _ => exists j :: 0 <= j < |m.subs| && Deletes(m, op, j) && m.items[i].subscription == m.subs[j].id
  }

  /** The loop of CloseSession deletes exactly the Subscriptions of the id it is given. */
  lemma {:induction false} ClosedExactly(m: Machine, session: u32, n: nat, k: nat)
    requires n <= |m.subs| && k < |m.subs|
    ensures Closed(m, session, n).subs[k] == if k < n && m.subs[k].inUse && m.subs[k].session == session then BLANK else m.subs[k]
  {
    hide Cleared, CountLive;
    if n > 0 { ClosedExactly(m, session, n - 1, k); }
  }

  /** And no items but theirs. */
  lemma {:induction false} ClosedSpares(m: Machine, session: u32, n: nat, i: nat)
    requires n <= |m.subs| && i < |m.items|
    requires forall j :: 0 <= j < n && m.subs[j].inUse && m.subs[j].session == session ==> m.items[i].subscription != m.subs[j].id
    ensures |Closed(m, session, n).items| == |m.items| && Closed(m, session, n).items[i] == m.items[i]
  {
    hide CountLive;
    if n > 0 {
      ClosedSpares(m, session, n - 1, i);
      ClosedExactly(m, session, n - 1, n - 1);
    }
  }

  /** A Subscription the step is not about is as it was. */
  lemma OtherSubs(m: Machine, op: Op, k: nat)
    requires m.Small() && Sized(m, op) && k < |m.subs| && !NamesSub(m, op, k)
    ensures |Next(m, op).0.subs| == |m.subs| && Next(m, op).0.subs[k] == m.subs[k]
  {
    hide Machine.Small, Place, Fresh, Closed, Swept, AcknowledgeAll, Acknowledges, Cleared, CountLive, WithLink, WithoutLink, Started, ItemState.Configured;
    match op {
      case Requesting(_, _, _, _, _) => ParkRetains(m, op, k);
      case Closing(session) => ClosedExactly(m, session, |m.subs|, k);
      case _ =>
    }
  }

  /** An item the step is not about is as it was. */
  lemma OtherItems(m: Machine, op: Op, i: nat)
    requires m.Small() && Sized(m, op) && i < |m.items| && !NamesItem(m, op, i)
    ensures |Next(m, op).0.items| == |m.items| && Next(m, op).0.items[i] == m.items[i]
  {
    hide Machine.Small, Place, Fresh, Closed, Swept, Dropping, Monitor, Set, Acknowledge, Started, FreeSlot;
    match op {
      case Monitoring(_, _, _, _, _, _, _) => MonitorSpares(m, op, i);
      case Closing(session) =>
        forall j | 0 <= j < |m.subs| && m.subs[j].inUse && m.subs[j].session == session ensures m.items[i].subscription != m.subs[j].id {
          assert Deletes(m, op, j);
        }
        ClosedSpares(m, session, |m.subs|, i);
      case Unsubscribing(session, sub) =>
        var k := SubAt(m, session, sub);
        if k < |m.subs| {
          assert Deletes(m, op, k);
          DroppingSpares(m, k, i);
        }
      case _ =>
    }
  }

  lemma MonitorSpares(m: Machine, op: Op, i: nat)
    requires m.Small() && Sized(m, op) && op.Monitoring? && i < |m.items| && FreeRow(ItemRows(m.items)) != Some(i)
    ensures |Next(m, op).0.items| == |m.items| && Next(m, op).0.items[i] == m.items[i]
  {
    hide Machine.Small, Place, Fresh, Created, ItemRows;
  }

  lemma DroppingSpares(m: Machine, k: nat, i: nat)
    requires k < |m.subs| && i < |m.items| && m.items[i].subscription != m.subs[k].id
    ensures |Dropping(m, k).items| == |m.items| && Dropping(m, k).items[i] == m.items[i]
  {
    hide CountLive;
  }

  // ----- Sessions

  /** No step a session asks for touches a Subscription of another session, or an item of it. */
  lemma OthersAreSpared(m: Machine, op: Op, k: nat, i: nat)
    requires m.Valid() && m.Small() && Sized(m, op) && !op.Ticking? && k < |m.subs| && m.subs[k].inUse && op.session != m.subs[k].session
    requires i < |m.items| && Belongs(m.items[i], m.subs[k])
    ensures |Next(m, op).0.subs| == |m.subs| && Next(m, op).0.subs[k] == m.subs[k]
    ensures |Next(m, op).0.items| == |m.items| && Next(m, op).0.items[i] == m.items[i]
  {
    hide Next, Place, AllValid, AllGenuine, Accounted, AllFit;
    SubIsNotNamed(m, op, k);
    OtherSubs(m, op, k);
    if NamesItem(m, op, i) {
      ItemIsNotNamed(m, op, k, i);
    } else {
      OtherItems(m, op, i);
    }
  }

  lemma SubIsNotNamed(m: Machine, op: Op, k: nat)
    requires m.Small() && Sized(m, op) && !op.Ticking? && k < |m.subs| && m.subs[k].inUse && op.session != m.subs[k].session
    ensures !NamesSub(m, op, k)
  {
    hide Place, AllFit;
    assert SubRows(m.subs)[k].inUse;
    if op.Modifying? || op.Enabling? || op.Unsubscribing? || op.Resending? { RowAt(m, op.session, op.sub); }
  }

  /** An item that a session's step names, or would delete, is out of its reach if it belongs to another session's Subscription. */
  lemma ItemIsNotNamed(m: Machine, op: Op, k: nat, i: nat)
    requires m.Valid() && m.Small() && Sized(m, op) && !op.Ticking? && k < |m.subs| && m.subs[k].inUse && op.session != m.subs[k].session
    requires i < |m.items| && Belongs(m.items[i], m.subs[k]) && NamesItem(m, op, i)
    ensures Next(m, op).0.items == m.items
  {
    hide Place, AllValid, AllGenuine, Accounted, AllFit, Closed, Swept, Fresh, CountLive, Set, Consistent;
    match op {
      case Monitoring(_, _, _, _, _, _, _) =>
      case Adjusting(session, sub, id, _, _, _) => OutOfReach(m, session, sub, id, k, i);
      case Switching(session, sub, id, _) => OutOfReach(m, session, sub, id, k, i);
      case Linking(session, sub, id, _) => OutOfReach(m, session, sub, id, k, i);
      case Unlinking(session, sub, id, _) => OutOfReach(m, session, sub, id, k, i);
      case Unmonitoring(session, sub, id) => OutOfReach(m, session, sub, id, k, i);
      case _ => NotDeleted(m, op, k, i);
    }
  }

  /** The session has no Subscription with the id of another session's: it is refused. */
  lemma OutOfReach(m: Machine, session: u32, sub: u32, id: u32, k: nat, i: nat)
    requires m.Valid() && k < |m.subs| && m.subs[k].inUse && session != m.subs[k].session
    requires i < |m.items| && Belongs(m.items[i], m.subs[k]) && ItemAt(m, sub, id) == i
    ensures Lacks(m, session, sub, id) == BadSubscriptionIdInvalid
  {
    hide Place, AllValid, AllGenuine, Accounted;
    ItemRowAt(m, sub, id);
    RowAt(m, session, sub);
    if SubAt(m, session, sub) < |m.subs| { SameSub(m, SubAt(m, session, sub), k); }
  }

  lemma NotDeleted(m: Machine, op: Op, k: nat, i: nat)
    requires m.Valid() && !op.Ticking? && k < |m.subs| && m.subs[k].inUse && op.session != m.subs[k].session
    requires i < |m.items| && Belongs(m.items[i], m.subs[k])
    ensures !exists j :: 0 <= j < |m.subs| && Deletes(m, op, j) && m.items[i].subscription == m.subs[j].id
  {
    hide Place, AllValid, AllGenuine, Accounted;
    if j :| 0 <= j < |m.subs| && Deletes(m, op, j) && m.items[i].subscription == m.subs[j].id {
      if op.Unsubscribing? { RowAt(m, op.session, op.sub); }
      SameSub(m, j, k);
    }
  }
  /** So over every run of other sessions' requests a Subscription and its items stay as they are. */
  lemma {:induction false} SessionsAreApart(m: Machine, ops: seq<Op>, k: nat, i: nat)
    requires m.Valid() && AllSized(m, ops) && k < |m.subs| && m.subs[k].inUse && i < |m.items| && Belongs(m.items[i], m.subs[k])
    requires forall n :: 0 <= n < |ops| ==> !ops[n].Ticking? && ops[n].session != m.subs[k].session
    ensures var r := After(m, ops);
      |r.subs| == |m.subs| && r.subs[k] == m.subs[k] && |r.items| == |m.items| && r.items[i] == m.items[i]
  {
    hide Machine.Valid, Machine.Small, Next;
    if ops != [] {
      var n := |ops| - 1;
      SessionsAreApart(m, ops[..n], k, i);
      var before := After(m, ops[..n]);
      SizedAlong(m, before, ops[n]);
      OthersAreSpared(before, ops[n], k, i);
    }
  }
}
