/**
 Which messages can be had again with Republish: the data message a Subscription
 sent last, if it is at most 256 bytes long, until it is acknowledged, replaced
 or deleted.
 */
module Retentions {
  import opened Types
  import opened Timers
  import opened Ledgers
  import opened ItemStates
  import opened Selection
  import opened PoolStates
  import opened Responses
  import opened SubStates
  import opened CycleStates
  import opened Registry
  import opened Machines
  import opened Runs

  /** What a Subscription keeps for Republish once it has sent these messages. */
  function Kept(sent: seq<Posted>): (r: Option<Sent>)
    requires |sent| > 0
  {
    var p := sent[|sent| - 1];
    if |p.message| <= 256 then Some(Sent(p.number, p.message)) else None
  }

  /** Nothing was sent and nothing else is kept, or one message was sent and is kept if it is short enough. */
  predicate SentOn(s: SubState, r: SubState) {
    || (r.sent == s.sent && r.retained == s.retained)
    || (|r.sent| == |s.sent| + 1 && r.sent[..|s.sent|] == s.sent && r.retained == Kept(r.sent))
  }

  lemma DataIsKept(ss: seq<ItemState>, sub: SubState, queue: seq<Request>, m: Moment, ns: seq<Notice>)
    requires AllFit(ss) && |ns| < 0x8000_0000
    ensures SentOn(sub, WithData(ss, sub, queue, m, ns).sub) && SubRow(WithData(ss, sub, queue, m, ns).sub) == SubRow(sub)
  {
    hide AllFit, ReplyTo, DrainedAll, Message;
  }

  lemma CycleIsKept(ss: seq<ItemState>, sub: SubState, queue: seq<Request>, m: Moment)
    requires AllFit(ss) && |m.values| == |ss| <= MAX_ITEMS
    ensures SentOn(sub, Cycle(ss, sub, queue, m).sub) && SubRow(Cycle(ss, sub, queue, m).sub) == SubRow(sub)
  {
    hide AllFit, Ready, Batch, Counted, WithData, WithoutData, SentOn;
    var ready := Ready(ss, sub, m.values);
    DataIsKept(ready, Counted(ready, sub), queue, m, Batch(ready, sub));
    IdleIsKept(ready, Counted(ready, sub), queue, m);
    CountingIsNoMatter(ready, sub, WithData(ready, Counted(ready, sub), queue, m, Batch(ready, sub)).sub);
    CountingIsNoMatter(ready, sub, WithoutData(ready, Counted(ready, sub), queue, m).sub);
  }

  lemma IdleIsKept(ss: seq<ItemState>, sub: SubState, queue: seq<Request>, m: Moment)
    ensures SentOn(sub, WithoutData(ss, sub, queue, m).sub) && SubRow(WithoutData(ss, sub, queue, m).sub) == SubRow(sub)
  {
    hide ReplyTo;
  }

  lemma CountingIsNoMatter(ss: seq<ItemState>, sub: SubState, r: SubState)
    requires AllFit(ss) && |ss| <= MAX_ITEMS
    ensures SubRow(Counted(ss, sub)) == SubRow(sub) && (SentOn(Counted(ss, sub), r) <==> SentOn(sub, r))
  {
    hide AllFit, Batch, Due;
  }

  lemma {:induction false} SweptIsKept(m: Machine, now: u64, moments: seq<Moment>, n: nat, k: nat)
    requires m.Small() && n <= |m.subs| == |moments| && k < |m.subs| && forall j :: 0 <= j < |moments| ==> |moments[j].values| == |m.items|
    ensures var s := Swept(m, now, moments, n).0.subs[k];
      SubRow(s) == SubRow(m.subs[k]) && SentOn(m.subs[k], s) && (k >= n ==> s == m.subs[k])
  {
    hide Cycle, AllFit, NextTick, Saturated;
    if n > 0 {
      SweptIsKept(m, now, moments, n - 1, k);
      var before := Swept(m, now, moments, n - 1).0;
      CycleIsKept(before.items, before.subs[n - 1], before.queue, moments[n - 1]);
    }
  }

  /** The one slot of a live Subscription is where it is found. */
  lemma FoundAt(m: Machine, k: nat)
    requires m.Valid() && k < |m.subs| && m.subs[k].inUse
    ensures SubAt(m, m.subs[k].session, m.subs[k].id) == k
  {
    hide Place, AllValid, AllGenuine, Accounted, CountLive;
    var rows, row := SubRows(m.subs), SubRow(m.subs[k]);
    assert rows[k] == row && row.inUse;
    assert forall j :: 0 <= j < k && rows[j].inUse ==> rows[j].id != rows[k].id;
    OnlyPlace(rows, row, k);
  }

  /**
   A tick in which a Subscription sends: Republish of that number answers with
   exactly that message if it is at most 256 bytes long, and with
   Bad_MessageNotAvailable if it is longer.
   */
  lemma SentCanBeRepublished(m: Machine, op: Op, k: nat)
    requires m.Valid() && m.Small() && Sized(m, op) && op.Ticking? && k < |m.subs| && m.subs[k].inUse
    requires |Next(m, op).0.subs| == |m.subs| && Next(m, op).0.subs[k].sent != m.subs[k].sent
    ensures var r := Next(m, op).0;
      && |r.subs[k].sent| == |m.subs[k].sent| + 1
      && var p := r.subs[k].sent[|m.subs[k].sent|];
        Republished(r, m.subs[k].session, m.subs[k].id, p.number) ==
          if |p.message| <= 256 then (Good, p.message) else (BadMessageNotAvailable, [])
  {
    hide Machine.Valid, Swept, Place, AllFit;
    NextValid(m, op);
    var t := m.(items := TickedAll(m.items, op.now, op.aggregates, op.samples));
    SweptIsKept(t, op.now, op.moments, |m.subs|, k);
    FoundAt(Next(m, op).0, k);
  }

  /** And so it does over every run that neither sends for the Subscription, nor acknowledges the message, nor deletes it. */
  lemma RepublishedUntilDisturbed(m: Machine, ops: seq<Op>, k: nat, number: u32)
    requires m.Valid() && AllSized(m, ops) && k < |m.subs| && m.subs[k].inUse && AllUndisturbed(m, ops, k)
    ensures Republished(After(m, ops), m.subs[k].session, m.subs[k].id, number) == Republished(m, m.subs[k].session, m.subs[k].id, number)
  {
    hide Machine.Valid, Machine.Small, After, Place, AllUndisturbed;
    RetainedAlongRuns(m, ops, k);
    FoundAt(m, k);
    FoundAt(After(m, ops), k);
  }

  lemma AcknowledgedOnce(m: Machine, k: nat)
    requires m.Valid() && k < |m.subs| && m.subs[k].inUse && m.subs[k].retained.Some?
    ensures var s, number := m.subs[k], m.subs[k].retained.value.number;
      var r := Acknowledge(m, s.session, s.id, number);
      && r.1 == Good && |r.0.subs| == |m.subs| && Republished(r.0, s.session, s.id, number) == (BadMessageNotAvailable, [])
  {
    hide Machine.Valid, Place;
    FoundAt(m, k);
    var s, number := m.subs[k], m.subs[k].retained.value.number;
    var r := Acknowledge(m, s.session, s.id, number).0;
    assert SubRows(r.subs) == SubRows(m.subs);
  }

  lemma OneAck(m: Machine, session: u32, ack: (u32, u32))
    ensures AcknowledgeAll(m, session, [ack]) == (Acknowledge(m, session, ack.0, ack.1).0, [AckCode(Acknowledge(m, session, ack.0, ack.1).1)])
  {
    hide Acknowledge, AckCode;
    assert [ack][..0] == [];
    assert AcknowledgeAll(m, session, [ack][..0]) == (m, []);
    var code := AckCode(Acknowledge(m, session, ack.0, ack.1).1);
    assert [] + [code] == [code];
  }

  /** The code an acknowledgement gets: 0 if it names the retained message, Bad_SequenceNumberUnknown or Bad_SubscriptionIdInvalid if not. */
  lemma AckCodes(m: Machine, session: u32, sub: u32, number: u32)
    ensures var r, k := Acknowledge(m, session, sub, number), SubAt(m, session, sub);
      && (k == |m.subs| ==> r.0 == m && AckCode(r.1) == 0x8028_0000)
      && (k < |m.subs| && !(m.subs[k].retained.Some? && m.subs[k].retained.value.number == number) ==> r.0 == m && AckCode(r.1) == 0x807A_0000)
      && (k < |m.subs| && m.subs[k].retained.Some? && m.subs[k].retained.value.number == number ==>
            AckCode(r.1) == 0 && r.0 == m.(subs := m.subs[k := m.subs[k].(retained := None)]))
  {
    hide Place;
  }

  /** A PublishRequest of the owning session that acknowledges it: the code is 0, and the message is gone. */
  lemma AcknowledgedIsGone(m: Machine, id: u32, handle: u32, now: u64, k: nat, at: nat)
    requires m.Valid() && m.Small() && k < |m.subs| && m.subs[k].inUse && m.subs[k].retained.Some? && FreeSlot(m.queue) == Some(at)
    ensures var s, number := m.subs[k], m.subs[k].retained.value.number;
      var r := Next(m, Requesting(s.session, id, handle, now, [(s.id, number)])).0;
      && r.queue == m.queue[at := Waiting(s.session, id, handle, now, [0])]
      && |r.subs| == |m.subs| && Republished(r, s.session, s.id, number) == (BadMessageNotAvailable, [])
  {
    hide Machine.Small, Machine.Valid, Acknowledge, AcknowledgeAll, FreeSlot, SubAt;
    var s, number := m.subs[k], m.subs[k].retained.value.number;
    OneAck(m, s.session, (s.id, number));
    AcknowledgedOnce(m, k);
    QueueIsNoMatter(Acknowledge(m, s.session, s.id, number).0, m.queue[at := Waiting(s.session, id, handle, now, [0])], s.session, s.id, number);
  }

  lemma QueueIsNoMatter(m: Machine, queue: seq<Request>, session: u32, sub: u32, number: u32)
    ensures Republished(m.(queue := queue), session, sub, number) == Republished(m, session, sub, number)
  {
    hide Place;
  }
}
