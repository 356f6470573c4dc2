/**
 What publish cycles get done when nothing is sampled in between: a batch that
 no answer can carry is never delivered and eats one PublishRequest per cycle;
 any other is delivered by the next answer that goes out.
 */
module Progress {
  import opened Types
  import opened Wire
  import opened Codec
  import opened Publishing
  import opened Ledgers
  import opened ItemStates
  import opened Selection
  import opened PoolStates
  import opened Notifications
  import opened Responses
  import opened SubStates
  import opened CycleStates

  // ----- Batches no answer can carry

  const BARE: Cover := Cover(0, 0, false, 0, 0, [])

  /** An entry cannot be encoded, or even an answer without acknowledgements is too long. */
  predicate Unbuildable(ns: seq<Notice>) {
    !Sendable(ns) || |Answer(BARE, ns)| > BODY_BYTES
  }

  lemma {:induction false} AcksLength(acks: seq<u32>)
    ensures |EncAcks(acks)| == 4 * |acks|
  {
    hide LE;
    if acks != [] { AcksLength(acks[..|acks| - 1]); }
  }

  /** Of what an answer covers, only the acknowledgements make it longer. */
  lemma AnswerLength(c: Cover, ns: seq<Notice>)
    requires Sendable(ns)
    ensures |Answer(c, ns)| == |Answer(BARE, ns)| + 4 * |Prefix(c.acks, MAX_PUBLISH_ACKS)|
  {
    hide LE, EncI64, DataChange, EncAcks, Sendable, HeaderTail;
    var acks := Prefix(c.acks, MAX_PUBLISH_ACKS);
    assert Prefix(BARE.acks, MAX_PUBLISH_ACKS) == [];
    AcksLength(acks);
    AcksLength([]);
    Length64(c.time);
    Length64(0);
    Length32(|acks|);
    Length32(0);
  }

  lemma Length64(x: i64)
    ensures |EncI64(x)| == 8
  {
    hide LE;
  }

  /** Unbuildable is what never gets an answer, whoever asks; anything else does, without acknowledgements and if it goes out. */
  lemma UnbuildableIsNeverAnswered(r: Request, c: Cover, ns: seq<Notice>, emitted: Status, faulted: Status)
    requires |ns| < 0x8000_0000 && r.Waiting?
    ensures Unbuildable(ns) ==> !ReplyTo(r, c, ns, emitted, faulted).Answered?
    ensures !Unbuildable(ns) && emitted == Good && c.acks == [] ==> ReplyTo(r, c, ns, emitted, faulted).Answered?
  {
    hide Sendable, Answer, ReplyTo;
    AnsweredExactly(r, c, ns, emitted, faulted);
    if Sendable(ns) { AnswerLength(c, ns); }
  }

  // ----- Preparing twice is preparing once

  /** Nothing of the item waits to be queued. */
  ghost predicate Awake(s: ItemState) {
    s.Fits() && (s.hasValue ==> s.hasReported && !s.Waiting())
  }

  ghost predicate AllAwake(ss: seq<ItemState>, sub: u32) {
    forall i :: 0 <= i < |ss| ==> ss[i].Fits() && (ss[i].On(sub) ==> Awake(ss[i]))
  }

  lemma AwakeStays(ss: seq<ItemState>, sub: u32)
    requires AllAwake(ss, sub)
    ensures AllFit(ss) && WokenAll(ss, sub) == ss
  {
    forall i | 0 <= i < |ss| ensures WokenIf(ss[i], sub) == ss[i] { }
  }

  lemma ResentIsAwake(s: ItemState, sub: u32, read: Entry)
    requires s.Valid() && (s.On(sub) ==> Awake(s))
    ensures s.Fits() && (ResentIf(s, sub, read).On(sub) ==> Awake(ResentIf(s, sub, read)))
  {
    hide Enqueue, Ordered, Faithful;
    ValidCore(s);
    TakeOverValid(s, s.Resend(read));
  }

  lemma WokenIsAwake(s: ItemState, sub: u32)
    requires s.Valid()
    ensures s.Fits() && (WokenIf(s, sub).On(sub) ==> Awake(WokenIf(s, sub))) && WokenIf(s, sub).Valid()
  {
    hide Enqueue, Ordered, Faithful, ItemState.Valid;
    ValidCore(s);
    WokenValid(s);
  }

  lemma RefreshedIsAwake(ss: seq<ItemState>, sub: u32, resend: bool, values: seq<Entry>)
    requires AllValid(ss) && |values| == |ss|
    ensures AllFit(ss) && AllAwake(Refreshed(ss, sub, resend, values), sub)
  {
    hide ItemState.Valid, ItemState.Fits, ItemState.On, Awake, WokenIf, ResentIf;
    ValidFits(ss);
    var woken := WokenAll(ss, sub);
    forall i | 0 <= i < |ss| ensures woken[i].Valid() && (woken[i].On(sub) ==> Awake(woken[i])) { WokenIsAwake(ss[i], sub); }
    if resend {
      forall i | 0 <= i < |ss| ensures var r := ResentIf(woken[i], sub, values[i]); r.On(sub) ==> Awake(r) {
        ResentIsAwake(woken[i], sub, values[i]);
      }
    }
  }

  // ----- Cycles one after the other

  /** One cycle: the requests that wait at its time, and what the outside contributes. */
  datatype Round = Round(queue: seq<Request>, moment: Moment)

  ghost predicate Sized(rounds: seq<Round>, n: nat) {
    forall k :: 0 <= k < |rounds| ==> |rounds[k].moment.values| == n
  }

  /** The state before the last of some rounds is that after those before it. */
  ghost function Rounds(ss: seq<ItemState>, sub: SubState, rounds: seq<Round>): (r: (seq<ItemState>, SubState))
    requires AllFit(ss) && |ss| <= MAX_ITEMS && Sized(rounds, |ss|)
    ensures |r.0| == |ss| && AllFit(r.0)
  {
    hide Cycle, ItemState.Fits;
    if rounds == [] then (ss, sub)
    else
      var n := |rounds| - 1;
      var before := Rounds(ss, sub, rounds[..n]);
      var t := Cycle(before.0, before.1, rounds[n].queue, rounds[n].moment);
      (t.items, t.sub)
  }

  /** What the k-th round ends with. */
  ghost function TurnAt(ss: seq<ItemState>, sub: SubState, rounds: seq<Round>, k: nat): (t: Turn)
    requires AllFit(ss) && |ss| <= MAX_ITEMS && Sized(rounds, |ss|) && k < |rounds|
    ensures |t.items| == |ss| && AllFit(t.items)
  {
    hide Cycle, ItemState.Fits;
    var before := Rounds(ss, sub, rounds[..k]);
    Cycle(before.0, before.1, rounds[k].queue, rounds[k].moment)
  }

  /** A cycle over an unbuildable batch prepares the items and delivers nothing; the request it took is gone. */
  ghost predicate Wasted(queue: seq<Request>, session: u32, t: Turn) {
    && !t.outcome.Answered?
    && match FirstFor(queue, session)
       case None => t.outcome == Idle && t.queue == queue
       case Some(at) => !t.outcome.Idle? && t.outcome.request == queue[at] && t.queue == queue[at := Free]
  }

  lemma WastedCycle(ss: seq<ItemState>, sub: SubState, r: Round)
    requires AllFit(ss) && |r.moment.values| == |ss| <= MAX_ITEMS
    requires var ready := Ready(ss, sub, r.moment.values); Batch(ready, sub) != [] && Unbuildable(Batch(ready, sub))
    ensures var ready := Ready(ss, sub, r.moment.values);
      var t := Cycle(ss, sub, r.queue, r.moment);
      t.items == ready && t.sub == Counted(ready, sub) && Wasted(r.queue, sub.session, t)
  {
    hide Refreshed, Unbuildable, Due, ReplyTo;
    var ready := Ready(ss, sub, r.moment.values);
    var ns := Batch(ready, sub);
    var counted := Counted(ready, sub);
    match FirstFor(r.queue, sub.session)
    case None =>
    case Some(at) =>
      UnbuildableIsNeverAnswered(r.queue[at], CoverOf(r.queue[at], counted, counted.more, r.moment.time), ns, r.moment.emitted, r.moment.faulted);
  }

  /** Once counted and prepared, a Subscription and its items look the same to the next cycle. */
  lemma SameAgain(ready: seq<ItemState>, sub: SubState, values: seq<Entry>)
    requires AllFit(ready) && |ready| <= MAX_ITEMS && |values| == |ready| && sub.enabled && AllAwake(ready, sub.id)
    ensures var counted := Counted(ready, sub);
      && Ready(ready, counted, values) == ready && Batch(ready, counted) == Batch(ready, sub) && Counted(ready, counted) == counted
  {
    hide WokenAll, AllAwake;
    AwakeStays(ready, sub.id);
  }

  /**
   If the batch of the first cycle is unbuildable, so are those of all that
   follow: no cycle answers, each takes a waiting request, and the items stay
   as the first cycle prepared them.
   */
  lemma {:induction false} StuckForever(ss: seq<ItemState>, sub: SubState, rounds: seq<Round>, k: nat)
    requires AllValid(ss) && AllFit(ss) && |ss| <= MAX_ITEMS && Sized(rounds, |ss|) && k < |rounds| && sub.enabled
    requires var ready := Ready(ss, sub, rounds[0].moment.values); Batch(ready, sub) != [] && Unbuildable(Batch(ready, sub))
    ensures var ready := Ready(ss, sub, rounds[0].moment.values);
      var t := TurnAt(ss, sub, rounds, k);
      t.items == ready && t.sub == Counted(ready, sub) && Wasted(rounds[k].queue, sub.session, t)
  {
    hide Cycle, Ready, Batch, Counted, Unbuildable, Wasted, ItemState.Valid, ItemState.Fits;
    var ready := Ready(ss, sub, rounds[0].moment.values);
    if k == 0 {
      assert rounds[..0] == [];
      WastedCycle(ss, sub, rounds[0]);
    } else {
      StuckForever(ss, sub, rounds, k - 1);
      assert rounds[..k][..k - 1] == rounds[..k - 1];
      ReadyIsAwake(ss, sub, rounds[0].moment.values);
      SameAgain(ready, sub, rounds[k].moment.values);
      CountedKeeps(ready, sub);
      WastedCycle(ready, Counted(ready, sub), rounds[k]);
    }
  }

  lemma ReadyIsAwake(ss: seq<ItemState>, sub: SubState, values: seq<Entry>)
    requires AllValid(ss) && AllFit(ss) && |values| == |ss| && sub.enabled
    ensures AllAwake(Ready(ss, sub, values), sub.id)
  {
    hide AllValid, AllFit, AllAwake, Refreshed;
    RefreshedIsAwake(ss, sub.id, sub.resend, values);
  }

  lemma CountedKeeps(ready: seq<ItemState>, sub: SubState)
    requires AllFit(ready) && |ready| <= MAX_ITEMS
    ensures Counted(ready, sub).session == sub.session
  {
  }

  // ----- Batches that go out

  /** All entries queued in the items. */
  function Backlog(ss: seq<ItemState>): (r: nat)
    requires AllFit(ss)
  {
    if ss == [] then 0 else Backlog(ss[..|ss| - 1]) + |ss[|ss| - 1].ledger.Queued()|
  }

  /** The entries of the first n items in a sequence of notices. */
  function TakenOf(ns: seq<Notice>, n: nat): (r: nat) {
    if n == 0 then 0 else TakenOf(ns, n - 1) + |TakenFrom(ns, n - 1)|
  }

  lemma {:induction false} TakenOfMore(ns: seq<Notice>, last: Notice, n: nat)
    ensures TakenOf(ns + [last], n) == TakenOf(ns, n) + if last.item < n then 1 else 0
  {
    assert (ns + [last])[..|ns|] == ns;
    if n > 0 { TakenOfMore(ns, last, n - 1); }
  }

  lemma {:induction false} TakenOfAll(ns: seq<Notice>, n: nat)
    requires forall k :: 0 <= k < |ns| ==> ns[k].item < n
    ensures TakenOf(ns, n) == |ns|
  {
    if ns == [] {
      TakenOfNone(n);
    } else {
      var m := |ns| - 1;
      assert ns[..m] + [ns[m]] == ns;
      TakenOfAll(ns[..m], n);
      TakenOfMore(ns[..m], ns[m], n);
    }
  }

  lemma {:induction false} TakenOfNone(n: nat)
    ensures TakenOf([], n) == 0
  {
    if n > 0 { TakenOfNone(n - 1); }
  }

  lemma {:induction false} TaggedItems(i: nat, handle: u32, q: seq<Entry>)
    ensures forall k :: 0 <= k < |q| ==> Tagged(i, handle, q)[k].item == i
  {
    if q != [] { TaggedItems(i, handle, q[..|q| - 1]); }
  }

  lemma {:induction false} GatherItems(vs: seq<ItemView>, chosen: seq<bool>, n: nat)
    requires n <= |vs| == |chosen|
    ensures forall k :: 0 <= k < |Gather(vs, chosen, n)| ==> Gather(vs, chosen, n)[k].item < n
  {
    if n > 0 {
      GatherItems(vs, chosen, n - 1);
      TaggedItems(n - 1, vs[n - 1].handle, vs[n - 1].queued);
    }
  }

  lemma SelectedItems(vs: seq<ItemView>, sub: u32)
    ensures forall k :: 0 <= k < |Selected(vs, sub)| ==> Selected(vs, sub)[k].item < |vs|
  {
    hide Gather;
    GatherItems(vs, Reporters(vs, sub), |vs|);
    GatherItems(vs, Linked(vs, sub), |vs|);
  }

  lemma {:induction false} BacklogAfter(a: seq<ItemState>, b: seq<ItemState>, ns: seq<Notice>)
    requires AllFit(a) && AllFit(b) && |a| == |b|
    requires forall i :: 0 <= i < |a| ==> |a[i].ledger.Queued()| == |TakenFrom(ns, i)| + |b[i].ledger.Queued()|
    ensures Backlog(a) == TakenOf(ns, |a|) + Backlog(b)
  {
    if a != [] {
      var n := |a| - 1;
      BacklogAfter(a[..n], b[..n], ns);
    }
  }

  /** Draining k of the selected entries leaves the items with k fewer. */
  lemma DrainedCounts(ss: seq<ItemState>, sub: u32, k: nat)
    requires AllFit(ss) && k <= |Selected(Views(ss), sub)|
    ensures Backlog(ss) == k + Backlog(DrainedAll(ss, sub, k))
  {
    hide Selected, TakenFrom, Backlog, AllFit, DrainedAll, Views;
    var ns := Prefix(Selected(Views(ss), sub), k);
    var after := DrainedAll(ss, sub, k);
    forall i | 0 <= i < |ss|
      ensures ss[i].ledger.Valid() && after[i].ledger.Valid() && |ss[i].ledger.Queued()| == |TakenFrom(ns, i)| + |after[i].ledger.Queued()|
    {
      EachFits(ss, i);
      EachFits(after, i);
      DrainedDelivers(ss, sub, k, i);
    }
    BacklogAfter(ss, after, ns);
    SelectedItems(Views(ss), sub);
    TakenOfAll(ns, |ss|);
  }

  /**
   Any other batch goes out with the first request that comes without
   acknowledgements, if emission works: the cap's worth of what is due, or all
   of it, leaves the items, and is the message.
   */
  lemma BuildableMovesOn(ss: seq<ItemState>, sub: SubState, r: Round)
    requires AllFit(ss) && |r.moment.values| == |ss| <= MAX_ITEMS && r.moment.emitted == Good
    requires var ready := Ready(ss, sub, r.moment.values); Batch(ready, sub) != [] && !Unbuildable(Batch(ready, sub))
    requires FirstFor(r.queue, sub.session).Some? && r.queue[FirstFor(r.queue, sub.session).value].acks == []
    ensures var ready := Ready(ss, sub, r.moment.values);
      var t, n := Cycle(ss, sub, r.queue, r.moment), Capped(|Due(ready, sub)|, sub.maxNotifications);
      && t.outcome.Answered? && n > 0 && Backlog(t.items) == Backlog(ready) - n
      && |t.sub.sent| == |sub.sent| + 1 && t.sub.sent[|sub.sent|].notices == Prefix(Due(ready, sub), n)
  {
    hide Refreshed, Unbuildable, ReplyTo, Selected, Backlog, DrainedAll, AllFit;
    var ready := Ready(ss, sub, r.moment.values);
    var ns := Batch(ready, sub);
    var counted := Counted(ready, sub);
    var at := FirstFor(r.queue, sub.session).value;
    UnbuildableIsNeverAnswered(r.queue[at], CoverOf(r.queue[at], counted, counted.more, r.moment.time), ns, r.moment.emitted, r.moment.faulted);
    DrainedCounts(ready, sub.id, |ns|);
  }
  // ----- Keep-alives

  /** Nothing is due once the items are prepared. */
  ghost predicate Quiet(ss: seq<ItemState>, sub: SubState, values: seq<Entry>)
    requires AllFit(ss) && |values| == |ss| <= MAX_ITEMS
  {
    Due(Ready(ss, sub, values), sub) == []
  }

  /** A request of the session waits, and what is sent goes out. */
  ghost predicate Open(r: Round, session: u32) {
    && FirstFor(r.queue, session).Some? && r.moment.emitted == Good
  }

  lemma EmptyAnswerFits(c: Cover)
    ensures Sendable([]) && |Answer(c, [])| <= BODY_BYTES
  {
    hide LE, EncI64, EncAcks;
    NothingIsSendable([]);
    AcksLength(Prefix(c.acks, MAX_PUBLISH_ACKS));
    Length64(c.time);
    Length32(|Prefix(c.acks, MAX_PUBLISH_ACKS)|);
    Length32(0);
  }

  lemma QuietCycle(ss: seq<ItemState>, sub: SubState, r: Round)
    requires AllFit(ss) && |r.moment.values| == |ss| <= MAX_ITEMS && Quiet(ss, sub, r.moment.values) && Open(r, sub.session)
    requires sub.keepAlive < sub.maxKeepAlive
    ensures var ready, t := Ready(ss, sub, r.moment.values), Cycle(ss, sub, r.queue, r.moment);
      var last := sub.keepAlive + 1 == sub.maxKeepAlive;
      && t.items == ready && t.sub == Counted(ready, sub).(keepAlive := if last then 0 else sub.keepAlive + 1)
      && (if last then t.outcome.Answered? else t.outcome == Idle)
  {
    hide Refreshed, Selected, ReplyTo, Answer, FirstFor, AllFit;
    var ready := Ready(ss, sub, r.moment.values);
    assert Batch(ready, sub) == [];
    var q := r.queue[FirstFor(r.queue, sub.session).value];
    var c := CoverOf(q, Counted(ready, sub), false, r.moment.time);
    EmptyAnswerFits(c);
    AnsweredExactly(q, c, [], r.moment.emitted, r.moment.faulted);
  }

  /** The Subscription but for its counter, which the rounds before advanced. */
  ghost function Quieted(ready: seq<ItemState>, sub: SubState, n: nat): (r: SubState)
    requires AllFit(ready) && |ready| <= MAX_ITEMS && sub.maxKeepAlive > 0
  {
    Counted(ready, sub).(keepAlive := n % sub.maxKeepAlive)
  }

  lemma CounterSteps(n: nat, max: u32)
    requires max > 0
    ensures (n + 1) % max == if n % max + 1 == max then 0 else n % max + 1
  {
    var q, t := n / max, n % max;
    assert n + 1 == max * q + (t + 1);
    if t + 1 == max {
      assert n + 1 == max * (q + 1);
      Multiple(q + 1, max);
    } else {
      Remainder(q, max, t + 1);
    }
  }

  lemma {:induction false} Remainder(q: nat, m: nat, t: nat)
    requires t < m
    ensures (m * q + t) % m == t
  {
    var x := m * q + t;
    var p, s := x / m, x % m;
    assert m * p + s == m * q + t;
    if p < q {
      assert m * (q - p) == s - t;
      assert m * (q - p) >= m by { AtLeast(m, q - p); }
    } else if p > q {
      assert m * (p - q) == t - s;
      assert m * (p - q) >= m by { AtLeast(m, p - q); }
    }
  }

  lemma {:induction false} AtLeast(m: nat, d: nat)
    requires d >= 1
    ensures m * d >= m
  {
    if d > 1 {
      AtLeast(m, d - 1);
      assert m * d == m * (d - 1) + m;
    }
  }

  lemma Multiple(q: nat, m: nat)
    requires m > 0
    ensures m * q % m == 0
  {
    Remainder(q, m, 0);
  }

  /**
   While nothing is due, and requests wait and go out, exactly every
   maxKeepAlive-th cycle answers one; in between none is touched.
   */
  lemma {:induction false} KeepAliveOnTime(ss: seq<ItemState>, sub: SubState, rounds: seq<Round>, k: nat)
    requires AllValid(ss) && AllFit(ss) && |ss| <= MAX_ITEMS && Sized(rounds, |ss|) && k < |rounds| && sub.enabled
    requires sub.maxKeepAlive > 0 && sub.keepAlive == 0 && Quiet(ss, sub, rounds[0].moment.values)
    requires forall j :: 0 <= j < |rounds| ==> Open(rounds[j], sub.session)
    ensures var ready, t := Ready(ss, sub, rounds[0].moment.values), TurnAt(ss, sub, rounds, k);
      && t.items == ready && t.sub == Quieted(ready, sub, k + 1)
      && (if (k + 1) % sub.maxKeepAlive == 0 then t.outcome.Answered? else t.outcome == Idle)
  {
    hide Cycle, Ready, Due, Counted, Quiet, Quieted, AllValid, AllFit, AllAwake, Open;
    var ready := Ready(ss, sub, rounds[0].moment.values);
    if k == 0 {
      assert rounds[..0] == [];
      FirstQuiet(ss, sub, rounds[0]);
    } else {
      KeepAliveOnTime(ss, sub, rounds, k - 1);
      assert rounds[..k][..k - 1] == rounds[..k - 1];
      ReadyIsAwake(ss, sub, rounds[0].moment.values);
      QuietStep(ss, sub, rounds[0].moment.values, ready, k, rounds[k]);
    }
  }

  lemma FirstQuiet(ss: seq<ItemState>, sub: SubState, r: Round)
    requires AllFit(ss) && |r.moment.values| == |ss| <= MAX_ITEMS && Quiet(ss, sub, r.moment.values) && Open(r, sub.session)
    requires sub.maxKeepAlive > 0 && sub.keepAlive == 0
    ensures var ready, t := Ready(ss, sub, r.moment.values), Cycle(ss, sub, r.queue, r.moment);
      && t.items == ready && t.sub == Quieted(ready, sub, 1)
      && (if 1 % sub.maxKeepAlive == 0 then t.outcome.Answered? else t.outcome == Idle)
  {
    hide Cycle, Ready, Due, Counted, Quiet, AllFit, Open;
    CounterSteps(0, sub.maxKeepAlive);
    QuietCycle(ss, sub, r);
  }

  lemma QuietStep(ss: seq<ItemState>, sub: SubState, values: seq<Entry>, ready: seq<ItemState>, n: nat, r: Round)
    requires AllFit(ss) && |values| == |ss| == |r.moment.values| <= MAX_ITEMS && sub.enabled && sub.maxKeepAlive > 0
    requires ready == Ready(ss, sub, values) && AllAwake(ready, sub.id) && Quiet(ss, sub, values) && Open(r, sub.session)
    ensures AllFit(ready) && |ready| == |ss|
    ensures var t := Cycle(ready, Quieted(ready, sub, n), r.queue, r.moment);
      && t.items == ready && t.sub == Quieted(ready, sub, n + 1)
      && (if (n + 1) % sub.maxKeepAlive == 0 then t.outcome.Answered? else t.outcome == Idle)
  {
    hide Cycle, Ready, Due, Counted, Quiet, AllFit, AllAwake, Open;
    QuietAgain(ss, sub, values, ready, n, r.moment.values);
    CountedIs(ready, sub);
    CounterSteps(n, sub.maxKeepAlive);
    QuietCycle(ready, Quieted(ready, sub, n), r);
  }

  lemma CountedIs(ready: seq<ItemState>, sub: SubState)
    requires AllFit(ready) && |ready| <= MAX_ITEMS
    ensures Counted(ready, sub) == sub.(resend := Counted(ready, sub).resend, more := Counted(ready, sub).more)
  {
    hide AllFit, Batch, Due;
  }

  lemma QuietAgain(ss: seq<ItemState>, sub: SubState, values: seq<Entry>, ready: seq<ItemState>, n: nat, again: seq<Entry>)
    requires AllFit(ss) && |values| == |ss| == |again| <= MAX_ITEMS && sub.enabled && sub.maxKeepAlive > 0
    requires ready == Ready(ss, sub, values) && AllAwake(ready, sub.id) && Quiet(ss, sub, values)
    ensures AllFit(ready) && |ready| == |ss|
    ensures var q := Quieted(ready, sub, n);
      && Ready(ready, q, again) == ready && Quiet(ready, q, again)
      && Counted(ready, q) == Counted(ready, sub).(keepAlive := q.keepAlive)
  {
    hide WokenAll, AllAwake, Refreshed, Selected, AllFit;
    AwakeStays(ready, sub.id);
    AsPrepared(ready, sub, n, again);
  }

  lemma AsPrepared(ready: seq<ItemState>, sub: SubState, n: nat, again: seq<Entry>)
    requires AllFit(ready) && |again| == |ready| <= MAX_ITEMS && sub.enabled && sub.maxKeepAlive > 0 && WokenAll(ready, sub.id) == ready
    ensures var q := Quieted(ready, sub, n);
      Ready(ready, q, again) == ready && Due(ready, q) == Due(ready, sub) && Counted(ready, q) == Counted(ready, sub).(keepAlive := q.keepAlive)
  {
    hide WokenAll, Selected, AllFit;
  }
}
