/**
 What a monitored item's queue owes its client, over whole runs: everything
 enqueued is delivered or still queued, in order, unless overflow discarded it,
 and an entry that follows a discarded one says so in its status (queueSize and
 discardOldest of section 5.13.2 and overflow of section 7.20.1 of OPC 10000-4).
 */
module Ledgers {
  import opened Types

  datatype Entry = Entry(value: Variant, status: u32)

  // Bit 7 is Overflow and bit 10 the DataValue InfoType, in the low eleven bits of a status.

  type low11 = x: int | 0 <= x < 0x800

  function SetBit7(x: low11): (r: low11)
    ensures Bit7(r) && Bit10(r) == Bit10(x)
  {
    if Bit7(x) then x else x + 0x80
  }

  function SetBit10(x: low11): (r: low11)
    ensures Bit10(r) && Bit7(r) == Bit7(x)
  {
    if Bit10(x) then x else x + 0x400
  }

  predicate Bit7(x: low11) { x % 0x100 >= 0x80 }

  predicate Bit10(x: low11) { x >= 0x400 }

  /** status | 0x480: InfoType DataValue and Overflow. */
  function MarkOverflow(s: u32): (r: u32)
    ensures HasOverflow(r)
  {
    var low: low11 := s % 0x800;
    s - low + SetBit10(SetBit7(low))
  }

  predicate HasOverflow(s: u32) {
    Bit7(s % 0x800) && Bit10(s % 0x800)
  }

  function Marked(e: Entry): (r: Entry) {
    e.(status := MarkOverflow(e.status))
  }

  lemma MarkedTwice(e: Entry)
    ensures Marked(Marked(e)) == Marked(e)
  {
  }

  /**
   The accounts of one item: everything ever enqueued; the entries kept, of
   which the first `sent` were delivered and the others are queued; the position
   of each kept entry in the enqueued stream; how many overflow has discarded.
   */
  datatype Ledger = Ledger(enqueued: seq<Entry>, kept: seq<Entry>, sent: nat, keptAt: seq<nat>, lost: nat) {

    predicate Valid() {
      sent <= |kept| == |keptAt|
    }

    function Delivered(): (r: seq<Entry>)
      requires Valid()
    {
      kept[..sent]
    }

    function Queued(): (r: seq<Entry>)
      requires Valid()
      ensures |r| == |kept| - sent
    {
      kept[sent..]
    }
  }

  const EMPTY: Ledger := Ledger([], [], 0, [], 0)

  /** The p-th kept entry does not directly follow the one kept before it. */
  predicate Gap(keptAt: seq<nat>, p: nat)
    requires p < |keptAt|
  {
    keptAt[p] != if p == 0 then 0 else keptAt[p - 1] + 1
  }

  function Stamped(e: Entry, gap: bool): (r: Entry) {
    if gap then Marked(e) else e
  }

  /** The kept positions are positions of the stream, in order, and end with the newest. */
  ghost predicate Ordered(keptAt: seq<nat>, now: nat) {
    && (forall p, q :: 0 <= p < q < |keptAt| ==> keptAt[p] < keptAt[q])
    && (forall p :: 0 <= p < |keptAt| ==> keptAt[p] < now)
    && (now > 0 ==> |keptAt| > 0 && keptAt[|keptAt| - 1] == now - 1)
  }

  /** The p-th kept entry is the reported one, marked if the one before it was discarded. */
  ghost predicate Faithful(l: Ledger, p: nat)
    requires p < |l.kept| && p < |l.keptAt| && l.keptAt[p] < |l.enqueued|
  {
    l.kept[p] == Stamped(l.enqueued[l.keptAt[p]], Gap(l.keptAt, p))
  }

  /** The accounts balance: nothing is lost but what overflow discarded, nothing doubled, nothing out of order. */
  ghost predicate Exact(l: Ledger) {
    && l.Valid()
    && |l.enqueued| == |l.kept| + l.lost
    && Ordered(l.keptAt, |l.enqueued|)
    && forall p :: 0 <= p < |l.kept| ==> Faithful(l, p)
  }

  // ----- The two things that happen to a queue

  function Without<T>(s: seq<T>, i: nat): (r: seq<T>)
    requires i < |s|
    ensures |r| == |s| - 1
    ensures forall p :: 0 <= p < |r| ==> r[p] == if p < i then s[p] else s[p + 1]
  {
    s[..i] + s[i + 1..]
  }

  function Enqueue(l: Ledger, e: Entry, size: nat, discardOldest: bool): (r: Ledger)
    requires l.Valid() && 0 < size && |l.Queued()| <= size
    ensures r.Valid() && r.Delivered() == l.Delivered() && r.enqueued == l.enqueued + [e] && |r.Queued()| <= size
  {
    var now, d, n := |l.enqueued|, l.sent, |l.kept|;
    if n - d < size then
      Ledger(l.enqueued + [e], l.kept + [e], d, l.keptAt + [now], l.lost)
    else if discardOldest then
      var rest := Without(l.kept, d) + [e];
      Ledger(l.enqueued + [e], rest[d := Marked(rest[d])], d, Without(l.keptAt, d) + [now], l.lost + 1)
    else
      Ledger(l.enqueued + [e], l.kept[..n - 1] + [Marked(e)], d, l.keptAt[..n - 1] + [now], l.lost + 1)
  }

  /** What one more report makes of a queue. */
  function Pushed(q: seq<Entry>, e: Entry, size: nat, discardOldest: bool): (r: seq<Entry>)
    requires 0 < size && |q| <= size
  {
    if |q| < size then q + [e]
    else if discardOldest then
      var rest := q[1..] + [e];
      rest[0 := Marked(rest[0])]
    else q[..|q| - 1] + [Marked(e)]
  }

  lemma EnqueuePushes(l: Ledger, e: Entry, size: nat, discardOldest: bool)
    requires l.Valid() && 0 < size && |l.Queued()| <= size
    ensures Enqueue(l, e, size, discardOldest).Queued() == Pushed(l.Queued(), e, size, discardOldest)
  {
    hide Marked;
    var d, q := l.sent, l.Queued();
    var r := Enqueue(l, e, size, discardOldest);
    assert r.sent == d;
    if |q| == size && discardOldest {
      var rest := Without(l.kept, d) + [e];
      assert rest[d..] == q[1..] + [e];
      assert rest[d := Marked(rest[d])][d..] == rest[d..][0 := Marked(rest[d])];
    }
  }

  function Deliver(l: Ledger, n: nat): (r: Ledger)
    requires l.Valid() && n <= |l.Queued()|
    ensures r.Valid() && r.Queued() == l.Queued()[n..] && r.Delivered() == l.Delivered() + l.Queued()[..n]
  {
    l.(sent := l.sent + n)
  }

  lemma AppendExact(l: Ledger, e: Entry, size: nat, discardOldest: bool)
    requires Exact(l) && |l.Queued()| < size
    ensures Exact(Enqueue(l, e, size, discardOldest))
  {
    hide Marked;
    var r := Enqueue(l, e, size, discardOldest);
    forall p | 0 <= p < |r.kept| ensures Faithful(r, p) {
      if p < |l.kept| {
        assert Faithful(l, p);
      }
    }
  }

  lemma DiscardNewestExact(l: Ledger, e: Entry, size: nat)
    requires Exact(l) && 0 < size == |l.Queued()|
    ensures Exact(Enqueue(l, e, size, false))
  {
    hide Marked;
    var r := Enqueue(l, e, size, false);
    forall p | 0 <= p < |r.kept| ensures Faithful(r, p) {
      if p < |l.kept| - 1 {
        assert Faithful(l, p);
      }
    }
  }

  lemma OrderedWithout(keptAt: seq<nat>, d: nat, now: nat)
    requires Ordered(keptAt, now) && d < |keptAt|
    ensures Ordered(Without(keptAt, d) + [now], now + 1)
  {
  }

  lemma DiscardOldestExact(l: Ledger, e: Entry, size: nat)
    requires Exact(l) && 0 < size == |l.Queued()|
    ensures Exact(Enqueue(l, e, size, true))
  {
    hide MarkOverflow;
    var r, d := Enqueue(l, e, size, true), l.sent;
    OrderedWithout(l.keptAt, d, |l.enqueued|);
    forall p | 0 <= p < |r.kept| ensures Faithful(r, p) {
      if p < d {
        assert Faithful(l, p);
      } else if p < |r.kept| - 1 {
        assert Faithful(l, p + 1);
        if p == d {
          MarkedTwice(l.enqueued[l.keptAt[p + 1]]);
        }
      }
    }
  }

  /** Enqueuing keeps the accounts exact, for every queue size and both discard policies. */
  lemma EnqueueExact(l: Ledger, e: Entry, size: nat, discardOldest: bool)
    requires Exact(l) && 0 < size && |l.Queued()| <= size
    ensures Exact(Enqueue(l, e, size, discardOldest))
  {
    hide Enqueue;
    if |l.Queued()| < size {
      AppendExact(l, e, size, discardOldest);
    } else if discardOldest {
      DiscardOldestExact(l, e, size);
    } else {
      DiscardNewestExact(l, e, size);
    }
  }

  lemma DeliverExact(l: Ledger, n: nat)
    requires Exact(l) && n <= |l.Queued()|
    ensures Exact(Deliver(l, n))
  {
    hide Marked;
    forall p | 0 <= p < |l.kept| ensures Faithful(Deliver(l, n), p) {
      assert Faithful(l, p);
    }
  }

  // ----- Whole runs

  datatype QueueOp = Report(entry: Entry) | Publish(count: nat)

  function Step(l: Ledger, op: QueueOp, size: nat, discardOldest: bool): (r: Ledger)
    requires l.Valid() && 0 < size && |l.Queued()| <= size
    ensures r.Valid() && |r.Queued()| <= size
  {
    match op
    case Report(e) => Enqueue(l, e, size, discardOldest)
    case Publish(n) => Deliver(l, if n < |l.Queued()| then n else |l.Queued()|)
  }

  function Run(ops: seq<QueueOp>, size: nat, discardOldest: bool): (r: Ledger)
    requires 0 < size
    ensures r.Valid() && |r.Queued()| <= size
  {
    if ops == [] then EMPTY else Step(Run(ops[..|ops| - 1], size, discardOldest), ops[|ops| - 1], size, discardOldest)
  }

  /** Over every run of reports and publishes, the accounts are exact. */
  lemma {:induction false} RunExact(ops: seq<QueueOp>, size: nat, discardOldest: bool)
    requires 0 < size
    ensures Exact(Run(ops, size, discardOldest))
  {
    hide Enqueue, Deliver, Ordered, Faithful;
    if ops == [] {
      EmptyExact();
    } else {
      var before, op := ops[..|ops| - 1], ops[|ops| - 1];
      RunExact(before, size, discardOldest);
      var l := Run(before, size, discardOldest);
      match op
      case Report(e) => EnqueueExact(l, e, size, discardOldest);
      case Publish(n) => DeliverExact(l, if n < |l.Queued()| then n else |l.Queued()|);
    }
  }

  lemma EmptyExact()
    ensures Exact(EMPTY)
  {
  }

  /** The entries reported over a run, in order. */
  function Reported(ops: seq<QueueOp>): (r: seq<Entry>) {
    if ops == [] then []
    else
      var op := ops[|ops| - 1];
      Reported(ops[..|ops| - 1]) + if op.Report? then [op.entry] else []
  }

  /** The number of reports that found the queue full. */
  function Overflows(ops: seq<QueueOp>, size: nat, discardOldest: bool): (r: nat)
    requires 0 < size
  {
    if ops == [] then 0
    else
      var before, op := ops[..|ops| - 1], ops[|ops| - 1];
      Overflows(before, size, discardOldest)
      + if op.Report? && |Run(before, size, discardOldest).Queued()| == size then 1 else 0
  }

  /** The ledger's stream is what the run reported, and it loses one entry per report to a full queue. */
  lemma {:induction false} RunAccounts(ops: seq<QueueOp>, size: nat, discardOldest: bool)
    requires 0 < size
    ensures Run(ops, size, discardOldest).enqueued == Reported(ops)
    ensures Run(ops, size, discardOldest).lost == Overflows(ops, size, discardOldest)
  {
    if ops != [] {
      RunAccounts(ops[..|ops| - 1], size, discardOldest);
    }
  }

  /** A gap before a kept entry is exactly a discarded entry directly before it in the stream. */
  lemma GapMeansDiscarded(l: Ledger, p: nat)
    requires Exact(l) && p < |l.keptAt|
    ensures Gap(l.keptAt, p) <==> l.keptAt[p] > 0 && l.keptAt[p] - 1 !in l.keptAt
  {
    hide Marked, Faithful;
    var k := l.keptAt;
    if p > 0 {
      assert k[p - 1] < k[p];
      assert forall q :: 0 <= q < |k| ==> k[q] <= k[p - 1] || k[p] <= k[q];
    }
  }

  /**
   Provided no reported status carries the Overflow bits itself, an entry
   delivered or queued carries them if and only if the entry reported just
   before it was discarded.
   */
  lemma OverflowBitMeansDiscarded(ops: seq<QueueOp>, size: nat, discardOldest: bool, p: nat)
    requires 0 < size && forall e :: e in Reported(ops) ==> !HasOverflow(e.status)
    requires p < |Run(ops, size, discardOldest).keptAt|
    ensures var l := Run(ops, size, discardOldest);
      HasOverflow(l.kept[p].status) <==> l.keptAt[p] > 0 && l.keptAt[p] - 1 !in l.keptAt
  {
    hide HasOverflow, MarkOverflow, Run;
    RunExact(ops, size, discardOldest);
    RunAccounts(ops, size, discardOldest);
    var l := Run(ops, size, discardOldest);
    assert Faithful(l, p);
    assert l.enqueued[l.keptAt[p]] in Reported(ops);
    GapMeansDiscarded(l, p);
  }
  // ----- What a client sees of an overflow

  /** Bits 7 and 10 are set where they are not, and nothing else changes. */
  lemma MarkSetsTwoBits(s: u32)
    ensures MarkOverflow(s) == s + (if s % 0x100 >= 0x80 then 0 else 0x80) + (if s % 0x800 >= 0x400 then 0 else 0x400)
  {
    LowByte(s);
  }

  lemma LowByte(s: u32)
    ensures s % 0x800 % 0x100 == s % 0x100
  {
    var q, t := s / 0x800, s % 0x800;
    assert s == 0x100 * (8 * q + t / 0x100) + t % 0x100;
  }

  /**
   What a report does to a queue: it joins the end while there is room; after
   that the oldest entry goes and the next one is marked, or the report takes
   the place of the newest and is marked itself.
   */
  lemma OverflowDiscards(l: Ledger, e: Entry, size: nat, discardOldest: bool)
    requires l.Valid() && 0 < size && |l.Queued()| <= size
    ensures var q, r := l.Queued(), Enqueue(l, e, size, discardOldest).Queued();
      && (|q| < size ==> r == q + [e])
      && (|q| == size && discardOldest ==>
            var kept := (q + [e])[1..];
            r == kept[0 := Entry(kept[0].value, MarkOverflow(kept[0].status))])
      && (|q| == size && !discardOldest ==> r == q[..size - 1] + [Entry(e.value, MarkOverflow(e.status))])
  {
    hide MarkOverflow;
    EnqueuePushes(l, e, size, discardOldest);
    var q := l.Queued();
    if |q| == size { assert (q + [e])[1..] == q[1..] + [e]; }
  }
}
