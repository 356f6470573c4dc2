/**
 A monitored item of src/services/subscription.c in the Standard build: the
 ring queue with its overflow handling, the deadband decision, and the sampling
 step. The ring is proved to hold the queue of the item's Ledger, and every
 method to do to the item what the function of ItemState.dfy says.
 */
module Items {
  import opened Types
  import opened Codec
  import opened Durations
  import opened Timers
  import opened Ledgers
  import opened ItemStates

  // ----- The ring

  /** monitored_item_queue_next and monitored_item_queue_previous. */
  function QueueNext(index: nat, size: nat): (r: nat) {
    if index + 1 >= size then 0 else index + 1
  }

  function QueuePrevious(index: nat, size: nat): (r: nat)
    requires size > 0
  {
    if index == 0 then size - 1 else index - 1
  }

  /** The slot k places after head. */
  function Slot(head: nat, k: nat, size: nat): (r: nat)
    requires head < size && k <= size
    ensures r < size
  {
    if head + k < size then head + k else head + k - size
  }

  /** The entries of a ring, oldest first. */
  function RingContents(slots: seq<Entry>, head: nat, count: nat, size: nat): (r: seq<Entry>)
    requires head < size <= |slots| && count <= size
    ensures |r| == count
  {
    seq(count, k requires 0 <= k < count => slots[Slot(head, k, size)])
  }

  lemma RingAppend(slots: seq<Entry>, head: nat, count: nat, size: nat, e: Entry)
    requires head < size <= |slots| && count < size
    ensures var tail := Slot(head, count, size);
      RingContents(slots[tail := e], head, count + 1, size) == RingContents(slots, head, count, size) + [e]
      && QueueNext(tail, size) == Slot(head, count + 1, size)
  {
  }

  lemma RingReplaceOldest(slots: seq<Entry>, head: nat, size: nat, e: Entry)
    requires head < size <= |slots|
    ensures var now := slots[head := e];
      var next := QueueNext(head, size);
      RingContents(now[next := Marked(now[next])], next, size, size)
        == Pushed(RingContents(slots, head, size, size), e, size, true)
  {
    hide Marked;
  }

  lemma RingReplaceNewest(slots: seq<Entry>, head: nat, size: nat, e: Entry)
    requires head < size <= |slots|
    ensures RingContents(slots[QueuePrevious(head, size) := Marked(e)], head, size, size)
      == Pushed(RingContents(slots, head, size, size), e, size, false)
  {
    hide Marked;
  }

  lemma RingDrop(slots: seq<Entry>, head: nat, count: nat, size: nat)
    requires head < size <= |slots| && 0 < count <= size
    ensures RingContents(slots, QueueNext(head, size), count - 1, size) == RingContents(slots, head, count, size)[1..]
      && Slot(head, count, size) == Slot(QueueNext(head, size), count - 1, size)
  {
  }

  class MonitoredItem {
    const queue: array<Entry>

    var inUse: bool
    var id: u32
    var subscriptionId: u32
    var mode: byte
    var config: Config
    var nextSample: u64
    var triggered: seq<u32>

    var lastValue: Variant
    var lastStatus: u32
    var lastReported: Num
    var hasValue: bool
    var hasReported: bool
    var pending: bool
    var queueOverflow: bool
    var queueSize: u32
    var head: nat
    var tail: nat
    var count: nat

    ghost var ledger: Ledger
    ghost var since: nat

    /** The queue size in effect, whatever was asked for. */
    function Size(): (r: nat)
      reads `queueSize
      ensures queue.Length > 0 ==> 1 <= r <= queue.Length
    {
      ClampedSize(queueSize, queue.Length)
    }

    /** A well-formed ring: tail is count places after head, inside the effective size. */
    ghost predicate Ring()
      reads `queueSize, `head, `tail, `count
    {
      && 0 < queue.Length <= 255
      && head < Size() && count <= Size()
      && tail == Slot(head, count, Size())
    }

    ghost function Contents(): (r: seq<Entry>)
      requires Ring()
      reads `queueSize, `head, `tail, `count, queue
      ensures |r| == count
    {
      RingContents(queue[..], head, count, Size())
    }

    ghost function State(): (r: ItemState)
      reads this
      ensures r.depth == queue.Length
    {
      ItemState(inUse, id, subscriptionId, mode, config, nextSample, triggered, Entry(lastValue, lastStatus),
                hasValue, hasReported, pending, queue.Length, Size(), ledger, since)
    }

    /** The ring holds the queue of the ledger. */
    ghost predicate Holds()
      reads `queueSize, `head, `tail, `count, `ledger, queue
    {
      Ring() && ledger.Valid() && ledger.Queued() == Contents()
    }

    /** The number the deadband compares with is that of the last value. */
    ghost predicate Told()
      reads `config, `hasReported, `lastValue, `lastReported
    {
      !config.hasAggregate && hasReported && NumberOf(lastValue).Some? ==> lastReported == NumberOf(lastValue).value
    }

    ghost predicate Valid()
      reads this, queue
    {
      Holds() && State().Valid() && Told()
    }

    /** A slot as it stands after memset. */
    constructor (depth: nat)
      requires 0 < depth <= 255
      ensures Valid() && fresh(queue) && queue.Length == depth && State() == Blank(depth)
    {
      queue := new Entry[depth](_ => Entry(VNull, 0));
      inUse, id, subscriptionId, mode, config := false, 0, 0, 0, ZERO_CONFIG;
      nextSample, triggered, lastValue, lastStatus, lastReported := 0, [], VNull, 0, Finite(0.0);
      hasValue, hasReported, pending, queueOverflow := false, false, false, false;
      queueSize, head, tail, count := 0, 0, 0, 0;
      ledger, since := EMPTY, 0;
      new;
      BlankValid(depth);
    }

    /** memset of the slot. */
    method Clear()
      requires 0 < queue.Length <= 255
      modifies this
      ensures Valid() && State() == Blank(queue.Length)
    {
      hide NumberOf, RingContents, ItemState.Valid, MonitoredItem.Holds;
      ClearSettings();
      ClearQueue();
      BlankValid(queue.Length);
    }

    method ClearSettings()
      modifies `inUse, `id, `subscriptionId, `mode, `config, `nextSample, `triggered, `since
      ensures !inUse && id == 0 && subscriptionId == 0 && mode == DISABLED && config == ZERO_CONFIG && nextSample == 0
      ensures triggered == [] && since == 0
    {
      inUse, id, subscriptionId, mode, config, nextSample, triggered := false, 0, 0, 0, ZERO_CONFIG, 0, [];
      since := 0;
    }

    method ClearQueue()
      requires 0 < queue.Length <= 255
      modifies `lastValue, `lastStatus, `lastReported, `hasValue, `hasReported, `pending, `queueOverflow,
               `queueSize, `head, `tail, `count, `ledger
      ensures Holds() && ledger == EMPTY && Entry(lastValue, lastStatus) == Entry(VNull, 0) && Size() == 1
      ensures !hasValue && !hasReported && !pending
    {
      hide RingContents;
      ClearValues();
      ledger := EMPTY;
      queueSize, head, tail, count, queueOverflow := 0, 0, 0, 0, false;
    }

    method ClearValues()
      modifies `lastValue, `lastStatus, `lastReported, `hasValue, `hasReported, `pending
      ensures Entry(lastValue, lastStatus) == Entry(VNull, 0) && !hasValue && !hasReported && !pending
    {
      lastValue, lastStatus, lastReported := VNull, 0, Finite(0.0);
      hasValue, hasReported, pending := false, false, false;
    }

    /** A cleared slot taken into use, with nothing of its former life left. */
    method Claim(id: u32, subscription: u32, ghost since: nat)
      requires 0 < queue.Length <= 255
      modifies this
      ensures Valid() && State() == Blank(queue.Length).(inUse := true, id := id, subscription := subscription, since := since)
    {
      hide NumberOf, RingContents, ItemState.Valid, MonitoredItem.Holds;
      Clear();
      BlankValid(queue.Length);
      ValidIgnores(Blank(queue.Length), Blank(queue.Length).(inUse := true, id := id, subscription := subscription, since := since));
      inUse, this.id, subscriptionId := true, id, subscription;
      this.since := since;
    }

    /** monitored_item_effective_queue_size: clamp the size, and bring stray indices back inside it. */
    method EffectiveQueueSize() returns (size: nat)
      requires queue.Length > 0
      modifies `queueSize, `head, `tail, `count
      ensures size == Size() == old(Size()) == queueSize
      ensures head == (if old(head) < size then old(head) else 0) && tail == (if old(tail) < size then old(tail) else 0)
      ensures count == if old(count) <= size then old(count) else size
    {
      size := queueSize;
      if size == 0 { size := 1; }
      if size > queue.Length { size := queue.Length; }
      queueSize := size;
      if head >= size { head := 0; }
      if tail >= size { tail := 0; }
      if count > size { count := size; }
    }

    /** monitored_item_mark_overflow. */
    method MarkEntry(index: nat)
      requires index < queue.Length
      modifies `queueOverflow, queue
      ensures queue[..] == old(queue[..])[index := Marked(old(queue[index]))]
    {
      queue[index] := Marked(queue[index]);
      queueOverflow := true;
    }

    /** monitored_item_record_reported. */
    method RecordReported(cur: Variant)
      modifies `lastReported, `hasReported
      ensures hasReported && lastReported == (if NumberOf(cur).Some? then NumberOf(cur).value else old(lastReported))
    {
      if NumberOf(cur).Some? {
        lastReported := NumberOf(cur).value;
      }
      hasReported := true;
    }

    /** monitored_item_enqueue_report: the ring becomes what the ledger says of one more report. */
    method EnqueueReport(cur: Variant, status: u32)
      requires Holds()
      modifies `queueSize, `head, `tail, `count, `queueOverflow, `lastReported, `hasReported, `pending, `ledger, queue
      ensures Holds() && old(State()).Fits() && State() == old(State()).Report(Entry(cur, status))
      ensures lastReported == if NumberOf(cur).Some? then NumberOf(cur).value else old(lastReported)
    {
      hide RingContents, NumberOf, Enqueue, Exact, MonitoredItem.Holds, MonitoredItem.Size;
      HoldsFits();
      EnqueueEntry(Entry(cur, status));
      RecordReported(cur);
      pending := count > 0;
    }

    lemma HoldsFits()
      requires Holds()
      ensures Ring() && State().Fits() && |ledger.Queued()| == count
    {
      hide RingContents;
    }

    /** The ring and its account together. */
    method EnqueueEntry(e: Entry)
      requires Holds()
      modifies `queueSize, `head, `tail, `count, `queueOverflow, `ledger, queue
      ensures Holds() && count > 0 && Size() == old(Size()) && |old(ledger).Queued()| <= Size()
      ensures ledger == Enqueue(old(ledger), e, Size(), config.discardOldest)
    {
      hide RingContents, Pushed, Enqueue;
      var size := EffectiveQueueSize();
      PushEntry(e, size);
      EnqueuePushes(ledger, e, size, config.discardOldest);
      ledger := Enqueue(ledger, e, size, config.discardOldest);
    }

    /** The three ways an entry enters the ring. */
    method PushEntry(e: Entry, size: nat)
      requires Ring() && size == Size()
      modifies `head, `tail, `count, `queueOverflow, queue
      ensures Ring() && count > 0
      ensures Contents() == Pushed(old(Contents()), e, size, config.discardOldest)
    {
      hide RingContents, Marked;
      if count < size {
        RingAppend(queue[..], head, count, size, e);
        queue[tail] := e;
        tail := QueueNext(tail, size);
        count := count + 1;
      } else if config.discardOldest {
        RingReplaceOldest(queue[..], head, size, e);
        head := QueueNext(head, size);
        queue[tail] := e;
        tail := QueueNext(tail, size);
        MarkEntry(head);
      } else {
        RingReplaceNewest(queue[..], head, size, e);
        var newest := QueuePrevious(tail, size);
        queue[newest] := e;
        MarkEntry(newest);
        assert old(queue[..])[newest := e][newest := Marked(e)] == old(queue[..])[newest := Marked(e)];
      }
    }

    /** monitored_item_prepare_pending_queue. */
    method PreparePending()
      requires Valid()
      modifies `queueSize, `head, `tail, `count, `queueOverflow, `lastReported, `hasReported, `pending, `ledger, queue
      ensures Valid() && State() == old(State()).Woken()
    {
      hide NumberOf, RingContents, Enqueue, MonitoredItem.Holds, Exact;
      HoldsFits();
      WokenValid(State());
      if pending && count == 0 && hasValue {
        EnqueueReport(lastValue, lastStatus);
      } else if hasValue && !hasReported {
        RecordReported(lastValue);
      }
    }

    /** The loop of the drain: step head forward once per delivered entry. */
    method DropOldest(allowance: nat) returns (remaining: nat)
      requires Ring()
      modifies `queueSize, `head, `tail, `count
      ensures Ring() && Size() == old(Size())
      ensures remaining == allowance - if allowance < old(count) then allowance else old(count)
      ensures Contents() == old(Contents())[allowance - remaining..]
    {
      hide RingContents;
      var size := EffectiveQueueSize();
      remaining := allowance;
      ghost var n := 0;
      while count > 0 && remaining > 0
        invariant n + remaining == allowance && n + count == old(count)
        invariant Ring() && Size() == size && Contents() == old(Contents())[n..]
      {
        RingDrop(queue[..], head, count, size);
        head := QueueNext(head, size);
        count := count - 1;
        remaining := remaining - 1;
        n := n + 1;
      }
    }

    /** monitored_item_drain_reported_entries: deliver from the front of the ring while there is allowance. */
    method Drain(allowance: nat) returns (remaining: nat)
      requires Valid() && count > 0
      modifies `queueSize, `head, `tail, `count, `queueOverflow, `pending, `ledger
      ensures Valid()
      ensures var n := if allowance < old(count) then allowance else old(count);
        remaining == allowance - n && old(State()).Fits() && n <= |old(ledger).Queued()| && State() == old(State()).Drained(n)
    {
      hide NumberOf, ItemState.Valid, RingContents, MonitoredItem.Holds, MonitoredItem.Ring, MonitoredItem.Size, MonitoredItem.Told;
      ValidCore(State());
      HoldsFits();
      DrainedValid(State(), if allowance < count then allowance else count);
      remaining := DrainRing(allowance);
    }

    /** The ring and its account together, and the flag that follows them. */
    method DrainRing(allowance: nat) returns (remaining: nat)
      requires Holds() && count > 0
      modifies `queueSize, `head, `tail, `count, `queueOverflow, `pending, `ledger
      ensures Holds() && Size() == old(Size()) && (pending <==> count > 0)
      ensures var n := if allowance < old(count) then allowance else old(count);
        remaining == allowance - n && count == old(count) - n && n <= |old(ledger).Queued()| && ledger == Deliver(old(ledger), n)
    {
      hide RingContents;
      remaining := DropOldest(allowance);
      ledger := Deliver(ledger, allowance - remaining);
      Settle();
    }

    /** The end of the drain: an empty ring starts over, and nothing is pending in it. */
    method Settle()
      requires Ring()
      modifies `head, `tail, `pending, `queueOverflow
      ensures Ring() && Contents() == old(Contents()) && Size() == old(Size())
      ensures pending <==> count > 0
    {
      hide RingContents;
      if count == 0 {
        head := 0;
        tail := 0;
        pending := false;
        queueOverflow := false;
      } else {
        pending := true;
      }
    }

    /** monitored_item_sample_changed. */
    predicate SampleChanged(cur: Variant, status: u32)
      reads this
    {
      if config.trigger == TRIGGER_STATUS then status != lastStatus
      else status != lastStatus || !ScalarEqual(cur, lastValue)
    }

    /** monitored_item_change_reportable. */
    predicate ChangeReportable(cur: Variant, status: u32)
      reads this
    {
      if !hasReported || status != lastStatus then true
      else if config.deadbandType != DEADBAND_ABSOLUTE then true
      else if NumberOf(cur).None? || NumberOf(lastValue).None? then true
      else AtLeastApart(NumberOf(cur).value, lastReported, config.deadband)
    }

    /** The sampling step of the tick, for an item that is due. */
    method Sample(cur: Variant, status: u32, now: u64)
      requires Valid()
      modifies `lastValue, `lastStatus, `hasValue, `nextSample,
               `queueSize, `head, `tail, `count, `queueOverflow, `lastReported, `hasReported, `pending, `ledger, queue
      ensures Valid() && State() == old(State()).Sampled(Entry(cur, status), now)
    {
      hide NumberOf, ItemState.Valid, ItemState.Noted, RingContents, Enqueue, AdvanceSampleTimer, MonitoredItem.Holds;
      HoldsFits();
      SampledValid(State(), Entry(cur, status), now);
      if config.hasAggregate {
        lastValue := cur;
        lastStatus := status;
        hasValue := true;
      } else {
        SampleValue(cur, status);
      }
      nextSample := AdvanceSampleTimer(nextSample, config.samplingInterval, now);
    }

    /** The sampling step without an aggregate. */
    method SampleValue(cur: Variant, status: u32)
      requires Valid() && !config.hasAggregate
      modifies `lastValue, `lastStatus, `hasValue,
               `queueSize, `head, `tail, `count, `queueOverflow, `lastReported, `hasReported, `pending, `ledger, queue
      ensures Holds() && Told() && old(State()).Fits() && State() == old(State()).Noted(Entry(cur, status))
    {
      hide NumberOf, Ordered, Faithful, RingContents, Enqueue, AtLeastApart;
      ghost var e := Entry(cur, status);
      WokenValid(State());
      if hasValue && (!hasReported || (pending && count == 0)) {
        PreparePending();
      }
      if !hasValue {
        TakeOver(cur, status);
      } else if SampleChanged(cur, status) {
        if ChangeReportable(cur, status) {
          TakeOver(cur, status);
        }
      }
    }

    /** A sample becomes the last value and is enqueued. */
    method TakeOver(cur: Variant, status: u32)
      requires Holds()
      modifies `lastValue, `lastStatus, `hasValue,
               `queueSize, `head, `tail, `count, `queueOverflow, `lastReported, `hasReported, `pending, `ledger, queue
      ensures Holds() && Told() && old(State()).Fits() && State() == old(State()).TakeOver(Entry(cur, status))
    {
      hide NumberOf, Exact, RingContents, Pushed, Enqueue, MonitoredItem.Holds, MonitoredItem.Size;
      HoldsFits();
      lastValue := cur;
      lastStatus := status;
      hasValue := true;
      EnqueueReport(cur, status);
    }

    /** One item of enqueue_resend_data: report the current value, or the last one with the read's status. */
    method Resend(cur: Variant, status: u32)
      requires Valid()
      modifies `lastValue, `lastStatus, `hasValue,
               `queueSize, `head, `tail, `count, `queueOverflow, `lastReported, `hasReported, `pending, `ledger, queue
      ensures Valid() && State() == old(State()).TakeOver(old(State()).Resend(Entry(cur, status)))
    {
      hide NumberOf, ItemState.Valid, RingContents, Enqueue, MonitoredItem.Holds;
      HoldsFits();
      ValidCore(State());
      TakeOverValid(State(), State().Resend(Entry(cur, status)));
      var value := cur;
      if status != GOOD {
        value := if hasValue then lastValue else VNull;
      }
      TakeOver(value, status);
    }

    /** monitored_item_publish_aggregate, given the aggregate it computed. */
    method PublishAggregate(aggregate: Entry)
      requires Valid() && config.hasAggregate
      modifies `queueSize, `head, `tail, `count, `queueOverflow, `lastReported, `hasReported, `pending, `ledger, queue
      ensures Valid() && State() == old(State()).Report(aggregate)
    {
      hide NumberOf, ItemState.Valid, RingContents, Enqueue, MonitoredItem.Holds;
      HoldsFits();
      AggregatedValid(State(), aggregate);
      EnqueueReport(aggregate.value, aggregate.status);
    }

    /** mu_monitored_item_add_trigger_link, once both items are found. */
    method AddLink(linked: u32) returns (s: Status)
      requires Valid()
      modifies `triggered
      ensures Valid() && State() == old(State()).(triggered := WithLink(old(triggered), linked))
      ensures s == if linked in old(triggered) || |old(triggered)| < MAX_TRIGGER_LINKS then Good else BadTooManyOperations
    {
      hide NumberOf, RingContents, ItemState.Valid, MonitoredItem.Valid;
      for i := 0 to |triggered|
        invariant linked !in triggered[..i]
      {
        if triggered[i] == linked {
          return Good;
        }
      }
      if |triggered| >= MAX_TRIGGER_LINKS {
        return BadTooManyOperations;
      }
      SetLinks(triggered + [linked]);
      return Good;
    }

    /** mu_monitored_item_remove_trigger_link, once both items are found: the rest moves up. */
    method RemoveLink(linked: u32) returns (s: Status)
      requires Valid()
      modifies `triggered
      ensures Valid() && State() == old(State()).(triggered := WithoutLink(old(triggered), linked))
      ensures s == if linked in old(triggered) then Good else BadMonitoredItemIdInvalid
    {
      hide NumberOf, RingContents, ItemState.Valid, MonitoredItem.Valid, WithoutLink;
      var i := FindLink(linked);
      if i == |triggered| {
        NoneGoes(triggered, linked);
        return BadMonitoredItemIdInvalid;
      }
      FirstGoes(triggered, linked, i);
      SetLinks(triggered[..i] + triggered[i + 1..]);
      return Good;
    }

    method SetLinks(links: seq<u32>)
      requires Valid()
      modifies `triggered
      ensures Valid() && State() == old(State()).(triggered := links)
    {
      hide NumberOf, RingContents, ItemState.Valid, MonitoredItem.Holds;
      ValidIgnores(State(), State().(triggered := links));
      triggered := links;
    }

    method FindLink(linked: u32) returns (i: nat)
      ensures i <= |triggered| && linked !in triggered[..i] && (i < |triggered| ==> triggered[i] == linked)
      ensures i == |triggered| ==> linked !in triggered
    {
      i := 0;
      while i < |triggered| && triggered[i] != linked
        invariant i <= |triggered| && linked !in triggered[..i]
      {
        i := i + 1;
      }
    }

    /** The body of CreateMonitoredItems for a slot just allocated, with the initial read if there was one. */
    method Configure(config: Config, mode: byte, nextSample: u64, requestedSize: u32, initial: Option<Entry>)
      requires Valid() && State().Untouched()
      modifies `config, `mode, `nextSample, `queueSize, `queueOverflow, `head, `tail, `count, `lastValue, `lastStatus, `hasValue, `pending
      ensures Valid() && State() == old(State()).Configured(config, mode, nextSample, requestedSize, initial)
    {
      hide ItemState.Valid, ItemState.Untouched, MonitoredItem.Holds, MonitoredItem.State, MonitoredItem.Told;
      HoldsFits();
      assert ledger == EMPTY && !hasReported by { Unreported(); }
      ConfiguredValid(State(), config, mode, nextSample, requestedSize, initial);
      SetUp(config, mode, nextSample, if requestedSize == 0 then 1 else if requestedSize > queue.Length then queue.Length else requestedSize);
      ReadFirst(initial);
      NothingTold();
    }

    lemma Unreported()
      requires State().Untouched()
      ensures ledger == EMPTY && !hasReported
    {
    }

    lemma NothingTold()
      requires !hasReported
      ensures Told()
    {
    }

    /** The settings, and an empty ring of the size in effect. */
    method SetUp(config: Config, mode: byte, nextSample: u64, size: u32)
      requires ledger == EMPTY && 1 <= size <= queue.Length <= 255
      modifies `config, `mode, `nextSample, `queueSize, `queueOverflow, `head, `tail, `count
      ensures Holds() && State() == old(State()).(config := config, mode := mode, nextSample := nextSample, size := size)
    {
      hide RingContents, MonitoredItem.Contents, MonitoredItem.Ring, MonitoredItem.Size;
      ResetRing(size);
      this.config, this.mode, this.nextSample := config, mode, nextSample;
    }

    /** The first read, if there was one. */
    method ReadFirst(initial: Option<Entry>)
      requires queue.Length > 0
      modifies `lastValue, `lastStatus, `hasValue, `pending
      ensures var good := initial.Some? && initial.value.status == GOOD;
        State() == old(State()).(last := if initial.Some? then initial.value else old(State()).last, hasValue := good, pending := good)
    {
      hasValue, pending := false, false;
      if initial.Some? {
        lastValue, lastStatus := initial.value.value, initial.value.status;
        if lastStatus == GOOD {
          hasValue, pending := true, true;
        }
      }
    }

    /** An empty ring of the given size, starting at slot 0. */
    method ResetRing(size: u32)
      requires 1 <= size <= queue.Length <= 255
      modifies `queueSize, `queueOverflow, `head, `tail, `count
      ensures Ring() && Contents() == [] && count == 0 && queueSize == size == Size()
    {
      hide RingContents;
      queueSize, head, tail, count, queueOverflow := size, 0, 0, 0, false;
    }

    /** ModifyMonitoredItems, which changes the sampling interval and the client handle only. */
    method Modify(interval: u32, handle: u32)
      requires Valid()
      modifies `config
      ensures Valid() && State() == old(State()).(config := old(config).(samplingInterval := interval, clientHandle := handle))
    {
      hide NumberOf, RingContents, ItemState.Valid, MonitoredItem.Holds;
      ValidIgnores(State(), State().(config := config.(samplingInterval := interval, clientHandle := handle)));
      config := config.(samplingInterval := interval, clientHandle := handle);
    }

    /** SetMonitoringMode. */
    method SetMode(mode: byte)
      requires Valid()
      modifies `mode
      ensures Valid() && State() == old(State()).(mode := mode)
    {
      hide NumberOf, RingContents, ItemState.Valid, MonitoredItem.Holds;
      ValidIgnores(State(), State().(mode := mode));
      this.mode := mode;
    }
  }

  lemma {:induction false} FirstGoes(links: seq<u32>, linked: u32, i: nat)
    requires i < |links| && links[i] == linked && linked !in links[..i]
    ensures WithoutLink(links, linked) == links[..i] + links[i + 1..]
  {
    if i == 0 {
      assert links[..0] + links[1..] == links[1..];
    } else {
      var rest := links[1..];
      assert links[0] == links[..i][0];
      assert rest[..i - 1] == links[..i][1..];
      FirstGoes(rest, linked, i - 1);
      Shifted(links, i);
    }
  }

  lemma Shifted(links: seq<u32>, i: nat)
    requires 0 < i < |links|
    ensures links[..i] + links[i + 1..] == [links[0]] + (links[1..][..i - 1] + links[1..][i..])
  {
  }

  lemma {:induction false} NoneGoes(links: seq<u32>, linked: u32)
    requires linked !in links
    ensures WithoutLink(links, linked) == links
  {
    if links != [] { NoneGoes(links[1..], linked); }
  }
}
