/**
 A monitored item of src/services/subscription.c in the Standard build as a
 value: what sampling, preparing, resending and draining make of it. The ring in
 Items.dfy is proved to follow these functions.
 */
module ItemStates {
  import opened Types
  import opened Codec
  import opened Durations
  import opened Timers
  import opened Ledgers

  // ----- Numbers as the deadband compares them

  /** A double: rounding is left aside, NaN and the infinities are not. */
  datatype Num = Finite(r: real) | Infinite(negative: bool) | NaN

  /** m * 2^k as a real. */
  function Times2(m: real, k: int): (r: real)
    decreases if k < 0 then -k else k
  {
    if k == 0 then m else if k > 0 then Times2(2.0 * m, k - 1) else Times2(m / 2.0, k + 1)
  }

  function FromIeee(negative: bool, exponent: nat, fraction: nat, top: nat, width: nat, units: int): (r: Num) {
    if exponent == top then (if fraction == 0 then Infinite(negative) else NaN)
    else
      var m := (if exponent == 0 then fraction else width + fraction) as real;
      var v := Times2(m, (if exponent == 0 then 1 else exponent) - units);
      Finite(if negative then -v else v)
  }

  function DoubleValue(bits: u64): (r: Num) {
    FromIeee(Negative(bits), Exponent(bits), Fraction(bits), 2047, TWO52, UNITS)
  }

  function FloatValue(bits: u32): (r: Num) {
    FromIeee(bits >= 0x8000_0000, bits / 0x80_0000 % 256, bits % 0x80_0000, 255, 0x80_0000, 150)
  }

  /** variant_numeric_to_double. */
  function NumberOf(v: Variant): (r: Option<Num>) {
    match v
    case VSByte(x) => Some(Finite(x as real))
    case VByte(x) => Some(Finite(x as real))
    case VInt16(x) => Some(Finite(x as real))
    case VUInt16(x) => Some(Finite(x as real))
    case VInt32(x) => Some(Finite(x as real))
    case VUInt32(x) => Some(Finite(x as real))
    case VInt64(x) => Some(Finite(x as real))
    case VUInt64(x) => Some(Finite(x as real))
    case VFloat(x) => Some(FloatValue(x))
    case VDouble(x) => Some(DoubleValue(x))
    case _ => None
  }

  function Abs(r: real): (a: real) { if r < 0.0 then -r else r }

  /** fabs(a - b) >= d, as IEEE-754 compares. */
  predicate AtLeastApart(a: Num, b: Num, d: Num) {
    if a.NaN? || b.NaN? || d.NaN? then false
    else if a.Finite? && b.Finite? then
      match d
      case Finite(x) => Abs(a.r - b.r) >= x
      case Infinite(negative) => negative
    else a != b
  }

  /** The reported number b stands for the sampled number a: the same, or less than d away. */
  predicate StandsFor(b: Num, a: Num, d: Num) {
    a == b
    || (a.Finite? && b.Finite? && match d
        case Finite(x) => Abs(a.r - b.r) < x
        case Infinite(negative) => !negative
        case NaN => false)
  }

  /** A NaN is compared with a number, or with NaN for a deadband: the comparison says nothing. */
  predicate Blinded(a: Num, b: Num, d: Num) {
    a.NaN? != b.NaN? || (d.NaN? && a != b)
  }

  /** A change held back by the deadband is covered by the last report exactly when no NaN decided it. */
  lemma HeldBackIsCovered(a: Num, b: Num, d: Num)
    requires !AtLeastApart(a, b, d)
    ensures StandsFor(b, a, d) <==> !Blinded(a, b, d)
  {
  }

  /** A quiet NaN sampled after any number is held back by every deadband, though that number does not stand for it. */
  lemma NaNIsHeldBack(reported: real, deadband: real)
    ensures DoubleValue(0x7FF8_0000_0000_0000) == NaN
    ensures !AtLeastApart(NaN, Finite(reported), Finite(deadband)) && !StandsFor(Finite(reported), NaN, Finite(deadband))
  {
  }

  /** variant_scalar_equal: same type and same value; arrays and every other type never compare equal. */
  predicate ScalarEqual(a: Variant, b: Variant) {
    a == b && (a.VBoolean? || NumberOf(a).Some? || a.VDateTime?)
  }

  /** A numeric change the deadband keeps from being reported. */
  predicate HeldBack(last: Variant, lastReported: Num, cur: Variant, config: Config) {
    config.deadbandType == DEADBAND_ABSOLUTE
    && NumberOf(cur).Some? && NumberOf(last).Some?
    && !AtLeastApart(NumberOf(cur).value, lastReported, config.deadband)
  }

  /**
   A report covers a sample: it has its status, it is the sample itself if that
   is not a number, and its number stands for the sample's unless NaN decided.
   */
  predicate Covers(report: Entry, cur: Variant, status: u32, deadband: Num) {
    report.status == status
    && match NumberOf(cur)
       case None => report.value == cur
       case Some(a) =>
         match NumberOf(report.value)
         case None => false
         case Some(b) => StandsFor(b, a, deadband) <==> report.value == cur || !Blinded(a, b, deadband)
  }

  lemma CoveredByLast(last: Variant, lastStatus: u32, lastReported: Num, cur: Variant, status: u32, deadband: Num)
    requires lastStatus == status && (NumberOf(last).Some? ==> lastReported == NumberOf(last).value)
    requires last == cur
      || (NumberOf(cur).Some? && NumberOf(last).Some? && !AtLeastApart(NumberOf(cur).value, lastReported, deadband))
    ensures Covers(Entry(last, lastStatus), cur, status, deadband)
  {
    hide NumberOf;
    if NumberOf(cur).Some? && last != cur {
      HeldBackIsCovered(NumberOf(cur).value, lastReported, deadband);
    }
  }

  /** Whether a sample is reported after the last one: a new status, or a new value the trigger looks at and the deadband lets through. */
  predicate Reportworthy(config: Config, last: Entry, cur: Entry) {
    || cur.status != last.status
    || (config.trigger != TRIGGER_STATUS && !ScalarEqual(cur.value, last.value)
        && !(NumberOf(last.value).Some? && HeldBack(last.value, NumberOf(last.value).value, cur.value, config)))
  }

  const GOOD: u32 := 0
  const DISABLED: byte := 0
  const SAMPLING: byte := 1
  const REPORTING: byte := 2
  const TRIGGER_STATUS: byte := 0
  const DEADBAND_ABSOLUTE: byte := 1
  const MAX_TRIGGER_LINKS: nat := 4

  /** What CreateMonitoredItems sets and sampling only reads. */
  datatype Config = Config(
    clientHandle: u32,
    trigger: byte,
    deadbandType: byte,
    deadband: Num,
    samplingInterval: u32,
    hasAggregate: bool,
    discardOldest: bool)

  const ZERO_CONFIG: Config := Config(0, 0, 0, Finite(0.0), 0, false, false)

  /** Everything an item is, its queue being that of its ledger; `since` counts the messages sent before it was created. */
  datatype ItemState = ItemState(
    inUse: bool, id: u32, subscription: u32, mode: byte, config: Config, nextSample: u64, triggered: seq<u32>,
    last: Entry, hasValue: bool, hasReported: bool, pending: bool, depth: nat, size: nat, ledger: Ledger, since: nat)
  {
    /** The queue fits its size, and an item with entries is marked so. */
    ghost predicate Core() {
      && 1 <= size <= depth <= 255 && Exact(ledger) && |ledger.Queued()| <= size
      && (|ledger.Queued()| > 0 ==> pending && hasReported)
    }

    predicate Fits() {
      1 <= size <= depth <= 255 && ledger.Valid() && |ledger.Queued()| <= size
    }

    /** The newest entry ever enqueued is the last value and status taken over. */
    predicate Current() {
      |ledger.enqueued| > 0 && Newest() == last && hasValue
    }

    function Newest(): (r: Entry)
      requires |ledger.enqueued| > 0
    {
      ledger.enqueued[|ledger.enqueued| - 1]
    }

    /** A value waits to be reported. */
    predicate Waiting()
      requires ledger.Valid()
    {
      pending && |ledger.Queued()| == 0
    }

    ghost predicate Valid() {
      && Core()
      && (Waiting() ==> hasValue && !hasReported)
      && (!config.hasAggregate && hasReported ==> Current())
      && (!config.hasAggregate && !hasReported && hasValue ==> Waiting())
    }

    /** Nothing sampled, nothing enqueued. */
    predicate Untouched() {
      ledger == EMPTY && !pending && !hasValue && !hasReported
    }

    /** monitored_item_enqueue_report. */
    function Report(e: Entry): (r: ItemState)
      requires Fits()
      ensures r.Fits() && r.ledger.enqueued == ledger.enqueued + [e] && r.ledger.Delivered() == ledger.Delivered()
    {
      this.(ledger := Enqueue(ledger, e, size, config.discardOldest), hasReported := true, pending := true)
    }

    /** The entry becomes the last value and is reported. */
    function TakeOver(e: Entry): (r: ItemState)
      requires Fits()
      ensures r.Fits() && r.ledger.enqueued == ledger.enqueued + [e] && r.ledger.Delivered() == ledger.Delivered()
    {
      this.(last := e, hasValue := true).Report(e)
    }

    /** What waits to be reported: at most one entry. */
    function Pending(): (r: seq<Entry>)
      requires ledger.Valid()
    {
      if Waiting() && hasValue then [last] else []
    }

    /** monitored_item_prepare_pending_queue. */
    function Woken(): (r: ItemState)
      requires Fits()
      ensures r.Fits() && r.ledger.enqueued == ledger.enqueued + Pending() && r.ledger.Delivered() == ledger.Delivered()
    {
      if Waiting() && hasValue then Report(last)
      else if hasValue && !hasReported then this.(hasReported := true)
      else this
    }

    /** The sample is reported: it is the first, or its status or a value past the deadband is new. */
    predicate Reports(e: Entry) {
      !hasValue || Reportworthy(config, last, e)
    }

    /** The sampling step without an aggregate: what waits is reported first. */
    function Noted(e: Entry): (r: ItemState)
      requires Fits()
      ensures r.Fits() && r.ledger.Delivered() == ledger.Delivered()
      ensures r.ledger.enqueued == ledger.enqueued + Pending() + if Reports(e) then [e] else []
    {
      if Reports(e) then Woken().TakeOver(e) else Woken()
    }

    /** The sampling step of the tick; with an aggregate nothing is reported. */
    function Sampled(e: Entry, now: u64): (r: ItemState)
      requires Fits()
      ensures r.Fits() && r.ledger.Delivered() == ledger.Delivered()
    {
      (if config.hasAggregate then this.(last := e, hasValue := true) else Noted(e))
        .(nextSample := AdvanceSampleTimer(nextSample, config.samplingInterval, now))
    }

    /** What enqueue_resend_data reports: the value read, or the last one with the read's status. */
    function Resend(read: Entry): (r: Entry) {
      Entry(if read.status == GOOD then read.value else if hasValue then last.value else VNull, read.status)
    }

    /** n entries were delivered from the front. */
    function Drained(n: nat): (r: ItemState)
      requires Fits() && n <= |ledger.Queued()|
      ensures r.Fits() && r.ledger.enqueued == ledger.enqueued
    {
      if n == 0 then this else this.(ledger := Deliver(ledger, n), pending := n < |ledger.Queued()|)
    }

    /** As CreateMonitoredItems leaves an item: a first value to report exactly if its read was good. */
    function Configured(config: Config, mode: byte, nextSample: u64, requested: u32, initial: Option<Entry>): (r: ItemState) {
      var good := initial.Some? && initial.value.status == GOOD;
      this.(config := config, mode := mode, nextSample := nextSample, size := ClampedSize(requested, depth),
            last := if initial.Some? then initial.value else last, hasValue := good, pending := good)
    }

    /** An item that is on. */
    predicate On(sub: u32) {
      inUse && subscription == sub && mode != DISABLED
    }

    predicate Reporting(sub: u32) {
      inUse && subscription == sub && mode == REPORTING
    }

    /** The item reports by value, with an absolute deadband and no aggregate. */
    predicate ByDeadband() {
      config.trigger != TRIGGER_STATUS && config.deadbandType == DEADBAND_ABSOLUTE && !config.hasAggregate
    }
  }

  /** The queue size in effect, whatever was asked for. */
  function ClampedSize(requested: nat, depth: nat): (r: nat)
    ensures depth > 0 ==> 1 <= r <= depth
  {
    if requested == 0 then 1 else if requested > depth then depth else requested
  }

  /** A slot after memset. */
  function Blank(depth: nat): (r: ItemState) {
    ItemState(false, 0, 0, DISABLED, ZERO_CONFIG, 0, [], Entry(VNull, 0), false, false, false, depth, 1, EMPTY, 0)
  }

  /** The links with one more, unless it is there or the list is full. */
  function WithLink(links: seq<u32>, linked: u32): (r: seq<u32>) {
    if linked in links || |links| >= MAX_TRIGGER_LINKS then links else links + [linked]
  }

  /** The links without the first occurrence of one. */
  function WithoutLink(links: seq<u32>, linked: u32): (r: seq<u32>)
    ensures multiset(r) == multiset(links) - multiset{linked}
  {
    if links == [] then []
    else
      assert links == [links[0]] + links[1..];
      if links[0] == linked then links[1..] else [links[0]] + WithoutLink(links[1..], linked)
  }

  // ----- What every step keeps

  lemma ValidCore(s: ItemState)
    requires s.Valid()
    ensures s.Core() && s.Fits() && (|s.ledger.Queued()| > 0 ==> s.pending && s.hasReported)
  {
  }

  /** Nothing but the account, the flags and the kind of reporting matters. */
  lemma ValidIgnores(s: ItemState, r: ItemState)
    requires s.Valid() && r.ledger == s.ledger && r.size == s.size && r.depth == s.depth && r.last == s.last
    requires r.hasValue == s.hasValue && r.hasReported == s.hasReported && r.pending == s.pending
    requires r.config.hasAggregate == s.config.hasAggregate
    ensures r.Valid()
  {
    hide Ordered, Faithful;
  }

  lemma BlankValid(depth: nat)
    requires 1 <= depth <= 255
    ensures Blank(depth).Valid() && Blank(depth).Untouched()
  {
    EmptyExact();
  }

  lemma ReportCore(s: ItemState, e: Entry)
    requires s.Core()
    ensures s.Report(e).Core() && !s.Report(e).Waiting()
  {
    hide Enqueue, Ordered, Faithful, Pushed;
    EnqueueExact(s.ledger, e, s.size, s.config.discardOldest);
    EnqueuePushes(s.ledger, e, s.size, s.config.discardOldest);
    PushedSome(s.ledger.Queued(), e, s.size, s.config.discardOldest);
  }

  lemma PushedSome(q: seq<Entry>, e: Entry, size: nat, discardOldest: bool)
    requires 0 < size && |q| <= size
    ensures 0 < |Pushed(q, e, size, discardOldest)| <= size
  {
  }

  lemma TakeOverValid(s: ItemState, e: Entry)
    requires s.Core()
    ensures s.TakeOver(e).Valid() && !s.TakeOver(e).Waiting()
  {
    hide Enqueue, Ordered, Faithful;
    CoreIgnoresLast(s, e);
    ReportCore(s.(last := e, hasValue := true), e);
  }

  lemma CoreIgnoresLast(s: ItemState, e: Entry)
    requires s.Core()
    ensures s.(last := e, hasValue := true).Core()
  {
  }

  lemma AggregatedValid(s: ItemState, e: Entry)
    requires s.Valid() && s.config.hasAggregate
    ensures s.Report(e).Valid()
  {
    hide Enqueue, Ordered, Faithful;
    ReportCore(s, e);
  }

  lemma WokenValid(s: ItemState)
    requires s.Valid()
    ensures s.Woken().Valid() && (s.hasValue ==> s.Woken().hasReported && !s.Woken().Waiting())
    ensures s.Woken().last == s.last && s.Woken().hasValue == s.hasValue && s.Woken().config == s.config
  {
    hide Enqueue, Ordered, Faithful;
    if s.Waiting() { ReportCore(s, s.last); }
  }

  lemma SampledValid(s: ItemState, e: Entry, now: u64)
    requires s.Valid()
    ensures s.Sampled(e, now).Valid()
  {
    hide Enqueue, Ordered, Faithful, Reportworthy, AdvanceSampleTimer;
    WokenValid(s);
    if !s.config.hasAggregate && s.Reports(e) { TakeOverValid(s.Woken(), e); }
  }

  lemma DrainedValid(s: ItemState, n: nat)
    requires s.Valid() && n <= |s.ledger.Queued()|
    ensures s.Drained(n).Valid()
  {
    hide Ordered, Faithful;
    DeliverExact(s.ledger, n);
  }

  lemma ConfiguredValid(s: ItemState, config: Config, mode: byte, nextSample: u64, requested: u32, initial: Option<Entry>)
    requires s.Valid() && s.Untouched()
    ensures s.Configured(config, mode, nextSample, requested, initial).Valid()
  {
    EmptyExact();
  }

  /**
   After every sample without an aggregate the newest report has its status;
   with an absolute deadband and a value trigger it covers the sample, so
   held-back drift never adds up.
   */
  lemma SampledCovers(s: ItemState, e: Entry, now: u64)
    requires s.Valid() && !s.config.hasAggregate
    ensures var r := s.Sampled(e, now);
      |r.ledger.enqueued| > 0 && r.Newest().status == e.status
      && (s.ByDeadband() ==> Covers(r.Newest(), e.value, e.status, s.config.deadband))
  {
    hide Enqueue, Ordered, Faithful, NumberOf, AtLeastApart, Covers, AdvanceSampleTimer;
    WokenValid(s);
    SampledValid(s, e, now);
    if s.ByDeadband() {
      var r := s.Sampled(e, now);
      CoveredByLast(r.last.value, r.last.status, if NumberOf(r.last.value).Some? then NumberOf(r.last.value).value else NaN, e.value, e.status, s.config.deadband);
    }
  }
}
