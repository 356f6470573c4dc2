/**
 The item slots as values, and what the passes over them make of all items at
 once: sampling, preparing, resending and draining.
 */
module PoolStates {
  import opened Types
  import opened Ledgers
  import opened ItemStates
  import opened Selection

  ghost predicate AllValid(ss: seq<ItemState>) {
    forall i :: 0 <= i < |ss| ==> ss[i].Valid()
  }

  predicate AllFit(ss: seq<ItemState>) {
    forall i :: 0 <= i < |ss| ==> ss[i].Fits()
  }

  lemma ValidFits(ss: seq<ItemState>)
    requires AllValid(ss)
    ensures AllFit(ss)
  {
    forall i | 0 <= i < |ss| ensures ss[i].Fits() { ValidCore(ss[i]); }
  }

  function View(s: ItemState): (v: ItemView) {
    ItemView(s.inUse, s.id, s.subscription, s.mode, s.config.clientHandle, s.pending,
             if s.ledger.Valid() then s.ledger.Queued() else [], s.triggered)
  }

  function Views(ss: seq<ItemState>): (r: seq<ItemView>)
    ensures |r| == |ss| && forall i :: 0 <= i < |ss| ==> r[i] == View(ss[i])
  {
    seq(|ss|, i requires 0 <= i < |ss| => View(ss[i]))
  }

  // ----- Preparing and resending

  function WokenIf(s: ItemState, sub: u32): (r: ItemState)
    requires s.Fits()
    ensures r.Fits() && r.ledger.Delivered() == s.ledger.Delivered()
  {
    if s.On(sub) then s.Woken() else s
  }

  function ResentIf(s: ItemState, sub: u32, read: Entry): (r: ItemState)
    requires s.Fits()
    ensures r.Fits() && r.ledger.Delivered() == s.ledger.Delivered()
  {
    if s.Reporting(sub) then s.TakeOver(s.Resend(read)) else s
  }

  /** prepare_reportable_queues. */
  function WokenAll(ss: seq<ItemState>, sub: u32): (r: seq<ItemState>)
    requires AllFit(ss)
    ensures |r| == |ss| && AllFit(r) && forall i :: 0 <= i < |ss| ==> r[i] == WokenIf(ss[i], sub)
  {
    seq(|ss|, i requires 0 <= i < |ss| && ss[i].Fits() => WokenIf(ss[i], sub))
  }

  /** enqueue_resend_data. */
  function ResentAll(ss: seq<ItemState>, sub: u32, values: seq<Entry>): (r: seq<ItemState>)
    requires AllFit(ss) && |values| == |ss|
    ensures |r| == |ss| && AllFit(r) && forall i :: 0 <= i < |ss| ==> r[i] == ResentIf(ss[i], sub, values[i])
  {
    seq(|ss|, i requires 0 <= i < |ss| && ss[i].Fits() => ResentIf(ss[i], sub, values[i]))
  }

  /** The items as a cycle finds them once it has prepared, and resent if that was asked for. */
  function Refreshed(ss: seq<ItemState>, sub: u32, resend: bool, values: seq<Entry>): (r: seq<ItemState>)
    requires AllFit(ss) && |values| == |ss|
    ensures |r| == |ss| && AllFit(r)
  {
    if resend then ResentAll(WokenAll(ss, sub), sub, values) else WokenAll(ss, sub)
  }

  lemma WokenAllValid(ss: seq<ItemState>, sub: u32)
    requires AllValid(ss)
    ensures AllFit(ss) && AllValid(WokenAll(ss, sub))
  {
    hide ItemState.Valid, ItemState.Woken, ItemState.Fits;
    ValidFits(ss);
    forall i | 0 <= i < |ss| ensures WokenAll(ss, sub)[i].Valid() { WokenValid(ss[i]); }
  }

  lemma ResentAllValid(ss: seq<ItemState>, sub: u32, values: seq<Entry>)
    requires AllValid(ss) && |values| == |ss|
    ensures AllFit(ss) && AllValid(ResentAll(ss, sub, values))
  {
    hide ItemState.Valid, ItemState.TakeOver, ItemState.Fits;
    ValidFits(ss);
    forall i | 0 <= i < |ss| ensures ResentAll(ss, sub, values)[i].Valid() {
      ValidCore(ss[i]);
      TakeOverValid(ss[i], ss[i].Resend(values[i]));
    }
  }

  lemma RefreshedValid(ss: seq<ItemState>, sub: u32, resend: bool, values: seq<Entry>)
    requires AllValid(ss) && |values| == |ss|
    ensures AllFit(ss) && AllValid(Refreshed(ss, sub, resend, values))
  {
    hide AllValid, AllFit, WokenAll, ResentAll;
    ValidFits(ss);
    WokenAllValid(ss, sub);
    if resend { ResentAllValid(WokenAll(ss, sub), sub, values); }
  }

  // ----- Draining

  /** How much of item i's queue the first k selected notices carry. */
  function Share(vs: seq<ItemView>, sub: u32, k: nat, i: nat): (r: nat)
    requires i < |vs|
    ensures r <= |vs[i].queued|
  {
    |Prefix(vs[i].queued, Allowance(vs, sub, k, i))|
  }

  /** The items once the first k selected notices were delivered. */
  function DrainedAll(ss: seq<ItemState>, sub: u32, k: nat): (r: seq<ItemState>)
    requires AllFit(ss)
    ensures |r| == |ss| && AllFit(r)
    ensures forall i :: 0 <= i < |ss| ==> r[i] == ss[i].Drained(Share(Views(ss), sub, k, i))
  {
    seq(|ss|, i requires 0 <= i < |ss| && ss[i].Fits() => ss[i].Drained(Share(Views(ss), sub, k, i)))
  }

  lemma DrainedAllValid(ss: seq<ItemState>, sub: u32, k: nat)
    requires AllValid(ss)
    ensures AllFit(ss) && AllValid(DrainedAll(ss, sub, k))
  {
    hide ItemState.Valid, ItemState.Drained, ItemState.Fits, Share;
    ValidFits(ss);
    forall i | 0 <= i < |ss| ensures DrainedAll(ss, sub, k)[i].Valid() {
      ValidCore(ss[i]);
      DrainedValid(ss[i], Share(Views(ss), sub, k, i));
    }
  }

  /** What an item delivers is what the message says of it, and the rest stays queued. */
  lemma DrainedDelivers(ss: seq<ItemState>, sub: u32, k: nat, i: nat)
    requires AllFit(ss) && i < |ss|
    ensures var r, taken := DrainedAll(ss, sub, k)[i], TakenFrom(Prefix(Selected(Views(ss), sub), k), i);
      && r.ledger.Delivered() == ss[i].ledger.Delivered() + taken
      && taken + r.ledger.Queued() == ss[i].ledger.Queued()
  {
    hide Selected, Allowance, TakenFrom, AllFit, Views;
    var vs := Views(ss);
    TakenIsAllowance(vs, sub, k, i);
    var q, n := vs[i].queued, Allowance(vs, sub, k, i);
    assert ss[i].Fits() by { EachFits(ss, i); }
    assert q == ss[i].ledger.Queued();
    assert q[..|Prefix(q, n)|] == Prefix(q, n);
    if Share(vs, sub, k, i) == 0 { assert q[..0] == []; }
  }

  lemma EachFits(ss: seq<ItemState>, i: nat)
    requires AllFit(ss) && i < |ss|
    ensures ss[i].Fits()
  {
  }

  // ----- Sampling

  /** One live item in mu_subscriptions_tick: an aggregate if one is due, then a sample if one is. */
  function Ticked(s: ItemState, now: u64, aggregate: Option<Entry>, sample: Entry): (r: ItemState)
    requires s.Fits()
    ensures r.Fits() && r.ledger.Delivered() == s.ledger.Delivered()
  {
    if s.inUse && s.mode != DISABLED then
      var a := if s.config.hasAggregate && aggregate.Some? then s.Report(aggregate.value) else s;
      if a.nextSample <= now then a.Sampled(sample, now) else a
    else s
  }

  function TickedAll(ss: seq<ItemState>, now: u64, aggregates: seq<Option<Entry>>, samples: seq<Entry>): (r: seq<ItemState>)
    requires AllFit(ss) && |aggregates| == |samples| == |ss|
    ensures |r| == |ss| && AllFit(r) && forall i :: 0 <= i < |ss| ==> r[i] == Ticked(ss[i], now, aggregates[i], samples[i])
  {
    seq(|ss|, i requires 0 <= i < |ss| && ss[i].Fits() => Ticked(ss[i], now, aggregates[i], samples[i]))
  }

  lemma TickedValid(s: ItemState, now: u64, aggregate: Option<Entry>, sample: Entry)
    requires s.Valid()
    ensures s.Fits() && Ticked(s, now, aggregate, sample).Valid()
  {
    hide ItemState.Valid, ItemState.Sampled, ItemState.Fits;
    ValidCore(s);
    if s.config.hasAggregate && aggregate.Some? { AggregatedValid(s, aggregate.value); }
    var a := if s.config.hasAggregate && aggregate.Some? then s.Report(aggregate.value) else s;
    SampledValid(a, sample, now);
  }

  lemma TickedAllValid(ss: seq<ItemState>, now: u64, aggregates: seq<Option<Entry>>, samples: seq<Entry>)
    requires AllValid(ss) && |aggregates| == |samples| == |ss|
    ensures AllFit(ss) && AllValid(TickedAll(ss, now, aggregates, samples))
  {
    hide ItemState.Valid, Ticked, ItemState.Fits;
    ValidFits(ss);
    forall i | 0 <= i < |ss| ensures TickedAll(ss, now, aggregates, samples)[i].Valid() {
      TickedValid(ss[i], now, aggregates[i], samples[i]);
    }
  }
}
