/**
 The last pass of a publish cycle: once the response is sent, exactly the
 entries it carried leave the queues.
 */
module Draining {
  import opened Types
  import opened Ledgers
  import opened ItemStates
  import opened Items
  import opened Selection
  import opened PoolStates
  import opened Publishing

  ghost predicate Sound(items: seq<MonitoredItem>)
    reads items, set i | 0 <= i < |items| :: items[i].queue
  {
    forall i :: 0 <= i < |items| ==> items[i].Valid()
  }

  ghost function StatesOf(items: seq<MonitoredItem>): (r: seq<ItemState>)
    reads items
    ensures |r| == |items| && forall i :: 0 <= i < |items| ==> r[i] == items[i].State()
  {
    seq(|items|, i requires 0 <= i < |items| reads items => items[i].State())
  }

  lemma SoundViews(items: seq<MonitoredItem>)
    requires Sound(items)
    ensures Rings(items) && ViewsOf(items) == Views(StatesOf(items))
  {
    hide ItemState.Valid, RingContents, NumberOf;
    forall i | 0 <= i < |items| ensures items[i].Ring() && ViewOf(items[i]) == View(items[i].State()) {
      assert items[i].Valid();
    }
  }

  lemma SoundStates(items: seq<MonitoredItem>)
    requires Sound(items)
    ensures AllValid(StatesOf(items)) && AllFit(StatesOf(items))
  {
    hide ItemState.Valid, RingContents, NumberOf, AllFit;
    forall i | 0 <= i < |items| ensures items[i].State().Valid() { assert items[i].Valid(); }
    ValidFits(StatesOf(items));
  }

  function Least(a: nat, b: nat): (r: nat) { if a < b then a else b }

  /** Item i when a pass over the chosen items has k entries to deliver. */
  ghost function Passed(ss: seq<ItemState>, chosen: seq<bool>, k: int, i: nat): (r: ItemState)
    requires AllFit(ss) && i < |ss| == |chosen|
  {
    if chosen[i] then ss[i].Drained(|Prefix(Views(ss)[i].queued, k - |Gather(Views(ss), chosen, i)|)|) else ss[i]
  }

  lemma NonePassed(ss: seq<ItemState>, chosen: seq<bool>, k: int, i: nat)
    requires AllFit(ss) && i < |ss| == |chosen|
    requires !chosen[i] || k <= |Gather(Views(ss), chosen, i)|
    ensures Passed(ss, chosen, k, i) == ss[i]
  {
    hide Gather;
  }

  lemma SomePassed(ss: seq<ItemState>, chosen: seq<bool>, k: int, i: nat)
    requires AllFit(ss) && i < |ss| == |chosen| && chosen[i] && k > |Gather(Views(ss), chosen, i)|
    ensures ss[i].Fits() && Views(ss)[i].queued == ss[i].ledger.Queued()
    ensures Passed(ss, chosen, k, i) == ss[i].Drained(Least(k - |Gather(Views(ss), chosen, i)|, |ss[i].ledger.Queued()|))
  {
    hide Gather;
  }

  /** The chosen items still are as they were, and all have entries. */
  ghost predicate Poised(items: seq<MonitoredItem>, chosen: seq<bool>, ss: seq<ItemState>)
    requires |ss| == |chosen| == |items|
    reads items
  {
    forall i :: 0 <= i < |items| && chosen[i] ==> items[i].State() == ss[i] && items[i].count > 0
  }

  /** One item of the loop; no other item is touched. */
  method DrainOne(items: seq<MonitoredItem>, i: nat, item: MonitoredItem, allowance: nat) returns (left: nat)
    requires Sound(items) && Apart(items) && i < |items| && item == items[i] && item.count > 0
    modifies item`queueSize, item`head, item`tail, item`count, item`queueOverflow, item`pending, item`ledger
    ensures Sound(items) && old(item.State()).Fits()
    ensures var n := Least(allowance, |old(item.State()).ledger.Queued()|);
      left == allowance - n && item.State() == old(item.State()).Drained(n)
  {
    hide ItemState.Valid, ItemState.Drained, RingContents, NumberOf, MonitoredItem.State, MonitoredItem.Told;
    item.HoldsFits();
    assert old(item.State()).ledger == item.ledger by { StateLedger(item); }
    left := item.Drain(allowance);
    forall j | 0 <= j < |items| ensures items[j].Valid() {
      if j != i { assert items[j] != item; }
    }
  }

  lemma StateLedger(item: MonitoredItem)
    ensures item.State().ledger == item.ledger
  {
  }

  /** One loop of clear_reported_items. */
  method DrainChosen(items: seq<MonitoredItem>, chosen: seq<bool>, allowance: nat, ghost ss: seq<ItemState>) returns (left: nat)
    requires Sound(items) && Apart(items) && |chosen| == |items| == |ss| && AllFit(ss) && Poised(items, chosen, ss)
    modifies items`queueSize, items`head, items`tail, items`count, items`queueOverflow, items`pending, items`ledger
    ensures Sound(items)
    ensures forall i :: 0 <= i < |items| && !chosen[i] ==> unchanged(items[i])
    ensures forall i :: 0 <= i < |items| && chosen[i] ==> items[i].State() == Passed(ss, chosen, allowance, i)
    ensures left == allowance - Least(allowance, |Gather(Views(ss), chosen, |items|)|)
  {
    hide Gather, Passed, Sound, AllFit, Views, MonitoredItem.State, ItemState.Drained, ItemState.Fits;
    left := allowance;
    var i := 0;
    ghost var vs := Views(ss);
    GatherNone(vs, chosen);
    while i < |items| && left > 0
      invariant i <= |items|
      invariant left == allowance - Least(allowance, |Gather(vs, chosen, i)|)
      invariant Sound(items)
      invariant forall j :: 0 <= j < |items| && !chosen[j] ==> unchanged(items[j])
      invariant forall j :: 0 <= j < i && chosen[j] ==> items[j].State() == Passed(ss, chosen, allowance, j)
      invariant forall j :: i <= j < |items| ==> unchanged(items[j])
    {
      GatherStep(vs, chosen, i);
      if chosen[i] {
        assert items[i].State() == ss[i] && items[i].count > 0;
        SomePassed(ss, chosen, allowance, i);
        left := DrainOne(items, i, items[i], left);
      }
      i := i + 1;
    }
    forall j | i <= j < |items| && chosen[j] ensures items[j].State() == Passed(ss, chosen, allowance, j) {
      GatherGrows(vs, chosen, i, j);
      NonePassed(ss, chosen, allowance, j);
    }
    GatherGrows(vs, chosen, i, |items|);
  }

  // ----- Both loops

  /** No item of the subscription that is on waits for its first entry. */
  ghost predicate Prepared(ss: seq<ItemState>, sub: u32) {
    forall i :: 0 <= i < |ss| && ss[i].On(sub) ==> ss[i].ledger.Valid() && !ss[i].Waiting()
  }

  lemma DrainedIsPassed(ss: seq<ItemState>, sub: u32, k: nat, i: nat)
    requires AllFit(ss) && i < |ss|
    ensures var vs, r := Views(ss), DrainedAll(ss, sub, k)[i];
      && (Reporters(vs, sub)[i] ==> !Linked(vs, sub)[i] && r == Passed(ss, Reporters(vs, sub), k, i))
      && (Linked(vs, sub)[i] ==> r == Passed(ss, Linked(vs, sub), k - Least(k, |Selection.Reporting(vs, sub)|), i))
      && (!Reporters(vs, sub)[i] && !Linked(vs, sub)[i] ==> r == ss[i])
  {
    hide Gather;
  }

  /** The reporting items, and then the linked ones with what is left of the count. */
  method DrainBoth(items: seq<MonitoredItem>, reporters: seq<bool>, linked: seq<bool>, count: nat, ghost ss: seq<ItemState>)
    requires Sound(items) && Apart(items) && ss == StatesOf(items) && AllFit(ss) && |reporters| == |linked| == |items|
    requires Poised(items, reporters, ss) && Poised(items, linked, ss) && forall i :: 0 <= i < |items| && linked[i] ==> !reporters[i]
    modifies items`queueSize, items`head, items`tail, items`count, items`queueOverflow, items`pending, items`ledger
    ensures Sound(items)
    ensures var rest := count - Least(count, |Gather(Views(ss), reporters, |items|)|);
      forall i :: 0 <= i < |items| ==>
        items[i].State() == if reporters[i] then Passed(ss, reporters, count, i) else if linked[i] then Passed(ss, linked, rest, i) else ss[i]
  {
    hide Gather, Passed, MonitoredItem.Valid, Sound, Views, AllFit, MonitoredItem.State;
    var left := DrainChosen(items, reporters, count, ss);
    ghost var rest := left;
    ghost var after := StatesOf(items);
    if left > 0 {
      assert Poised(items, linked, ss);
      left := DrainChosen(items, linked, left, ss);
    }
    forall i | 0 <= i < |items|
      ensures items[i].State() == if reporters[i] then Passed(ss, reporters, count, i) else if linked[i] then Passed(ss, linked, rest, i) else ss[i]
    {
      if !linked[i] { assert items[i].State() == after[i]; }
      if rest == 0 && linked[i] { NonePassed(ss, linked, rest, i); }
    }
  }

  /** Which items the two loops visit. */
  method ChooseItems(items: seq<MonitoredItem>, sub: u32, ghost ss: seq<ItemState>) returns (reporters: seq<bool>, linked: seq<bool>)
    requires Sound(items) && ss == StatesOf(items) && Prepared(ss, sub)
    ensures reporters == Reporters(Views(ss), sub) && linked == Linked(Views(ss), sub) && |reporters| == |linked| == |items|
    ensures Poised(items, reporters, ss) && Poised(items, linked, ss)
  {
    hide ViewsOf, ViewOf, Rings, Views, MonitoredItem.State, Sound, Poised;
    SoundViews(items);
    linked := LinkedItems(items, sub);
    reporters := ReportingItems(items, sub);
    ReadyReporters(items, sub, ss);
  }

  lemma DrainedBoth(ss: seq<ItemState>, sub: u32, k: nat, ts: seq<ItemState>)
    requires AllFit(ss) && |ts| == |ss|
    requires var vs := Views(ss);
      var reporters, linked, rest := Reporters(vs, sub), Linked(vs, sub), k - Least(k, |Selection.Reporting(vs, sub)|);
      forall i :: 0 <= i < |ss| ==>
        ts[i] == if reporters[i] then Passed(ss, reporters, k, i) else if linked[i] then Passed(ss, linked, rest, i) else ss[i]
    ensures ts == DrainedAll(ss, sub, k)
  {
    hide Gather, Passed, Reporters, Linked, Views, AllFit;
    forall i | 0 <= i < |ss| ensures ts[i] == DrainedAll(ss, sub, k)[i] {
      hide DrainedAll;
      DrainedIsPassed(ss, sub, k, i);
    }
  }

  /** clear_reported_items. */
  method ClearReported(items: seq<MonitoredItem>, sub: u32, count: nat, ghost ss: seq<ItemState>)
    requires Sound(items) && Apart(items) && ss == StatesOf(items) && AllFit(ss) && Prepared(ss, sub)
    modifies items`queueSize, items`head, items`tail, items`count, items`queueOverflow, items`pending, items`ledger
    ensures Sound(items) && StatesOf(items) == DrainedAll(ss, sub, count)
  {
    hide Gather, Passed, Reporters, Linked, DrainedAll, Views, AllFit, MonitoredItem.State, Sound, Poised, Prepared;
    var reporters, linked := ChooseItems(items, sub, ss);
    forall i | 0 <= i < |items| && linked[i] ensures !reporters[i] { DrainedIsPassed(ss, sub, count, i); }
    DrainBoth(items, reporters, linked, count, ss);
    DrainedBoth(ss, sub, count, StatesOf(items));
  }

  lemma ReadyReporters(items: seq<MonitoredItem>, sub: u32, ss: seq<ItemState>)
    requires Sound(items) && ss == StatesOf(items) && Prepared(ss, sub)
    ensures Poised(items, Reporters(Views(ss), sub), ss) && Poised(items, Linked(Views(ss), sub), ss)
  {
    hide RingContents, NumberOf, ItemState.Valid;
    forall i | 0 <= i < |items| ensures |View(ss[i]).queued| == items[i].count {
      assert items[i].Valid();
    }
  }
}
