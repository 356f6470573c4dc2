/**
 Which queued entries a publish cycle is about: first the queues of the items
 that report, then those of the sampling items a reporting item triggers
 (section 5.13.1.6 of OPC 10000-4), in slot order, cut off at the cap. Counting,
 writing and draining all go by this one sequence.
 */
module Selection {
  import opened Types
  import opened Ledgers
  import opened ItemStates

  /** What publishing reads of an item. */
  datatype ItemView = ItemView(
    inUse: bool, id: u32, subscription: u32, mode: byte, handle: u32,
    pending: bool, queued: seq<Entry>, triggered: seq<u32>)

  /** An entry due for delivery, with the slot and client handle of its item. */
  datatype Notice = Notice(item: nat, handle: u32, entry: Entry)

  predicate InSubscription(v: ItemView, sub: u32) {
    v.inUse && v.subscription == sub
  }

  predicate Reportable(v: ItemView, sub: u32) {
    InSubscription(v, sub) && (v.pending || |v.queued| > 0) && v.mode == REPORTING
  }

  /** A sampling item with entries, linked from an item that reports. */
  predicate Released(vs: seq<ItemView>, sub: u32, i: nat)
    requires i < |vs|
  {
    InSubscription(vs[i], sub) && vs[i].mode == SAMPLING && |vs[i].queued| > 0
    && exists t :: 0 <= t < |vs| && Reportable(vs[t], sub) && vs[i].id in vs[t].triggered
  }

  function Tagged(i: nat, handle: u32, q: seq<Entry>): (r: seq<Notice>)
    ensures |r| == |q|
  {
    if q == [] then [] else Tagged(i, handle, q[..|q| - 1]) + [Notice(i, handle, q[|q| - 1])]
  }

  /** The queues of the chosen items among the first n, one after the other. */
  function Gather(vs: seq<ItemView>, chosen: seq<bool>, n: nat): (r: seq<Notice>)
    requires n <= |vs| == |chosen|
  {
    if n == 0 then [] else Gather(vs, chosen, n - 1) + Block(vs, chosen, n - 1)
  }

  function Block(vs: seq<ItemView>, chosen: seq<bool>, i: nat): (r: seq<Notice>)
    requires i < |vs| == |chosen|
  {
    if chosen[i] then Tagged(i, vs[i].handle, vs[i].queued) else []
  }

  function Reporters(vs: seq<ItemView>, sub: u32): (r: seq<bool>)
    ensures |r| == |vs|
  {
    seq(|vs|, i requires 0 <= i < |vs| => Reportable(vs[i], sub))
  }

  function Linked(vs: seq<ItemView>, sub: u32): (r: seq<bool>)
    ensures |r| == |vs|
  {
    seq(|vs|, i requires 0 <= i < |vs| => Released(vs, sub, i))
  }

  function Reporting(vs: seq<ItemView>, sub: u32): (r: seq<Notice>) {
    Gather(vs, Reporters(vs, sub), |vs|)
  }

  function Triggered(vs: seq<ItemView>, sub: u32): (r: seq<Notice>) {
    Gather(vs, Linked(vs, sub), |vs|)
  }

  /** Everything the cycle could deliver, in the order it does. */
  function Selected(vs: seq<ItemView>, sub: u32): (r: seq<Notice>) {
    Reporting(vs, sub) + Triggered(vs, sub)
  }

  /** How many of n entries a cap lets through; a cap of zero is no cap. */
  function Capped(n: nat, cap: nat): (r: nat)
    ensures r <= n && (cap > 0 ==> r <= cap)
    ensures r < n ==> r == cap > 0
  {
    if cap != 0 && n > cap then cap else n
  }

  // ----- What one item gives

  /** The entries of item i in a sequence of notices. */
  function TakenFrom(s: seq<Notice>, i: nat): (r: seq<Entry>) {
    if s == [] then []
    else TakenFrom(s[..|s| - 1], i) + if s[|s| - 1].item == i then [s[|s| - 1].entry] else []
  }

  function Prefix<T>(s: seq<T>, n: int): (r: seq<T>)
    ensures |r| == if n <= 0 then 0 else if n < |s| then n else |s|
  {
    if n <= 0 then [] else if n < |s| then s[..n] else s
  }

  lemma PrefixConcat<T>(a: seq<T>, b: seq<T>, n: int)
    ensures Prefix(a + b, n) == Prefix(a, n) + Prefix(b, n - |a|)
  {
  }

  lemma {:induction false} TakenConcat(a: seq<Notice>, b: seq<Notice>, i: nat)
    ensures TakenFrom(a + b, i) == TakenFrom(a, i) + TakenFrom(b, i)
  {
    if b == [] {
      assert a + b == a;
    } else {
      assert (a + b)[..|a + b| - 1] == a + b[..|b| - 1];
      TakenConcat(a, b[..|b| - 1], i);
    }
  }

  lemma {:induction false} TakenTagged(i: nat, handle: u32, q: seq<Entry>, j: nat)
    ensures TakenFrom(Tagged(i, handle, q), j) == if i == j then q else []
  {
    if q != [] {
      var s := Tagged(i, handle, q);
      assert s[..|s| - 1] == Tagged(i, handle, q[..|q| - 1]);
      TakenTagged(i, handle, q[..|q| - 1], j);
      assert q[..|q| - 1] + [q[|q| - 1]] == q;
    }
  }

  lemma {:induction false} PrefixTagged(i: nat, handle: u32, q: seq<Entry>, n: int)
    ensures Prefix(Tagged(i, handle, q), n) == Tagged(i, handle, Prefix(q, n))
  {
    if q != [] {
      var m := |q| - 1;
      PrefixTagged(i, handle, q[..m], n);
      var s := Tagged(i, handle, q);
      assert s[..m] == Tagged(i, handle, q[..m]);
      if 0 < n < |q| {
        assert s[..n] == s[..m][..n] && q[..n] == q[..m][..n];
        if n == m { assert q[..m][..n] == q[..m] && s[..m][..n] == s[..m]; }
      }
    }
  }

  lemma TakenBlock(vs: seq<ItemView>, chosen: seq<bool>, m: nat, k: int, i: nat)
    requires m < |vs| == |chosen|
    ensures TakenFrom(Prefix(Block(vs, chosen, m), k), i) == if chosen[m] && i == m then Prefix(vs[m].queued, k) else []
  {
    if chosen[m] {
      PrefixTagged(m, vs[m].handle, vs[m].queued, k);
      TakenTagged(m, vs[m].handle, Prefix(vs[m].queued, k), i);
    }
  }

  lemma {:induction false} TakenGather(vs: seq<ItemView>, chosen: seq<bool>, n: nat, k: int, i: nat)
    requires n <= |vs| == |chosen|
    ensures TakenFrom(Prefix(Gather(vs, chosen, n), k), i)
      == if i < n && chosen[i] then Prefix(vs[i].queued, k - |Gather(vs, chosen, i)|) else []
  {
    hide Prefix, Block;
    if n == 0 {
      assert Prefix(Gather(vs, chosen, n), k) == [];
    } else {
      var m := n - 1;
      var a, b := Gather(vs, chosen, m), Block(vs, chosen, m);
      TakenGather(vs, chosen, m, k, i);
      PrefixConcat(a, b, k);
      TakenConcat(Prefix(a, k), Prefix(b, k - |a|), i);
      TakenBlock(vs, chosen, m, k - |a|, i);
    }
  }

  /** The allowance left when a cycle of k entries reaches item i. */
  function Allowance(vs: seq<ItemView>, sub: u32, k: nat, i: nat): (r: int)
    requires i < |vs|
  {
    if Reportable(vs[i], sub) then k - |Gather(vs, Reporters(vs, sub), i)|
    else if Released(vs, sub, i) then k - |Reporting(vs, sub)| - |Gather(vs, Linked(vs, sub), i)|
    else 0
  }

  /** The first k selected notices take, from each item, the front of its queue as far as its allowance. */
  lemma TakenIsAllowance(vs: seq<ItemView>, sub: u32, k: nat, i: nat)
    requires i < |vs|
    ensures TakenFrom(Prefix(Selected(vs, sub), k), i) == Prefix(vs[i].queued, Allowance(vs, sub, k, i))
  {
    hide Gather, TakenFrom, Reportable, Released;
    ReleasedIs(vs, sub, i);
    var a, b := Reporting(vs, sub), Triggered(vs, sub);
    PrefixConcat(a, b, k);
    TakenConcat(Prefix(a, k), Prefix(b, k - |a|), i);
    TakenGather(vs, Reporters(vs, sub), |vs|, k, i);
    TakenGather(vs, Linked(vs, sub), |vs|, k - |a|, i);
  }

  // ----- What is selected, in terms of the items alone

  /** Item t reports and links to item i. */
  predicate Triggers(vs: seq<ItemView>, sub: u32, t: nat, i: nat)
    requires t < |vs| && i < |vs|
  {
    vs[t].inUse && vs[t].subscription == sub && vs[t].mode == 2 && (vs[t].pending || vs[t].queued != []) && vs[i].id in vs[t].triggered
  }

  /** All or nothing of an item is selected: all if it reports, or if it samples and one that reports links to it. */
  lemma SelectedExactly(vs: seq<ItemView>, sub: u32, i: nat)
    requires i < |vs|
    ensures TakenFrom(Selected(vs, sub), i) ==
      if vs[i].inUse && vs[i].subscription == sub
         && (vs[i].mode == 2 || (vs[i].mode == 1 && exists t :: 0 <= t < |vs| && Triggers(vs, sub, t, i)))
      then vs[i].queued else []
  {
    hide Gather, TakenFrom, Reportable, Released;
    var a, b := Reporting(vs, sub), Triggered(vs, sub);
    TakenConcat(a, b, i);
    assert Prefix(a, |a|) == a && Prefix(b, |b|) == b;
    TakenGather(vs, Reporters(vs, sub), |vs|, |a|, i);
    TakenGather(vs, Linked(vs, sub), |vs|, |b|, i);
    if Reportable(vs[i], sub) {
      GatherHolds(vs, Reporters(vs, sub), |vs|, i);
    } else if Released(vs, sub, i) {
      GatherHolds(vs, Linked(vs, sub), |vs|, i);
    }
    ReleasedIs(vs, sub, i);
  }

  lemma ReleasedIs(vs: seq<ItemView>, sub: u32, i: nat)
    requires i < |vs|
    ensures Reportable(vs[i], sub) || (vs[i].inUse && vs[i].subscription == sub && vs[i].mode == 2 && vs[i].queued == [])
      <==> vs[i].inUse && vs[i].subscription == sub && vs[i].mode == 2
    ensures Reportable(vs[i], sub) ==> !Released(vs, sub, i)
    ensures Released(vs, sub, i) || (vs[i].inUse && vs[i].subscription == sub && vs[i].mode == 1 && vs[i].queued == [] && exists t :: 0 <= t < |vs| && Triggers(vs, sub, t, i))
      <==> vs[i].inUse && vs[i].subscription == sub && vs[i].mode == 1 && exists t :: 0 <= t < |vs| && Triggers(vs, sub, t, i)
  {
    if Released(vs, sub, i) {
      var t :| 0 <= t < |vs| && Reportable(vs[t], sub) && vs[i].id in vs[t].triggered;
      assert Triggers(vs, sub, t, i);
    }
    if t :| 0 <= t < |vs| && Triggers(vs, sub, t, i) {
      assert Reportable(vs[t], sub) && vs[i].id in vs[t].triggered;
    }
  }

  /** A chosen item's queue lies within what is gathered. */
  lemma {:induction false} GatherHolds(vs: seq<ItemView>, chosen: seq<bool>, n: nat, i: nat)
    requires i < n <= |vs| == |chosen| && chosen[i]
    ensures |Gather(vs, chosen, i)| + |vs[i].queued| <= |Gather(vs, chosen, n)|
  {
    if i < n - 1 { GatherHolds(vs, chosen, n - 1, i); }
  }

  /** Two notices in the order they are sent: reporting items before triggered ones, then by slot; each under its item's handle. */
  predicate InOrder(vs: seq<ItemView>, a: Notice, b: Notice) {
    a.item < |vs| && b.item < |vs| && a.handle == vs[a.item].handle && b.handle == vs[b.item].handle
    && (vs[a.item].mode == 2 || vs[b.item].mode == 1)
    && (vs[a.item].mode == vs[b.item].mode ==> a.item <= b.item)
  }

  lemma {:induction false} TaggedAre(i: nat, handle: u32, q: seq<Entry>)
    ensures forall k :: 0 <= k < |q| ==> Tagged(i, handle, q)[k] == Notice(i, handle, q[k])
  {
    if q != [] { TaggedAre(i, handle, q[..|q| - 1]); }
  }

  /** The notice is of a chosen item among the first n, under its handle. */
  predicate Proper(vs: seq<ItemView>, chosen: seq<bool>, n: nat, x: Notice)
    requires n <= |vs| == |chosen|
  {
    x.item < n && chosen[x.item] && x.handle == vs[x.item].handle
  }

  predicate Ascending(s: seq<Notice>) {
    forall j, k :: 0 <= j < k < |s| ==> s[j].item <= s[k].item
  }

  lemma {:induction false} GatherAre(vs: seq<ItemView>, chosen: seq<bool>, n: nat)
    requires n <= |vs| == |chosen|
    ensures forall x :: x in Gather(vs, chosen, n) ==> Proper(vs, chosen, n, x)
    ensures Ascending(Gather(vs, chosen, n))
  {
    hide Tagged;
    if n > 0 {
      GatherAre(vs, chosen, n - 1);
      BlockAre(vs, chosen, n - 1);
      AscendingConcat(Gather(vs, chosen, n - 1), Block(vs, chosen, n - 1), n - 1);
    }
  }

  lemma BlockAre(vs: seq<ItemView>, chosen: seq<bool>, m: nat)
    requires m < |vs| == |chosen|
    ensures forall x :: x in Block(vs, chosen, m) ==> x.item == m && Proper(vs, chosen, m + 1, x)
  {
    TaggedAre(m, vs[m].handle, vs[m].queued);
  }

  lemma AscendingConcat(a: seq<Notice>, b: seq<Notice>, m: nat)
    requires Ascending(a) && (forall x :: x in a ==> x.item < m) && (forall x :: x in b ==> x.item == m)
    ensures Ascending(a + b)
  {
    var s := a + b;
    forall j, k | 0 <= j < k < |s| ensures s[j].item <= s[k].item {
      if k < |a| {
        assert s[j] == a[j] && s[k] == a[k];
      } else {
        assert s[k] == b[k - |a|] && s[k] in b;
        if j < |a| { assert s[j] in a; } else { assert s[j] == b[j - |a|] && s[j] in b; }
      }
    }
  }

  lemma SelectedInOrder(vs: seq<ItemView>, sub: u32, j: nat, k: nat)
    requires j < k < |Selected(vs, sub)|
    ensures InOrder(vs, Selected(vs, sub)[j], Selected(vs, sub)[k])
  {
    hide Gather;
    var a, b, s := Reporting(vs, sub), Triggered(vs, sub), Selected(vs, sub);
    GatherAre(vs, Reporters(vs, sub), |vs|);
    GatherAre(vs, Linked(vs, sub), |vs|);
    forall x | x in a ensures Proper(vs, Reporters(vs, sub), |vs|, x) && vs[x.item].mode == 2 {
      assert Reporters(vs, sub)[x.item] == Reportable(vs[x.item], sub);
    }
    forall x | x in b ensures Proper(vs, Linked(vs, sub), |vs|, x) && vs[x.item].mode == 1 {
      assert Linked(vs, sub)[x.item] == Released(vs, sub, x.item);
    }
    assert if j < |a| then s[j] == a[j] && s[j] in a else s[j] == b[j - |a|] && s[j] in b;
    assert if k < |a| then s[k] == a[k] && s[k] in a else s[k] == b[k - |a|] && s[k] in b;
  }
}
