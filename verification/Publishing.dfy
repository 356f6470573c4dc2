/**
 The publish cycle's passes over the items: counting what is due under the cap,
 writing it, and draining it once it is sent. Each is proved against the one
 sequence Selection.Selected.
 */
module Publishing {
  import opened Types
  import opened Wire
  import opened Codec
  import opened Steps
  import opened Cursors
  import opened Ledgers
  import opened ItemStates
  import opened Items
  import opened Selection
  import opened Notifications

  ghost function ViewOf(item: MonitoredItem): (v: ItemView)
    requires item.Ring()
    reads item, item.queue
  {
    ItemView(item.inUse, item.id, item.subscriptionId, item.mode, item.config.clientHandle,
             item.pending, item.Contents(), item.triggered)
  }

  /** The slots are separate objects with separate queues. */
  ghost predicate Apart(items: seq<MonitoredItem>) {
    forall i, j :: 0 <= i < j < |items| ==> items[i] != items[j] && items[i].queue != items[j].queue
  }

  ghost function Queues(items: seq<MonitoredItem>): (r: set<array<Entry>>) {
    set i | 0 <= i < |items| :: items[i].queue
  }

  ghost predicate Rings(items: seq<MonitoredItem>)
    reads items
  {
    forall i :: 0 <= i < |items| ==> items[i].Ring()
  }

  ghost function ViewsOf(items: seq<MonitoredItem>): (vs: seq<ItemView>)
    requires Rings(items)
    reads items, set i | 0 <= i < |items| :: items[i].queue
    ensures |vs| == |items|
    ensures forall i :: 0 <= i < |items| ==> vs[i] == ViewOf(items[i])
  {
    if items == [] then []
    else
      assert Rings(items[..|items| - 1]);
      ViewsOf(items[..|items| - 1]) + [ViewOf(items[|items| - 1])]
  }

  // ----- Choosing

  /** monitored_item_reportable. */
  predicate IsReportable(item: MonitoredItem, sub: u32)
    reads item
  {
    item.inUse && item.subscriptionId == sub && (item.pending || item.count > 0) && item.mode == REPORTING
  }

  /** monitored_item_reports_by_trigger: the nested search over reporting items and their links. */
  method ReportsByTrigger(items: seq<MonitoredItem>, sub: u32, k: nat) returns (r: bool)
    requires Rings(items) && k < |items|
    ensures r == Released(ViewsOf(items), sub, k)
  {
    var linked := items[k];
    if !(linked.inUse && linked.subscriptionId == sub) || linked.mode != SAMPLING || linked.count == 0 {
      return false;
    }
    ghost var vs := ViewsOf(items);
    for i := 0 to |items|
      invariant forall t :: 0 <= t < i ==> !(Reportable(vs[t], sub) && vs[k].id in vs[t].triggered)
    {
      if IsReportable(items[i], sub) {
        for j := 0 to |items[i].triggered|
          invariant linked.id !in items[i].triggered[..j]
        {
          if items[i].triggered[j] == linked.id {
            assert Reportable(vs[i], sub) && vs[k].id in vs[i].triggered;
            return true;
          }
        }
      }
    }
    return false;
  }

  /** Which items report by themselves, for all slots at once. */
  method ReportingItems(items: seq<MonitoredItem>, sub: u32) returns (flags: seq<bool>)
    requires Rings(items)
    ensures flags == Reporters(ViewsOf(items), sub)
  {
    hide RingContents;
    ghost var vs := ViewsOf(items);
    flags := [];
    for i := 0 to |items|
      invariant |flags| == i && forall k :: 0 <= k < i ==> flags[k] == Reportable(vs[k], sub)
    {
      flags := flags + [IsReportable(items[i], sub)];
    }
  }

  /** Which items a trigger releases, for all slots at once. */
  method LinkedItems(items: seq<MonitoredItem>, sub: u32) returns (flags: seq<bool>)
    requires Rings(items)
    ensures flags == Linked(ViewsOf(items), sub)
  {
    hide Released, RingContents;
    ghost var vs := ViewsOf(items);
    flags := [];
    for i := 0 to |items|
      invariant |flags| == i && forall k :: 0 <= k < i ==> flags[k] == Released(vs, sub, k)
    {
      var released := ReportsByTrigger(items, sub, i);
      assert ViewsOf(items) == vs;
      flags := flags + [released];
    }
    assert ViewsOf(items) == vs;
  }

  // ----- Counting

  /** count_queue_entries: count up to the cap; false when the cap cut the queue off. */
  method CountQueueEntries(start: nat, cap: nat, queued: nat) returns (count: nat, all: bool)
    requires cap != 0 ==> start <= cap
    ensures count == Capped(start + queued, cap)
    ensures all <==> count == start + queued
  {
    count := start;
    for i := 0 to queued
      invariant count == start + i && (cap != 0 ==> count <= cap)
    {
      if cap != 0 && count >= cap {
        return count, false;
      }
      count := count + 1;
    }
    all := true;
  }

  /** One pass of the count, over the chosen items. */
  method CountChosen(items: seq<MonitoredItem>, chosen: seq<bool>, cap: nat, start: nat) returns (count: nat, all: bool)
    requires Rings(items) && |chosen| == |items| && (cap != 0 ==> start <= cap)
    ensures count == Capped(start + |Gather(ViewsOf(items), chosen, |items|)|, cap)
    ensures all <==> count == start + |Gather(ViewsOf(items), chosen, |items|)|
  {
    hide Gather, Block, RingContents, ViewsOf;
    ghost var vs := ViewsOf(items);
    count := start;
    GatherNone(vs, chosen);
    for i := 0 to |items|
      invariant count == start + |Gather(vs, chosen, i)| && (cap != 0 ==> count <= cap)
    {
      GatherStep(vs, chosen, i);
      GatherGrows(vs, chosen, i + 1, |items|);
      if chosen[i] {
        count, all := CountQueueEntries(count, cap, items[i].count);
        if !all {
          assert ViewsOf(items) == vs;
          return;
        }
      }
    }
    assert ViewsOf(items) == vs;
    all := true;
  }

  /** count_reportable_items: the number of entries this cycle delivers, and whether any are left over. */
  method CountReportable(items: seq<MonitoredItem>, sub: u32, cap: nat) returns (count: nat, more: bool)
    requires Rings(items)
    ensures count == Capped(|Selected(ViewsOf(items), sub)|, cap)
    ensures more <==> count < |Selected(ViewsOf(items), sub)|
  {
    hide Gather, Reporters, Linked, ViewsOf, ViewOf, Rings;
    ghost var vs := ViewsOf(items);
    var reporters := ReportingItems(items, sub);
    assert ViewsOf(items) == vs;
    var all;
    count, all := CountChosen(items, reporters, cap, 0);
    assert ViewsOf(items) == vs;
    if !all {
      return count, true;
    }
    var linked := LinkedItems(items, sub);
    assert ViewsOf(items) == vs;
    count, all := CountChosen(items, linked, cap, count);
    assert ViewsOf(items) == vs;
    more := !all;
  }

  lemma GatherNone(vs: seq<ItemView>, chosen: seq<bool>)
    requires |vs| == |chosen|
    ensures Gather(vs, chosen, 0) == []
  {
  }

  lemma GatherStep(vs: seq<ItemView>, chosen: seq<bool>, i: nat)
    requires i < |vs| == |chosen|
    ensures Gather(vs, chosen, i + 1) == Gather(vs, chosen, i) + Block(vs, chosen, i)
    ensures |Block(vs, chosen, i)| == if chosen[i] then |vs[i].queued| else 0
  {
  }

  lemma {:induction false} GatherGrows(vs: seq<ItemView>, chosen: seq<bool>, m: nat, n: nat)
    requires m <= n <= |vs| == |chosen|
    ensures |Gather(vs, chosen, m)| <= |Gather(vs, chosen, n)|
    decreases n - m
  {
    if m < n { GatherGrows(vs, chosen, m, n - 1); }
  }

  // ----- Writing

  /** A write of notices, good or not. */
  ghost predicate LaidNotices(p: Pen, q: Pen, ns: seq<Notice>, s: Status) {
    Laid(p, q, s, NoticesSteps(ns))
  }

  lemma NoticesBoth(p: Pen, q: Pen, r: Pen, a: seq<Notice>, b: seq<Notice>, s: Status)
    requires LaidNotices(p, q, a, Good) && LaidNotices(q, r, b, s)
    ensures LaidNotices(p, r, a + b, s)
  {
    hide Laid, NoticesSteps;
    NoticesStepsConcat(a, b);
    LaidThen(p, q, r, NoticesSteps(a), Good, NoticesSteps(b), s);
  }

  lemma NoticesNeither(p: Pen, q: Pen, a: seq<Notice>, b: seq<Notice>, s: Status)
    requires LaidNotices(p, q, a, s) && s != Good
    ensures LaidNotices(p, q, a + b, s)
  {
    hide Laid, NoticesSteps;
    NoticesStepsConcat(a, b);
    LaidThen(p, q, q, NoticesSteps(a), s, NoticesSteps(b), s);
  }

  lemma NoNotices(p: Pen)
    ensures LaidNotices(p, p, [], Good)
  {
    LaidNothing(p);
  }

  method WriteNotice(w: BinaryWriter, n: Notice) returns (s: Status)
    requires w.Valid()
    modifies w, w.buffer
    ensures w.Valid() && LaidNotices(old(w.View()), w.View(), [n], s)
  {
    hide Laid, LE, DataValueSteps, BinaryWriter.View;
    ghost var p := w.View();
    s := w.WriteU32(n.handle);
    ghost var q, t := w.View(), s;
    if s == Good { s := w.WriteDataValue(ValueOf(n.entry)); }
    LaidThen(p, q, w.View(), [Put(LE(n.handle, 4))], t, DataValueSteps(ValueOf(n.entry)), s);
    OneNotice(n);
  }

  lemma OneNotice(n: Notice)
    ensures NoticesSteps([n]) == NoticeSteps(n)
  {
    hide NoticeSteps;
    assert [n][..0] == [];
    assert NoticesSteps([n]) == NoticesSteps([n][..0]) + NoticeSteps([n][0]);
  }

  lemma RingAt(slots: seq<Entry>, head: nat, count: nat, size: nat, k: nat)
    requires head < size <= |slots| && count <= size && k < count
    ensures RingContents(slots, head, count, size)[k] == slots[Slot(head, k, size)]
  {
  }

  lemma QueueStep(p: Pen, mid: Pen, r: Pen, i: nat, handle: u32, q: seq<Entry>, k: nat, s: Status)
    requires k < |q|
    requires LaidNotices(p, mid, Tagged(i, handle, q[..k]), Good)
    requires LaidNotices(mid, r, [Notice(i, handle, q[k])], s)
    ensures LaidNotices(p, r, Tagged(i, handle, q[..k + 1]), s)
  {
    hide LaidNotices;
    assert q[..k + 1][..k] == q[..k];
    NoticesBoth(p, mid, r, Tagged(i, handle, q[..k]), [Notice(i, handle, q[k])], s);
  }

  lemma {:induction false} TaggedConcat(i: nat, handle: u32, a: seq<Entry>, b: seq<Entry>)
    ensures Tagged(i, handle, a + b) == Tagged(i, handle, a) + Tagged(i, handle, b)
  {
    if b == [] {
      assert a + b == a;
    } else {
      var m := |b| - 1;
      assert (a + b)[..|a + b| - 1] == a + b[..m];
      TaggedConcat(i, handle, a, b[..m]);
    }
  }

  lemma QueueCutShort(p: Pen, r: Pen, i: nat, handle: u32, q: seq<Entry>, k: nat, limit: nat, s: Status)
    requires k <= |q| && k <= limit && s != Good
    requires LaidNotices(p, r, Tagged(i, handle, q[..k]), s)
    ensures LaidNotices(p, r, Tagged(i, handle, Prefix(q, limit)), s)
  {
    hide LaidNotices, Tagged;
    var whole := Prefix(q, limit);
    TaggedConcat(i, handle, q[..k], whole[k..]);
    assert whole == q[..k] + whole[k..];
    NoticesNeither(p, r, Tagged(i, handle, q[..k]), Tagged(i, handle, whole[k..]), s);
  }

  /** One item's entries from the front of its ring, while the count lasts. */
  method WriteQueue(w: BinaryWriter, i: nat, item: MonitoredItem, limit: nat) returns (s: Status, left: nat)
    requires w.Valid() && item.Ring()
    modifies w, w.buffer
    ensures w.Valid()
    ensures LaidNotices(old(w.View()), w.View(), Tagged(i, item.config.clientHandle, Prefix(item.Contents(), limit)), s)
    ensures s == Good ==> left == limit - |Prefix(item.Contents(), limit)|
  {
    hide LaidNotices, RingContents, BinaryWriter.View, Tagged;
    var handle := item.config.clientHandle;
    var size := item.queueSize;
    if size == 0 { size := 1; } else if size > item.queue.Length { size := item.queue.Length; }
    var index := item.head;
    ghost var q := item.Contents();
    ghost var p := w.View();
    assert q[..0] == [] && Tagged(i, handle, q[..0]) == [];
    NoNotices(p);
    left := limit;
    s := Good;
    var k := 0;
    while k < item.count && left > 0
      invariant k <= item.count && left == limit - k && s == Good
      invariant w.Valid() && item.Contents() == q
      invariant index == Slot(item.head, k, size)
      invariant LaidNotices(p, w.View(), Tagged(i, handle, q[..k]), Good)
    {
      ghost var mid := w.View();
      var e := item.queue[index];
      assert e == q[k] by { RingAt(item.queue[..], item.head, item.count, size, k); }
      s := WriteNotice(w, Notice(i, handle, e));
      QueueStep(p, mid, w.View(), i, handle, q, k, s);
      if s != Good {
        QueueCutShort(p, w.View(), i, handle, q, k + 1, limit, s);
        return;
      }
      left := left - 1;
      index := QueueNext(index, size);
      k := k + 1;
    }
    assert Prefix(q, limit) == q[..k];
  }

  lemma {:induction false} GatherExtends(vs: seq<ItemView>, chosen: seq<bool>, m: nat, n: nat)
    requires m <= n <= |vs| == |chosen|
    ensures Gather(vs, chosen, m) <= Gather(vs, chosen, n)
    decreases n - m
  {
    hide Block;
    if m < n { GatherExtends(vs, chosen, m, n - 1); }
  }

  /** Writing the block of item i after the notices of the items before it. */
  lemma GatherLaid(p: Pen, mid: Pen, r: Pen, vs: seq<ItemView>, chosen: seq<bool>, i: nat, limit: nat, left: nat, s: Status)
    requires i < |vs| == |chosen| && chosen[i]
    requires left == limit - |Prefix(Gather(vs, chosen, i), limit)|
    requires LaidNotices(p, mid, Prefix(Gather(vs, chosen, i), limit), Good)
    requires LaidNotices(mid, r, Tagged(i, vs[i].handle, Prefix(vs[i].queued, left)), s)
    ensures LaidNotices(p, r, Prefix(Gather(vs, chosen, i + 1), limit), s)
    ensures |Prefix(Gather(vs, chosen, i + 1), limit)| == limit - left + |Prefix(vs[i].queued, left)|
  {
    hide LaidNotices, Tagged;
    var a, b := Gather(vs, chosen, i), Block(vs, chosen, i);
    PrefixConcat(a, b, limit);
    PrefixTagged(i, vs[i].handle, vs[i].queued, left);
    assert Prefix(b, limit - |a|) == Prefix(b, left);
    NoticesBoth(p, mid, r, Prefix(a, limit), Prefix(b, left), s);
  }

  lemma PrefixCutShort(p: Pen, r: Pen, a: seq<Notice>, b: seq<Notice>, limit: int, s: Status)
    requires a <= b && s != Good && LaidNotices(p, r, Prefix(a, limit), s)
    ensures LaidNotices(p, r, Prefix(b, limit), s)
  {
    hide LaidNotices;
    var c, d := Prefix(a, limit), Prefix(b, limit);
    assert d == c + d[|c|..];
    NoticesNeither(p, r, c, d[|c|..], s);
  }

  /** One pass of the writing, over the chosen items. */
  method WriteChosen(w: BinaryWriter, items: seq<MonitoredItem>, chosen: seq<bool>, limit: nat) returns (s: Status, left: nat)
    requires w.Valid() && Rings(items) && |chosen| == |items|
    modifies w, w.buffer
    ensures w.Valid()
    ensures LaidNotices(old(w.View()), w.View(), Prefix(Gather(ViewsOf(items), chosen, |items|), limit), s)
    ensures s == Good ==> left == limit - |Prefix(Gather(ViewsOf(items), chosen, |items|), limit)|
  {
    hide LaidNotices, RingContents, ViewsOf, BinaryWriter.View, Tagged, Gather, Prefix;
    ghost var vs := ViewsOf(items);
    ghost var p := w.View();
    NoNotices(p);
    GatherNone(vs, chosen);
    s, left := Good, limit;
    for i := 0 to |items|
      invariant w.Valid() && s == Good && ViewsOf(items) == vs
      invariant LaidNotices(p, w.View(), Prefix(Gather(vs, chosen, i), limit), Good)
      invariant left == limit - |Prefix(Gather(vs, chosen, i), limit)|
    {
      GatherStep(vs, chosen, i);
      if chosen[i] {
        ghost var mid, before := w.View(), left;
        s, left := WriteQueue(w, i, items[i], left);
        assert ViewsOf(items) == vs;
        GatherLaid(p, mid, w.View(), vs, chosen, i, limit, before, s);
        if s != Good {
          GatherExtends(vs, chosen, i + 1, |items|);
          PrefixCutShort(p, w.View(), Gather(vs, chosen, i + 1), Gather(vs, chosen, |items|), limit, s);
          return;
        }
      } else {
        assert Gather(vs, chosen, i + 1) == Gather(vs, chosen, i);
      }
    }
  }

  /** Everything this cycle delivers: reporting items first, then those a trigger releases. */
  method WriteNotices(w: BinaryWriter, items: seq<MonitoredItem>, sub: u32, limit: nat) returns (s: Status)
    requires w.Valid() && Rings(items)
    modifies w, w.buffer
    ensures w.Valid()
    ensures LaidNotices(old(w.View()), w.View(), Prefix(Selected(ViewsOf(items), sub), limit), s)
  {
    hide LaidNotices, ViewsOf, ViewOf, Rings, BinaryWriter.View, Gather, Prefix, Reporters, Linked;
    ghost var vs := ViewsOf(items);
    ghost var p := w.View();
    var reporters := ReportingItems(items, sub);
    assert ViewsOf(items) == vs && w.View() == p;
    var left;
    s, left := WriteChosen(w, items, reporters, limit);
    ghost var mid := w.View();
    ghost var a, b := Reporting(vs, sub), Triggered(vs, sub);
    assert ViewsOf(items) == vs;
    PrefixConcat(a, b, limit);
    if s != Good {
      PrefixCutShort(p, mid, a, a + b, limit, s);
      return;
    }
    var linked := LinkedItems(items, sub);
    assert ViewsOf(items) == vs && w.View() == mid;
    s, left := WriteChosen(w, items, linked, left);
    assert ViewsOf(items) == vs;
    assert Prefix(b, limit - |a|) == Prefix(b, limit - |Prefix(a, limit)|) by { PrefixBeyond(a, b, limit); }
    NoticesBoth(p, mid, w.View(), Prefix(a, limit), Prefix(b, limit - |a|), s);
  }

  lemma PrefixBeyond(a: seq<Notice>, b: seq<Notice>, limit: nat)
    ensures Prefix(b, limit - |a|) == Prefix(b, limit - |Prefix(a, limit)|)
  {
  }

  method WriteDataChangeBody(w: BinaryWriter, items: seq<MonitoredItem>, sub: u32, count: i32) returns (s: Status)
    requires w.Valid() && Rings(items) && 0 <= count <= |Selected(ViewsOf(items), sub)|
    modifies w, w.buffer
    ensures w.Valid() && Laid(old(w.View()), w.View(), s, BodySteps(Prefix(Selected(ViewsOf(items), sub), count)))
  {
    hide Laid, NoticesSteps, ViewsOf, ViewOf, Rings, BinaryWriter.View, Selected, EncI32;
    ghost var vs := ViewsOf(items);
    ghost var ns := Prefix(Selected(vs, sub), count);
    ghost var p := w.View();
    s := w.WriteI32(count);
    assert ViewsOf(items) == vs;
    ghost var q, t := w.View(), s;
    if s == Good {
      s := WriteNotices(w, items, sub, count);
      assert ViewsOf(items) == vs;
    }
    LaidThen(p, q, w.View(), [Put(EncI32(count))], t, NoticesSteps(ns), s);
    q, t := w.View(), s;
    if s == Good {
      s := w.WriteI32(0);
      assert ViewsOf(items) == vs;
    }
    LaidThen(p, q, w.View(), [Put(EncI32(count))] + NoticesSteps(ns), t, [Put(EncI32(0))], s);
    RegroupSteps([Put(EncI32(count))], NoticesSteps(ns), [Put(EncI32(0))]);
  }

  lemma RegroupSteps(a: seq<Step>, b: seq<Step>, c: seq<Step>)
    ensures (a + b) + c == a + (b + c)
  {
  }

  /** Overwriting four bytes between what comes before and after them. */
  function Patched(s: seq<byte>, at: nat, v: u32): (r: seq<byte>)
    requires at + 4 <= |s|
    ensures |r| == |s|
  {
    s[..at] + LE(v, 4) + s[at + 4..]
  }

  lemma PatchedBetween(a: seq<byte>, v: u32, old4: seq<byte>, b: seq<byte>)
    requires |old4| == 4
    ensures Patched(a + old4 + b, |a|, v) == a + LE(v, 4) + b
  {
    hide LE;
    assert (a + old4 + b)[..|a|] == a && (a + old4 + b)[|a| + 4..] == b;
  }

  lemma Flatten(p: seq<byte>, a: seq<byte>, b: seq<byte>, c: seq<byte>)
    ensures p + (a + b + c) == (p + a) + b + c
  {
  }

  lemma Length32(v: i32)
    ensures |EncI32(v)| == 4
    ensures v >= 0 ==> EncI32(v) == LE(v, 4)
  {
    hide LE;
  }

  method PatchLength(w: BinaryWriter, at: nat, length: u32)
    requires w.Valid() && at + 4 <= w.position
    modifies w.buffer
    ensures var p := old(w.View());
      at + 4 <= |p.written| && w.View() == Pen(p.status, Patched(p.written, at, length), p.capacity)
  {
    hide LE;
    ghost var all := w.buffer[..];
    w.PutU32(length, at);
    CutPatched(all, at, LE(length, 4), w.position);
    assert w.buffer[..w.position] == w.buffer[..][..w.position] && all[..w.position] == old(w.buffer[..w.position]);
  }

  lemma CutPatched(all: seq<byte>, at: nat, four: seq<byte>, n: nat)
    requires |four| == 4 && at + 4 <= n <= |all|
    ensures (all[..at] + four + all[at + 4..])[..n] == all[..n][..at] + four + all[..n][at + 4..]
  {
  }

  method WriteDataChangeHeader(w: BinaryWriter) returns (s: Status)
    requires w.Valid()
    modifies w, w.buffer
    ensures w.Valid() && Laid(old(w.View()), w.View(), s, HeaderSteps())
  {
    hide Laid, NodeIdSteps;
    ghost var p := w.View();
    s := w.WriteNodeId(Numeric(0, DATA_CHANGE_NOTIFICATION));
    ghost var q, t := w.View(), s;
    if s == Good { s := w.WriteByte(1); }
    LaidThen(p, q, w.View(), NodeIdSteps(Numeric(0, DATA_CHANGE_NOTIFICATION)), t, [Put([1])], s);
  }

  /** Header, a placeholder for the length, and the body. */
  method WriteUnpatched(w: BinaryWriter, items: seq<MonitoredItem>, sub: u32, count: i32)
    returns (s: Status, lengthAt: nat, bodyAt: nat)
    requires w.Valid() && Rings(items) && 0 <= count <= |Selected(ViewsOf(items), sub)|
    modifies w, w.buffer
    ensures w.Valid() && Laid(old(w.View()), w.View(), s, DataChangeSteps(Prefix(Selected(ViewsOf(items), sub), count)))
    ensures s == Good ==> lengthAt == old(w.position) + |DataChangeHeader()| && bodyAt == lengthAt + 4
  {
    hide Laid, ViewsOf, ViewOf, Rings, BinaryWriter.View, Selected, EncI32, HeaderSteps, BodySteps, DataChangeHeader, Prefix;
    ghost var vs := ViewsOf(items);
    ghost var ns := Prefix(Selected(vs, sub), count);
    ghost var p := w.View();
    s := WriteDataChangeHeader(w);
    lengthAt := w.position;
    ghost var q, t := w.View(), s;
    if s == Good {
      HeaderAdvances(p, q);
      s := w.WriteI32(0);
    }
    LaidThen(p, q, w.View(), HeaderSteps(), t, [Put(EncI32(0))], s);
    bodyAt := w.position;
    if s == Good { PutAdvances(q, w.View(), EncI32(0)); Length32(0); }
    q, t := w.View(), s;
    assert ViewsOf(items) == vs;
    if s == Good {
      s := WriteDataChangeBody(w, items, sub, count);
      assert ViewsOf(items) == vs;
    }
    LaidThen(p, q, w.View(), HeaderSteps() + [Put(EncI32(0))], t, BodySteps(ns), s);
  }

  lemma PutAdvances(p: Pen, q: Pen, b: seq<byte>)
    requires Laid(p, q, Good, [Put(b)])
    ensures |q.written| == |p.written| + |b| && q.status == Good
  {
    LayOne(p, Put(b));
  }

  lemma HeaderAdvances(p: Pen, q: Pen)
    requires Laid(p, q, Good, HeaderSteps()) && |p.written| <= p.capacity
    ensures |q.written| == |p.written| + |DataChangeHeader()|
  {
    hide DataChangeHeader;
    HeaderSpelt();
    assert p.status == Good by { StandsIfGood(p, HeaderSteps()); }
    hide HeaderSteps;
    LayClean(p, HeaderSteps());
  }

  /** A primitive succeeds only on a writer in good standing. */
  lemma StandsIfGood(p: Pen, steps: seq<Step>)
    requires steps != [] && steps[0].Put? && Lay(p, steps).1 == Good
    ensures p.status == Good
  {
  }

  /**
   What writing a data change does: the steps as far as they go; if they all go,
   the true length over the placeholder, unless the body is too long for one.
   */
  ghost predicate Changed(p: Pen, q: Pen, ns: seq<Notice>, s: Status)
    requires |ns| < 0x8000_0000
  {
    var laid := Lay(p, DataChangeSteps(ns));
    if laid.1 != Good then (q, s) == laid
    else
      AllEncodable(ns)
      && if |DataChangeBody(ns)| < 0x8000_0000 then s == Good && q == p.(written := p.written + DataChange(ns))
         else s == BadResponseTooLarge && q == laid.0
  }

  lemma ChangeLaid(p: Pen, ns: seq<Notice>)
    requires |ns| < 0x8000_0000 && |p.written| <= p.capacity && Lay(p, DataChangeSteps(ns)).1 == Good
    ensures AllEncodable(ns) && Lay(p, DataChangeSteps(ns)).0 == p.(written := p.written + Unpatched(ns))
  {
    hide BodySteps, Unpatched, AllEncodable;
    var steps := DataChangeSteps(ns);
    assert steps[0].Put?;
    StandsIfGood(p, steps);
    hide DataChangeSteps, Lay, Lead, Reason;
    DataChangeSpelt(ns);
    SpellHonest(steps, AllEncodable(ns), if AllEncodable(ns) then Unpatched(ns) else []);
    LayStatus(p, steps);
    CleanReason(steps);
    LayWritten(p, steps);
  }

  /** Overwriting the length placeholder with the length of what follows it. */
  lemma Backpatched(p: Pen, q: Pen, ns: seq<Notice>)
    requires |ns| < 0x8000_0000 && AllEncodable(ns) && |DataChangeBody(ns)| < 0x8000_0000
    requires q == p.(written := p.written + Unpatched(ns))
    ensures var at := |p.written| + |DataChangeHeader()|;
      at + 4 <= |q.written| && Patched(q.written, at, |DataChangeBody(ns)|) == p.written + DataChange(ns)
  {
    hide LE, EncI32, Patched, DataChangeBody, DataChangeHeader, AllEncodable;
    var head, body := DataChangeHeader(), DataChangeBody(ns);
    Length32(0);
    Length32(|body|);
    Flatten(p.written, head, EncI32(0), body);
    Flatten(p.written, head, EncI32(|body|), body);
    PatchedBetween(p.written + head, |body|, EncI32(0), body);
  }

  /** write_data_change_notification. The length is written last, over its placeholder. */
  method WriteDataChange(w: BinaryWriter, items: seq<MonitoredItem>, sub: u32, count: i32) returns (s: Status)
    requires w.Valid() && Rings(items) && 0 <= count <= |Selected(ViewsOf(items), sub)|
    modifies w, w.buffer
    ensures w.Valid() && Changed(old(w.View()), w.View(), Prefix(Selected(ViewsOf(items), sub), count), s)
  {
    hide ViewsOf, ViewOf, Rings, BinaryWriter.View, Selected, DataChangeBody, EncI32, AllEncodable, DataChangeHeader, Prefix, DataChangeSteps, Lay, DataChange;
    ghost var vs := ViewsOf(items);
    ghost var ns := Prefix(Selected(vs, sub), count);
    ghost var p := w.View();
    var lengthAt, bodyAt;
    s, lengthAt, bodyAt := WriteUnpatched(w, items, sub, count);
    assert ViewsOf(items) == vs;
    if s != Good {
      return;
    }
    ghost var q := w.View();
    ChangeLaid(p, ns);
    Length32(0);
    var length := w.position - bodyAt;
    assert length == |DataChangeBody(ns)|;
    if length > 0x7FFF_FFFF {
      return BadResponseTooLarge;
    }
    Backpatched(p, q, ns);
    PatchLength(w, lengthAt, length);
    assert ViewsOf(items) == vs;
  }
}
