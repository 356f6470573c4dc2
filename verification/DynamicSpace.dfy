/**
 The dynamic address space of the NodeManagement services (section 5.8 of
 OPC 10000-4): nodes and references in fixed arrays, their strings in storage
 that belongs to the slot, deletion by moving the last entry into the gap.
 */
module DynamicSpace {
  import opened Types
  import opened NodeIndex

  const BROWSE_NAME_LENGTH: nat := 64
  const DISPLAY_NAME_LENGTH: nat := 64
  const STRING_NODEID_LENGTH: nat := 64
  const REFERENCE_NODEID_LENGTH: nat := 64

  // ----- Strings that point into storage

  /** A length, and a data pointer to the start of some slot of the field's storage. */
  datatype Text = NoText | Text(length: nat, slot: nat)

  /** The string lies in the storage of this slot. */
  predicate Owns(t: Text, slot: nat, width: nat) {
    t.Text? ==> t.slot == slot && t.length <= width
  }

  /** The string read through its pointer. */
  function Deref(t: Text, bytes: seq<byte>): (s: UaString)
    requires t.Text? ==> t.length <= |bytes|
  {
    if t.NoText? then Null else Bytes(bytes[..t.length])
  }

  predicate FitsIn(s: UaString, width: nat) {
    s.Bytes? ==> |s.bytes| <= width
  }

  /** memcpy to the start of a buffer. */
  function Overlay(buffer: seq<byte>, bytes: seq<byte>): (r: seq<byte>)
    requires |bytes| <= |buffer|
    ensures |r| == |buffer| && r[..|bytes|] == bytes
  {
    bytes + buffer[|bytes|..]
  }

  /** mu_dynamic_string_copy: what the buffer becomes, and the string that points to it. */
  function Stored(buffer: seq<byte>, s: UaString): (r: seq<byte>)
    requires FitsIn(s, |buffer|)
    ensures |r| == |buffer|
  {
    if s.Null? then buffer else Overlay(buffer, s.bytes)
  }

  function Pointing(s: UaString, slot: nat): (t: Text) {
    if s.Null? then NoText else Text(|s.bytes|, slot)
  }

  lemma StoredReads(buffer: seq<byte>, s: UaString, slot: nat)
    requires FitsIn(s, |buffer|)
    ensures Owns(Pointing(s, slot), slot, |buffer|) && Deref(Pointing(s, slot), Stored(buffer, s)) == s
  {
  }

  /** A move copies as many bytes as the string is long, if it has any. */
  function MovedBytes(to: seq<byte>, from: seq<byte>, t: Text): (r: seq<byte>)
    requires t.Text? ==> t.length <= |to| && t.length <= |from|
    ensures |r| == |to|
  {
    if t.NoText? then to else Overlay(to, from[..t.length])
  }

  /** The pointer that comes with the copied record is set to the slot's own storage. */
  function Repointed(t: Text, slot: nat): (r: Text) {
    if t.NoText? then t else t.(slot := slot)
  }

  lemma MovedReads(to: seq<byte>, from: seq<byte>, t: Text, slot: nat)
    requires t.Text? ==> t.length <= |to| && t.length <= |from|
    ensures Owns(Repointed(t, slot), slot, |to|) && Deref(Repointed(t, slot), MovedBytes(to, from, t)) == Deref(t, from)
  {
  }

  // ----- NodeIds that may hold a string

  datatype IdRecord = Plain(id: NodeId) | Named(ns: u16, name: Text)

  predicate OwnsId(r: IdRecord, slot: nat, width: nat) {
    if r.Plain? then !r.id.StringId? else Owns(r.name, slot, width)
  }

  function DerefId(r: IdRecord, bytes: seq<byte>): (n: NodeId)
    requires r.Named? && r.name.Text? ==> r.name.length <= |bytes|
  {
    if r.Plain? then r.id else StringId(r.ns, Deref(r.name, bytes))
  }

  predicate IdFitsIn(n: NodeId, width: nat) {
    n.StringId? ==> FitsIn(n.name, width)
  }

  /** mu_dynamic_nodeid_copy. */
  function StoredId(buffer: seq<byte>, n: NodeId): (r: seq<byte>)
    requires IdFitsIn(n, |buffer|)
    ensures |r| == |buffer|
  {
    if n.StringId? then Stored(buffer, n.name) else buffer
  }

  function PointingId(n: NodeId, slot: nat): (r: IdRecord) {
    if n.StringId? then Named(n.ns, Pointing(n.name, slot)) else Plain(n)
  }

  lemma StoredIdReads(buffer: seq<byte>, n: NodeId, slot: nat)
    requires IdFitsIn(n, |buffer|)
    ensures OwnsId(PointingId(n, slot), slot, |buffer|) && DerefId(PointingId(n, slot), StoredId(buffer, n)) == n
  {
    if n.StringId? { StoredReads(buffer, n.name, slot); }
  }

  // ----- Deleting by moving the last entry into the gap

  function Swapped<T>(s: seq<T>, j: nat): (r: seq<T>)
    requires j < |s|
    ensures |r| == |s| - 1
  {
    var last := |s| - 1;
    if j == last then s[..last] else s[..last][j := s[last]]
  }

  lemma SwappedLosesOne<T>(s: seq<T>, j: nat)
    requires j < |s|
    ensures multiset(Swapped(s, j)) == multiset(s) - multiset{s[j]}
  {
    var last := |s| - 1;
    assert s == s[..last] + [s[last]];
    if j != last {
      var front := s[..last];
      assert front == front[..j] + ([front[j]] + front[j + 1..]);
      assert Swapped(s, j) == front[..j] + ([s[last]] + front[j + 1..]);
    }
  }

  // ----- Nodes

  /** What a node is to a client. */
  datatype Node = Node(id: NodeId, nodeClass: u32, browse: UaString, display: UaString)

  datatype NodeRecord = NodeRecord(id: IdRecord, nodeClass: u32, browse: Text, display: Text)

  /** A slot: the record, and the storage that belongs to it. */
  datatype NodeSlot = NodeSlot(record: NodeRecord, id: seq<byte>, browse: seq<byte>, display: seq<byte>)

  predicate WideNode(s: NodeSlot) {
    |s.id| == STRING_NODEID_LENGTH && |s.browse| == BROWSE_NAME_LENGTH && |s.display| == DISPLAY_NAME_LENGTH
  }

  /** Every string of the record lies in the slot's own storage. */
  predicate OwnsNode(s: NodeSlot, i: nat) {
    && WideNode(s) && OwnsId(s.record.id, i, STRING_NODEID_LENGTH)
    && Owns(s.record.browse, i, BROWSE_NAME_LENGTH) && Owns(s.record.display, i, DISPLAY_NAME_LENGTH)
  }

  /** Every pointer of the record leads to the storage of some slot, and the string ends within it. */
  predicate SoundNode(r: NodeRecord, slots: seq<NodeSlot>) {
    && (r.id.Named? && r.id.name.Text? ==> r.id.name.slot < |slots| && r.id.name.length <= |slots[r.id.name.slot].id|)
    && (r.browse.Text? ==> r.browse.slot < |slots| && r.browse.length <= |slots[r.browse.slot].browse|)
    && (r.display.Text? ==> r.display.slot < |slots| && r.display.length <= |slots[r.display.slot].display|)
  }

  /** The node of slot i, read through its pointers, wherever they lead. */
  function NodeAt(slots: seq<NodeSlot>, i: nat): (n: Node)
    requires i < |slots| && SoundNode(slots[i].record, slots)
  {
    var r := slots[i].record;
    Node(if r.id.Named? && r.id.name.Text? then DerefId(r.id, slots[r.id.name.slot].id) else DerefId(r.id, []),
         r.nodeClass,
         if r.browse.Text? then Deref(r.browse, slots[r.browse.slot].browse) else Null,
         if r.display.Text? then Deref(r.display, slots[r.display.slot].display) else Null)
  }

  /** Ownership makes that depend on the slot alone. */
  lemma NodeIsLocal(a: seq<NodeSlot>, b: seq<NodeSlot>, i: nat)
    requires i < |a| && i < |b| && a[i] == b[i] && OwnsNode(a[i], i)
    ensures SoundNode(a[i].record, a) && SoundNode(b[i].record, b) && NodeAt(a, i) == NodeAt(b, i)
  {
  }

  predicate NodeFits(n: Node) {
    IdFitsIn(n.id, STRING_NODEID_LENGTH) && FitsIn(n.browse, BROWSE_NAME_LENGTH) && FitsIn(n.display, DISPLAY_NAME_LENGTH)
  }

  /** The slot after a node's strings were copied into its storage. */
  function HoldingNode(s: NodeSlot, i: nat, n: Node): (r: NodeSlot)
    requires WideNode(s) && NodeFits(n)
  {
    NodeSlot(NodeRecord(PointingId(n.id, i), n.nodeClass, Pointing(n.browse, i), Pointing(n.display, i)),
             StoredId(s.id, n.id), Stored(s.browse, n.browse), Stored(s.display, n.display))
  }

  lemma HoldingReads(slots: seq<NodeSlot>, i: nat, n: Node)
    requires i < |slots| && WideNode(slots[i]) && NodeFits(n)
    ensures var after := slots[i := HoldingNode(slots[i], i, n)];
      OwnsNode(after[i], i) && SoundNode(after[i].record, after) && NodeAt(after, i) == n
  {
    StoredIdReads(slots[i].id, n.id, i);
    StoredReads(slots[i].browse, n.browse, i);
    StoredReads(slots[i].display, n.display, i);
  }

  // ----- Moving a node from slot k to slot j, step by step

  /** The record as it is in slot k, pointers to the storage of slot k included. */
  function RecordMoved(s: NodeSlot, from: NodeSlot): (r: NodeSlot) {
    s.(record := from.record)
  }

  function IdMoved(s: NodeSlot, from: NodeSlot, j: nat): (r: NodeSlot)
    requires s.record.id.Named? && s.record.id.name.Text? ==> s.record.id.name.length <= |s.id| && s.record.id.name.length <= |from.id|
  {
    if s.record.id.Plain? then s
    else s.(id := MovedBytes(s.id, from.id, s.record.id.name),
            record := s.record.(id := s.record.id.(name := Repointed(s.record.id.name, j))))
  }

  function BrowseMoved(s: NodeSlot, from: NodeSlot, j: nat): (r: NodeSlot)
    requires s.record.browse.Text? ==> s.record.browse.length <= |s.browse| && s.record.browse.length <= |from.browse|
  {
    s.(browse := MovedBytes(s.browse, from.browse, s.record.browse), record := s.record.(browse := Repointed(s.record.browse, j)))
  }

  function DisplayMoved(s: NodeSlot, from: NodeSlot, j: nat): (r: NodeSlot)
    requires s.record.display.Text? ==> s.record.display.length <= |s.display| && s.record.display.length <= |from.display|
  {
    s.(display := MovedBytes(s.display, from.display, s.record.display), record := s.record.(display := Repointed(s.record.display, j)))
  }

  /** On the way: id, browse name and display name lie in the storage of the slots given, and slot j reads as the node. */
  ghost predicate Underway(slots: seq<NodeSlot>, j: nat, id: nat, browse: nat, display: nat, n: Node) {
    && j < |slots| && id < |slots| && browse < |slots| && display < |slots|
    && (forall i :: 0 <= i < |slots| ==> WideNode(slots[i]))
    && OwnsId(slots[j].record.id, id, STRING_NODEID_LENGTH) && Owns(slots[j].record.browse, browse, BROWSE_NAME_LENGTH)
    && Owns(slots[j].record.display, display, DISPLAY_NAME_LENGTH)
    && SoundNode(slots[j].record, slots) && NodeAt(slots, j) == n
  }

  lemma RecordStep(slots: seq<NodeSlot>, j: nat, k: nat)
    requires j < |slots| && k < |slots| && j != k && OwnsNode(slots[k], k) && forall i :: 0 <= i < |slots| ==> WideNode(slots[i])
    ensures SoundNode(slots[k].record, slots)
    ensures Underway(slots[j := RecordMoved(slots[j], slots[k])], j, k, k, k, NodeAt(slots, k))
  {
  }

  lemma IdStep(slots: seq<NodeSlot>, j: nat, k: nat, n: Node)
    requires j != k && Underway(slots, j, k, k, k, n)
    ensures Underway(slots[j := IdMoved(slots[j], slots[k], j)], j, j, k, k, n)
  {
    var s := slots[j];
    if s.record.id.Named? { MovedReads(s.id, slots[k].id, s.record.id.name, j); }
  }

  lemma BrowseStep(slots: seq<NodeSlot>, j: nat, k: nat, n: Node)
    requires j != k && Underway(slots, j, j, k, k, n)
    ensures Underway(slots[j := BrowseMoved(slots[j], slots[k], j)], j, j, j, k, n)
  {
    var s := slots[j];
    MovedReads(s.browse, slots[k].browse, s.record.browse, j);
  }

  lemma DisplayStep(slots: seq<NodeSlot>, j: nat, k: nat, n: Node)
    requires j != k && Underway(slots, j, j, j, k, n)
    ensures Underway(slots[j := DisplayMoved(slots[j], slots[k], j)], j, j, j, j, n)
  {
    var s := slots[j];
    MovedReads(s.display, slots[k].display, s.record.display, j);
  }

  predicate OwnAllNodes(slots: seq<NodeSlot>, n: nat) {
    n <= |slots| && forall i :: 0 <= i < n ==> OwnsNode(slots[i], i)
  }

  lemma OwnIsSound(slots: seq<NodeSlot>, i: nat)
    requires i < |slots| && OwnsNode(slots[i], i)
    ensures SoundNode(slots[i].record, slots)
  {
  }

  /** The nodes of the first n slots. */
  function NodesOf(slots: seq<NodeSlot>, n: nat): (r: seq<Node>)
    requires OwnAllNodes(slots, n)
    ensures |r| == n && forall i :: 0 <= i < n ==> SoundNode(slots[i].record, slots) && r[i] == NodeAt(slots, i)
  {
    seq(n, i requires 0 <= i < n => NodeAt(slots, i))
  }

  lemma NodesAreLocal(a: seq<NodeSlot>, b: seq<NodeSlot>, n: nat)
    requires OwnAllNodes(a, n) && n <= |b| && forall i :: 0 <= i < n ==> a[i] == b[i]
    ensures OwnAllNodes(b, n) && NodesOf(a, n) == NodesOf(b, n)
  {
    hide NodeAt, OwnsNode;
    forall i | 0 <= i < n ensures SoundNode(a[i].record, a) && SoundNode(b[i].record, b) && NodeAt(a, i) == NodeAt(b, i) { NodeIsLocal(a, b, i); }
  }

  class NodeTable {
    const slots: array<NodeSlot>
    var count: nat

    ghost predicate Valid()
      reads this, slots
    {
      OwnAllNodes(slots[..], count) && forall i :: 0 <= i < slots.Length ==> WideNode(slots[i])
    }

    ghost function Contents(): (r: seq<Node>)
      requires Valid()
      reads this, slots
    {
      NodesOf(slots[..], count)
    }

    constructor (capacity: nat)
      ensures Valid() && fresh(slots) && slots.Length == capacity && Contents() == []
    {
      slots := new NodeSlot[capacity](_ =>
        NodeSlot(NodeRecord(Plain(Numeric(0, 0)), 0, NoText, NoText),
                 seq(STRING_NODEID_LENGTH, _ => 0), seq(BROWSE_NAME_LENGTH, _ => 0), seq(DISPLAY_NAME_LENGTH, _ => 0)));
      count := 0;
    }

    /** mu_dynamic_string_nodeid_copy. */
    method CopyId(i: nat, n: NodeId)
      requires i < slots.Length && WideNode(slots[i]) && IdFitsIn(n, STRING_NODEID_LENGTH)
      modifies slots
      ensures slots[..] == old(slots[..])[i := old(slots[i]).(record := old(slots[i]).record.(id := PointingId(n, i)), id := StoredId(old(slots[i]).id, n))]
    {
      slots[i] := slots[i].(record := slots[i].record.(id := PointingId(n, i)), id := StoredId(slots[i].id, n));
    }

    /** mu_dynamic_browse_name_copy. */
    method CopyBrowse(i: nat, s: UaString)
      requires i < slots.Length && WideNode(slots[i]) && FitsIn(s, BROWSE_NAME_LENGTH)
      modifies slots
      ensures slots[..] == old(slots[..])[i := old(slots[i]).(record := old(slots[i]).record.(browse := Pointing(s, i)), browse := Stored(old(slots[i]).browse, s))]
    {
      slots[i] := slots[i].(record := slots[i].record.(browse := Pointing(s, i)), browse := Stored(slots[i].browse, s));
    }

    /** mu_dynamic_display_name_copy. */
    method CopyDisplay(i: nat, s: UaString)
      requires i < slots.Length && WideNode(slots[i]) && FitsIn(s, DISPLAY_NAME_LENGTH)
      modifies slots
      ensures slots[..] == old(slots[..])[i := old(slots[i]).(record := old(slots[i]).record.(display := Pointing(s, i)), display := Stored(old(slots[i]).display, s))]
    {
      slots[i] := slots[i].(record := slots[i].record.(display := Pointing(s, i)), display := Stored(slots[i].display, s));
    }

    /** The copies of AddNodes into slot i. */
    method Store(i: nat, n: Node)
      requires i < slots.Length && WideNode(slots[i]) && NodeFits(n)
      modifies slots
      ensures slots[..] == old(slots[..])[i := HoldingNode(old(slots[i]), i, n)]
    {
      ghost var was := slots[..];
      CopyId(i, n.id);
      slots[i] := slots[i].(record := slots[i].record.(nodeClass := n.nodeClass));
      assert WideNode(slots[i]);
      CopyBrowse(i, n.browse);
      CopyDisplay(i, n.display);
      assert slots[..] == was[i := HoldingNode(was[i], i, n)];
    }

    /** The memcpy of the string id, then its pointer. */
    method MoveId(j: nat, k: nat)
      requires j < slots.Length && k < slots.Length && j != k && WideNode(slots[j]) && WideNode(slots[k])
      requires slots[j].record.id.Named? && slots[j].record.id.name.Text? ==> slots[j].record.id.name.length <= STRING_NODEID_LENGTH
      modifies slots
      ensures slots[..] == old(slots[..])[j := IdMoved(old(slots[j]), old(slots[k]), j)]
    {
      var id := slots[j].record.id;
      if id.Named? {
        if id.name.Text? {
          slots[j] := slots[j].(id := Overlay(slots[j].id, slots[k].id[..id.name.length]));
          slots[j] := slots[j].(record := slots[j].record.(id := id.(name := id.name.(slot := j))));
        }
      }
      assert slots[j] == IdMoved(old(slots[j]), old(slots[k]), j);
    }

    method MoveBrowse(j: nat, k: nat)
      requires j < slots.Length && k < slots.Length && j != k && WideNode(slots[j]) && WideNode(slots[k])
      requires slots[j].record.browse.Text? ==> slots[j].record.browse.length <= BROWSE_NAME_LENGTH
      modifies slots
      ensures slots[..] == old(slots[..])[j := BrowseMoved(old(slots[j]), old(slots[k]), j)]
    {
      var t := slots[j].record.browse;
      if t.Text? {
        slots[j] := slots[j].(browse := Overlay(slots[j].browse, slots[k].browse[..t.length]));
        slots[j] := slots[j].(record := slots[j].record.(browse := t.(slot := j)));
      }
      assert slots[j] == BrowseMoved(old(slots[j]), old(slots[k]), j);
    }

    method MoveDisplay(j: nat, k: nat)
      requires j < slots.Length && k < slots.Length && j != k && WideNode(slots[j]) && WideNode(slots[k])
      requires slots[j].record.display.Text? ==> slots[j].record.display.length <= DISPLAY_NAME_LENGTH
      modifies slots
      ensures slots[..] == old(slots[..])[j := DisplayMoved(old(slots[j]), old(slots[k]), j)]
    {
      var t := slots[j].record.display;
      if t.Text? {
        slots[j] := slots[j].(display := Overlay(slots[j].display, slots[k].display[..t.length]));
        slots[j] := slots[j].(record := slots[j].record.(display := t.(slot := j)));
      }
      assert slots[j] == DisplayMoved(old(slots[j]), old(slots[k]), j);
    }

    /**
     mu_dynamic_node_move: the record first, pointers and all, then one string
     after the other. Until a string's pointer is set it is read in slot k.
     */
    method Move(j: nat, k: nat)
      requires j < slots.Length && k < slots.Length && j != k && OwnsNode(slots[k], k)
      requires forall i :: 0 <= i < slots.Length ==> WideNode(slots[i])
      modifies slots
      ensures OwnsNode(slots[j], j) && SoundNode(slots[j].record, slots[..])
      ensures SoundNode(old(slots[k]).record, old(slots[..])) && NodeAt(slots[..], j) == NodeAt(old(slots[..]), k)
      ensures forall i :: 0 <= i < slots.Length && i != j ==> slots[i] == old(slots[i])
    {
      hide NodeAt, IdMoved, BrowseMoved, DisplayMoved;
      ghost var was := slots[..];
      RecordStep(was, j, k);
      ghost var n := NodeAt(was, k);
      slots[j] := slots[j].(record := slots[k].record);
      assert slots[..] == was[j := RecordMoved(was[j], was[k])];
      IdStep(slots[..], j, k, n);
      MoveId(j, k);
      BrowseStep(slots[..], j, k, n);
      MoveBrowse(j, k);
      DisplayStep(slots[..], j, k, n);
      MoveDisplay(j, k);
    }

    /** A node at the end. */
    method Append(n: Node)
      requires Valid() && count < slots.Length && NodeFits(n)
      modifies this, slots
      ensures Valid() && Contents() == old(Contents()) + [n]
    {
      hide NodeAt, NodeFits, HoldingNode;
      ghost var was := slots[..];
      HoldingReads(was, count, n);
      Store(count, n);
      NodesAreLocal(was, slots[..], count);
      count := count + 1;
    }

    /** The first node that equals the id; count if there is none. */
    method Find(id: NodeId) returns (j: nat)
      requires Valid()
      ensures j <= count
      ensures forall k :: 0 <= k < j ==> !Equal(Contents()[k].id, id)
      ensures j < count ==> Equal(Contents()[j].id, id)
    {
      hide NodeAt, OwnsNode;
      j := 0;
      while j < count
        invariant j <= count && forall k :: 0 <= k < j ==> !Equal(Contents()[k].id, id)
      {
        OwnIsSound(slots[..], j);
        if Equal(NodeAt(slots[..], j).id, id) {
          return;
        }
        j := j + 1;
      }
    }

    /** mu_dynamic_node_move of the last node into slot j, which is gone. */
    method Remove(j: nat)
      requires Valid() && j < count
      modifies this, slots
      ensures Valid() && Contents() == Swapped(old(Contents()), j)
    {
      hide NodeAt, SoundNode;
      ghost var was := slots[..];
      var last := count - 1;
      count := last;
      if j != last {
        Move(j, last);
        RemovedNodes(was, slots[..], last, j);
      }
    }
  }

  lemma RemovedNodes(a: seq<NodeSlot>, b: seq<NodeSlot>, last: nat, j: nat)
    requires j < last < |a| == |b| && OwnAllNodes(a, last + 1) && OwnsNode(b[j], j)
    requires SoundNode(a[last].record, a) && SoundNode(b[j].record, b)
    requires NodeAt(b, j) == NodeAt(a, last) && forall k :: 0 <= k < |a| && k != j ==> b[k] == a[k]
    ensures OwnAllNodes(b, last) && NodesOf(b, last) == Swapped(NodesOf(a, last + 1), j)
  {
    hide NodeAt, OwnsNode;
    forall k | 0 <= k < last && k != j ensures SoundNode(a[k].record, a) && SoundNode(b[k].record, b) && NodeAt(b, k) == NodeAt(a, k) { NodeIsLocal(a, b, k); }
    var l, r := NodesOf(b, last), Swapped(NodesOf(a, last + 1), j);
    forall k | 0 <= k < last ensures l[k] == r[k] { }
  }

  // ----- References

  datatype Reference = Reference(source: NodeId, kind: NodeId, forward: bool, target: NodeId)

  datatype ReferenceRecord = ReferenceRecord(source: IdRecord, kind: IdRecord, forward: bool, target: IdRecord)

  datatype ReferenceSlot = ReferenceSlot(record: ReferenceRecord, source: seq<byte>, kind: seq<byte>, target: seq<byte>)

  predicate WideReference(s: ReferenceSlot) {
    |s.source| == |s.kind| == |s.target| == REFERENCE_NODEID_LENGTH
  }

  predicate OwnsReference(s: ReferenceSlot, i: nat) {
    && WideReference(s) && OwnsId(s.record.source, i, REFERENCE_NODEID_LENGTH)
    && OwnsId(s.record.kind, i, REFERENCE_NODEID_LENGTH) && OwnsId(s.record.target, i, REFERENCE_NODEID_LENGTH)
  }

  /** The id a record stands for, given where each slot's storage for it is. */
  function ThroughPointer(r: IdRecord, slots: seq<ReferenceSlot>, field: ReferenceSlot -> seq<byte>): (n: NodeId)
    requires r.Named? && r.name.Text? ==> r.name.slot < |slots| && r.name.length <= |field(slots[r.name.slot])|
  {
    if r.Named? && r.name.Text? then DerefId(r, field(slots[r.name.slot])) else DerefId(r, [])
  }

  function ReferenceAt(slots: seq<ReferenceSlot>, i: nat): (f: Reference)
    requires i < |slots| && OwnsReference(slots[i], i)
  {
    var r := slots[i].record;
    Reference(ThroughPointer(r.source, slots, (s: ReferenceSlot) => s.source), ThroughPointer(r.kind, slots, (s: ReferenceSlot) => s.kind),
              r.forward, ThroughPointer(r.target, slots, (s: ReferenceSlot) => s.target))
  }

  lemma ReferenceIsLocal(a: seq<ReferenceSlot>, b: seq<ReferenceSlot>, i: nat)
    requires i < |a| && i < |b| && a[i] == b[i] && OwnsReference(a[i], i)
    ensures ReferenceAt(a, i) == ReferenceAt(b, i)
  {
  }

  predicate ReferenceFits(f: Reference) {
    IdFitsIn(f.source, REFERENCE_NODEID_LENGTH) && IdFitsIn(f.kind, REFERENCE_NODEID_LENGTH) && IdFitsIn(f.target, REFERENCE_NODEID_LENGTH)
  }

  function HoldingReference(s: ReferenceSlot, i: nat, f: Reference): (r: ReferenceSlot)
    requires WideReference(s) && ReferenceFits(f)
  {
    ReferenceSlot(ReferenceRecord(PointingId(f.source, i), PointingId(f.kind, i), f.forward, PointingId(f.target, i)),
                  StoredId(s.source, f.source), StoredId(s.kind, f.kind), StoredId(s.target, f.target))
  }

  function WithSource(s: ReferenceSlot, i: nat, n: NodeId): (r: ReferenceSlot)
    requires WideReference(s) && IdFitsIn(n, REFERENCE_NODEID_LENGTH)
    ensures WideReference(r)
  {
    s.(record := s.record.(source := PointingId(n, i)), source := StoredId(s.source, n))
  }

  function WithKind(s: ReferenceSlot, i: nat, n: NodeId): (r: ReferenceSlot)
    requires WideReference(s) && IdFitsIn(n, REFERENCE_NODEID_LENGTH)
    ensures WideReference(r)
  {
    s.(record := s.record.(kind := PointingId(n, i)), kind := StoredId(s.kind, n))
  }

  function WithTarget(s: ReferenceSlot, i: nat, n: NodeId): (r: ReferenceSlot)
    requires WideReference(s) && IdFitsIn(n, REFERENCE_NODEID_LENGTH)
    ensures WideReference(r)
  {
    s.(record := s.record.(target := PointingId(n, i)), target := StoredId(s.target, n))
  }

  lemma CopiesHold(s: ReferenceSlot, i: nat, f: Reference)
    requires WideReference(s) && ReferenceFits(f)
    ensures var a := WithKind(WithSource(s, i, f.source), i, f.kind);
      WithTarget(a.(record := a.record.(forward := f.forward)), i, f.target) == HoldingReference(s, i, f)
  {
  }

  lemma HoldingReferenceReads(slots: seq<ReferenceSlot>, i: nat, f: Reference)
    requires i < |slots| && WideReference(slots[i]) && ReferenceFits(f)
    ensures var after := slots[i := HoldingReference(slots[i], i, f)]; OwnsReference(after[i], i) && ReferenceAt(after, i) == f
  {
    StoredIdReads(slots[i].source, f.source, i);
    StoredIdReads(slots[i].kind, f.kind, i);
    StoredIdReads(slots[i].target, f.target, i);
  }

  predicate OwnAllReferences(slots: seq<ReferenceSlot>, n: nat) {
    n <= |slots| && forall i :: 0 <= i < n ==> OwnsReference(slots[i], i)
  }

  function ReferencesOf(slots: seq<ReferenceSlot>, n: nat): (r: seq<Reference>)
    requires OwnAllReferences(slots, n)
    ensures |r| == n && forall i :: 0 <= i < n ==> r[i] == ReferenceAt(slots, i)
  {
    seq(n, i requires 0 <= i < n => ReferenceAt(slots, i))
  }

  lemma ReferencesAreLocal(a: seq<ReferenceSlot>, b: seq<ReferenceSlot>, n: nat)
    requires OwnAllReferences(a, n) && n <= |b| && forall i :: 0 <= i < n ==> a[i] == b[i]
    ensures OwnAllReferences(b, n) && ReferencesOf(a, n) == ReferencesOf(b, n)
  {
    hide ReferenceAt, OwnsReference;
    forall i | 0 <= i < n ensures ReferenceAt(a, i) == ReferenceAt(b, i) { ReferenceIsLocal(a, b, i); }
  }

  lemma ReferenceFitsAgain(slots: seq<ReferenceSlot>, i: nat)
    requires i < |slots| && OwnsReference(slots[i], i)
    ensures ReferenceFits(ReferenceAt(slots, i))
  {
  }

  lemma RemovedReferences(a: seq<ReferenceSlot>, b: seq<ReferenceSlot>, last: nat, j: nat)
    requires j < last < |a| == |b| && OwnAllReferences(a, last + 1) && OwnsReference(b[j], j)
    requires ReferenceAt(b, j) == ReferenceAt(a, last) && forall k :: 0 <= k < |a| && k != j ==> b[k] == a[k]
    ensures OwnAllReferences(b, last) && ReferencesOf(b, last) == Swapped(ReferencesOf(a, last + 1), j)
  {
    hide ReferenceAt, OwnsReference;
    forall k | 0 <= k < last && k != j ensures ReferenceAt(b, k) == ReferenceAt(a, k) { ReferenceIsLocal(a, b, k); }
    var l, r := ReferencesOf(b, last), Swapped(ReferencesOf(a, last + 1), j);
    forall k | 0 <= k < last ensures l[k] == r[k] { }
  }

  class ReferenceTable {
    const slots: array<ReferenceSlot>
    var count: nat

    ghost predicate Valid()
      reads this, slots
    {
      OwnAllReferences(slots[..], count) && forall i :: 0 <= i < slots.Length ==> WideReference(slots[i])
    }

    ghost function Contents(): (r: seq<Reference>)
      requires Valid()
      reads this, slots
    {
      ReferencesOf(slots[..], count)
    }

    constructor (capacity: nat)
      ensures Valid() && fresh(slots) && slots.Length == capacity && Contents() == []
    {
      slots := new ReferenceSlot[capacity](_ =>
        ReferenceSlot(ReferenceRecord(Plain(Numeric(0, 0)), Plain(Numeric(0, 0)), false, Plain(Numeric(0, 0))),
                      seq(REFERENCE_NODEID_LENGTH, _ => 0), seq(REFERENCE_NODEID_LENGTH, _ => 0), seq(REFERENCE_NODEID_LENGTH, _ => 0)));
      count := 0;
    }

    /** mu_dynamic_nodeid_copy of a source id: the id, its characters, and its pointer. */
    method CopySource(i: nat, n: NodeId)
      requires i < slots.Length && WideReference(slots[i]) && IdFitsIn(n, REFERENCE_NODEID_LENGTH)
      modifies slots
      ensures slots[..] == old(slots[..])[i := WithSource(old(slots[i]), i, n)]
    {
      slots[i] := WithSource(slots[i], i, n);
    }

    method CopyKind(i: nat, n: NodeId)
      requires i < slots.Length && WideReference(slots[i]) && IdFitsIn(n, REFERENCE_NODEID_LENGTH)
      modifies slots
      ensures slots[..] == old(slots[..])[i := WithKind(old(slots[i]), i, n)]
    {
      slots[i] := WithKind(slots[i], i, n);
    }

    method CopyTarget(i: nat, n: NodeId)
      requires i < slots.Length && WideReference(slots[i]) && IdFitsIn(n, REFERENCE_NODEID_LENGTH)
      modifies slots
      ensures slots[..] == old(slots[..])[i := WithTarget(old(slots[i]), i, n)]
    {
      slots[i] := WithTarget(slots[i], i, n);
    }

    /** mu_dynamic_reference_copy into slot i. */
    method Store(i: nat, f: Reference)
      requires i < slots.Length && WideReference(slots[i]) && ReferenceFits(f)
      modifies slots
      ensures slots[..] == old(slots[..])[i := HoldingReference(old(slots[i]), i, f)]
    {
      ghost var was := slots[..];
      CopySource(i, f.source);
      CopyKind(i, f.kind);
      slots[i] := slots[i].(record := slots[i].record.(forward := f.forward));
      CopyTarget(i, f.target);
      assert slots[..] == was[i := HoldingReference(was[i], i, f)];
    }

    /**
     mu_dynamic_reference_move: each id is copied through the pointer of the
     record in slot k, while slot j already holds what was copied before.
     */
    method Move(j: nat, k: nat)
      requires j < slots.Length && k < slots.Length && j != k && OwnsReference(slots[k], k) && WideReference(slots[j])
      modifies slots
      ensures OwnsReference(slots[j], j) && ReferenceAt(slots[..], j) == old(ReferenceAt(slots[..], k))
      ensures forall i :: 0 <= i < slots.Length && i != j ==> slots[i] == old(slots[i])
    {
      hide HoldingReference, WithSource, WithKind, WithTarget;
      ghost var was := slots[..];
      ghost var f := ReferenceAt(was, k);
      ReferenceFitsAgain(was, k);
      var moved := slots[k].record;
      CopySource(j, ThroughPointer(moved.source, slots[..], (s: ReferenceSlot) => s.source));
      CopyKind(j, ThroughPointer(moved.kind, slots[..], (s: ReferenceSlot) => s.kind));
      slots[j] := slots[j].(record := slots[j].record.(forward := moved.forward));
      CopyTarget(j, ThroughPointer(moved.target, slots[..], (s: ReferenceSlot) => s.target));
      CopiesHold(was[j], j, f);
      HoldingReferenceReads(was, j, f);
      assert slots[..] == was[j := HoldingReference(was[j], j, f)];
    }

    method Append(f: Reference)
      requires Valid() && count < slots.Length && ReferenceFits(f)
      modifies this, slots
      ensures Valid() && Contents() == old(Contents()) + [f]
    {
      hide ReferenceAt, ReferenceFits, HoldingReference;
      ghost var was := slots[..];
      HoldingReferenceReads(was, count, f);
      Store(count, f);
      ReferencesAreLocal(was, slots[..], count);
      count := count + 1;
    }

    /** mu_dynamic_reference_move of the last reference into slot j, which is gone. */
    method Remove(j: nat)
      requires Valid() && j < count
      modifies this, slots
      ensures Valid() && Contents() == Swapped(old(Contents()), j)
    {
      hide ReferenceAt;
      ghost var was := slots[..];
      var last := count - 1;
      count := last;
      if j != last {
        Move(j, last);
        RemovedReferences(was, slots[..], last, j);
      }
    }

    /** The loop of DeleteNodes: every reference from or to the node goes, and no other. */
    method RemoveAbout(id: NodeId)
      requires Valid()
      modifies this, slots
      ensures Valid() && OthersKept(old(Contents()), Contents(), id)
    {
      hide ReferenceAt, OwnAllReferences, Swapped, Equal;
      ghost var was := multiset(Contents());
      var r := 0;
      while r < count
        invariant Valid() && r <= count
        invariant forall k :: 0 <= k < r ==> !About(Contents()[k], id)
        invariant forall f :: !About(f, id) ==> multiset(Contents())[f] == was[f]
        decreases count - r
      {
        ghost var now := Contents();
        Owned(slots[..], count, r);
        var f := ReferenceAt(slots[..], r);
        if Equal(f.source, id) || Equal(f.target, id) {
          OneAboutGoes(now, r, id, was);
          SwappedKeepsFront(now, r);
          Remove(r);
        } else {
          r := r + 1;
        }
      }
      NoneLeft(Contents(), id);
    }

    /** The first reference with exactly these parts; count if there is none. */
    method Find(f: Reference) returns (j: nat)
      requires Valid()
      ensures j <= count
      ensures forall k :: 0 <= k < j ==> !Matches(Contents()[k], f)
      ensures j < count ==> Matches(Contents()[j], f)
    {
      hide ReferenceAt, OwnAllReferences;
      j := 0;
      while j < count
        invariant j <= count && forall k :: 0 <= k < j ==> !Matches(Contents()[k], f)
      {
        Owned(slots[..], count, j);
        if Matches(ReferenceAt(slots[..], j), f) {
          return;
        }
        j := j + 1;
      }
    }
  }

  lemma Owned(slots: seq<ReferenceSlot>, n: nat, i: nat)
    requires OwnAllReferences(slots, n) && i < n
    ensures n <= |slots| && OwnsReference(slots[i], i)
  {
  }

  predicate About(f: Reference, id: NodeId) {
    Equal(f.source, id) || Equal(f.target, id)
  }

  predicate Matches(f: Reference, g: Reference) {
    Equal(f.source, g.source) && Equal(f.kind, g.kind) && Equal(f.target, g.target) && f.forward == g.forward
  }

  /** None about the node is left, and every other is there as often as before. */
  ghost predicate OthersKept(before: seq<Reference>, after: seq<Reference>, id: NodeId) {
    forall f :: multiset(after)[f] == if About(f, id) then 0 else multiset(before)[f]
  }

  /** One node with the id is gone, and all others are there as often as before. */
  ghost predicate OneGone(before: seq<Node>, after: seq<Node>, id: NodeId) {
    exists n :: n in before && Equal(n.id, id) && multiset(after) == multiset(before) - multiset{n}
  }

  lemma OneAboutGoes(now: seq<Reference>, r: nat, id: NodeId, was: multiset<Reference>)
    requires r < |now| && About(now[r], id) && forall f :: !About(f, id) ==> multiset(now)[f] == was[f]
    ensures forall f :: !About(f, id) ==> multiset(Swapped(now, r))[f] == was[f]
  {
    hide About, Swapped;
    SwappedLosesOne(now, r);
  }

  /** For a numeric or string id: no reference has it as source or target, and all others are there as often as before. */
  lemma NoneAboutIsLeft(before: seq<Reference>, after: seq<Reference>, id: NodeId)
    requires OthersKept(before, after, id) && (id.Numeric? || id.StringId?)
    ensures forall f :: f in after ==> f.source != id && f.target != id
    ensures forall f: Reference :: f.source != id && f.target != id ==> multiset(after)[f] == multiset(before)[f]
  {
    forall f | f in after ensures f.source != id && f.target != id {
      assert f in multiset(after);
    }
  }

  /** A reference is matched by itself alone, if none of its ids is a GUID or opaque. */
  lemma MatchesItself(f: Reference, g: Reference)
    ensures Matches(f, g) <==> f == g && Plainly(f)
  {
  }

  predicate Plainly(f: Reference) {
    (f.source.Numeric? || f.source.StringId?) && (f.kind.Numeric? || f.kind.StringId?) && (f.target.Numeric? || f.target.StringId?)
  }

  lemma NoneLeft(s: seq<Reference>, id: NodeId)
    requires forall k :: 0 <= k < |s| ==> !About(s[k], id)
    ensures forall f :: About(f, id) ==> multiset(s)[f] == 0
  {
    forall f | About(f, id) ensures multiset(s)[f] == 0 { assert f !in s; }
  }

  lemma SwappedKeepsFront<T>(s: seq<T>, j: nat)
    requires j < |s|
    ensures forall k :: 0 <= k < j ==> Swapped(s, j)[k] == s[k]
  {
  }

  // ----- The services

  const FIRST_AUTOMATIC: u32 := 1000

  datatype AddItem = AddItem(requested: NodeId, nodeClass: u32, browse: UaString, attributes: Status, display: Option<UaString>)

  /** The id AddNodes gives: the requested one, or one made from the number of nodes. */
  function NewId(requested: NodeId, nodes: u32): (r: NodeId)
    requires FIRST_AUTOMATIC + nodes < TWO32
  {
    if requested.Numeric? && requested.id == 0 then Numeric(1, FIRST_AUTOMATIC + nodes) else requested
  }

  function DisplayOf(item: AddItem): (r: UaString) {
    if item.display.Some? then item.display.value else item.browse
  }

  /** AddNodes, one item: the nodes after it, its status, and the id it gave. */
  function Added(nodes: seq<Node>, capacity: nat, item: AddItem): (r: (seq<Node>, Status, NodeId))
    requires FIRST_AUTOMATIC + capacity < TWO32
    ensures r.1 != Good ==> r.0 == nodes
    ensures r.1 == Good ==>
      && |nodes| < capacity && r.2 == NewId(item.requested, |nodes|)
      && r.0 == nodes + [Node(r.2, item.nodeClass, item.browse, DisplayOf(item))]
  {
    var none := Numeric(0, 0);
    if item.nodeClass == 0 then (nodes, BadNodeClassInvalid, none)
    else if |nodes| >= capacity || !FitsIn(item.browse, BROWSE_NAME_LENGTH) then (nodes, BadOutOfMemory, none)
    else if item.attributes != Good then (nodes, item.attributes, none)
    else if !FitsIn(DisplayOf(item), DISPLAY_NAME_LENGTH) then (nodes, BadOutOfMemory, none)
    else
      var id := NewId(item.requested, |nodes|);
      if !IdFitsIn(id, STRING_NODEID_LENGTH) then (nodes, BadOutOfMemory, none)
      else (nodes + [Node(id, item.nodeClass, item.browse, DisplayOf(item))], Good, id)
  }

  predicate ShortText(s: UaString) {
    s.Null? || |s.bytes| <= 64
  }

  /** No string id of the reference is longer than 64 bytes. */
  predicate ShortIds(f: Reference) {
    (f.source.StringId? ==> ShortText(f.source.name)) && (f.kind.StringId? ==> ShortText(f.kind.name)) && (f.target.StringId? ==> ShortText(f.target.name))
  }

  /**
   A node is added exactly if it has a class, there is room, its attributes
   decode, and no name or string id is longer than 64 bytes; under the id asked
   for, or 1000 and the count in namespace 1 if that is numeric zero; shown under
   its browse name if it has no display name. Otherwise the first of these that
   fails gives the status, and nothing changes.
   */
  lemma AddedExactly(nodes: seq<Node>, capacity: nat, item: AddItem)
    requires 1000 + capacity < TWO32
    ensures var r, q := Added(nodes, capacity, item), item.requested;
      var display := if item.display.Some? then item.display.value else item.browse;
      var short := ShortText(item.browse) && ShortText(display) && (q.StringId? ==> ShortText(q.name));
      && (r.1 == Good <==> item.nodeClass != 0 && |nodes| < capacity && item.attributes == Good && short)
      && (item.nodeClass == 0 ==> r.1 == BadNodeClassInvalid)
      && (item.nodeClass != 0 && (|nodes| >= capacity || !ShortText(item.browse)) ==> r.1 == BadOutOfMemory)
      && (item.nodeClass != 0 && |nodes| < capacity && ShortText(item.browse) && item.attributes != Good ==> r.1 == item.attributes)
      && (r.1 == Good ==>
            var id := if q.Numeric? && q.id == 0 then Numeric(1, 1000 + |nodes|) else q;
            r.2 == id && r.0 == nodes + [Node(id, item.nodeClass, item.browse, display)])
      && (r.1 != Good ==> r.0 == nodes)
  {
  }

  function IdsOf(nodes: seq<Node>): (r: seq<NodeId>)
    ensures |r| == |nodes| && forall k :: 0 <= k < |nodes| ==> r[k] == nodes[k].id
  {
    seq(|nodes|, k requires 0 <= k < |nodes| => nodes[k].id)
  }

  /** DeleteNodes, one item: the first node that equals the id goes. */
  function Deleted(nodes: seq<Node>, id: NodeId): (r: seq<Node>) {
    var j := Scan(IdsOf(nodes), id);
    if j.Some? then Swapped(nodes, j.value) else nodes
  }

  class DynamicAddressSpace {
    const nodes: NodeTable
    const references: ReferenceTable

    ghost predicate Valid()
      reads nodes, nodes.slots, references, references.slots
    {
      nodes.Valid() && references.Valid() && FIRST_AUTOMATIC + nodes.slots.Length < TWO32
    }

    constructor (nodeCapacity: nat, referenceCapacity: nat)
      requires FIRST_AUTOMATIC + nodeCapacity < TWO32
      ensures Valid() && nodes.Contents() == [] && references.Contents() == []
    {
      var n := new NodeTable(nodeCapacity);
      var r := new ReferenceTable(referenceCapacity);
      nodes, references := n, r;
    }

    /** One item of mu_add_nodes_process. */
    method AddNode(item: AddItem) returns (s: Status, id: NodeId)
      requires Valid()
      modifies nodes, nodes.slots
      ensures Valid() && (nodes.Contents(), s, id) == Added(old(nodes.Contents()), nodes.slots.Length, item)
      ensures s == Good <==>
        && item.nodeClass != 0 && old(nodes.count) < nodes.slots.Length && item.attributes == Good
        && FitsIn(item.browse, BROWSE_NAME_LENGTH)
        && FitsIn(DisplayOf(item), DISPLAY_NAME_LENGTH)
        && IdFitsIn(NewId(item.requested, old(nodes.count)), STRING_NODEID_LENGTH)
    {
      hide NodesOf, OwnAllNodes;
      NodesCounted(nodes);
      id := Numeric(0, 0);
      if item.nodeClass == 0 {
        return BadNodeClassInvalid, id;
      }
      if nodes.count >= nodes.slots.Length {
        return BadOutOfMemory, id;
      }
      if !FitsIn(item.browse, BROWSE_NAME_LENGTH) {
        return BadOutOfMemory, id;
      }
      if item.attributes != Good {
        return item.attributes, id;
      }
      var display := DisplayOf(item);
      if !FitsIn(display, DISPLAY_NAME_LENGTH) {
        return BadOutOfMemory, id;
      }
      var newId := NewId(item.requested, nodes.count);
      if !IdFitsIn(newId, STRING_NODEID_LENGTH) {
        return BadOutOfMemory, id;
      }
      nodes.Append(Node(newId, item.nodeClass, item.browse, display));
      return Good, newId;
    }

    /** One item of mu_delete_nodes_process: one matching node goes, and with it every reference from or to it. */
    method DeleteNode(id: NodeId) returns (s: Status)
      requires Valid()
      modifies nodes, nodes.slots, references, references.slots
      ensures Valid()
      ensures s == Good || s == BadNodeIdUnknown
      ensures s == Good <==> exists k :: 0 <= k < |old(nodes.Contents())| && Equal(old(nodes.Contents())[k].id, id)
      ensures nodes.Contents() == Deleted(old(nodes.Contents()), id)
      ensures s == Good ==> OneGone(old(nodes.Contents()), nodes.Contents(), id)
      ensures s == Good ==> OthersKept(old(references.Contents()), references.Contents(), id)
      ensures s == Good ==> id in old(IdsOf(nodes.Contents())) && (id.Numeric? || id.StringId?)
      ensures s == Good ==> forall f :: f in references.Contents() ==> f.source != id && f.target != id
      ensures s != Good ==> nodes.Contents() == old(nodes.Contents()) && references.Contents() == old(references.Contents())
    {
      hide NodesOf, OwnAllNodes, ReferencesOf, OwnAllReferences, Swapped, OthersKept;
      ghost var was := nodes.Contents();
      var j := nodes.Find(id);
      NodesCounted(nodes);
      FirstIsScanned(was, id, j);
      if j == nodes.count {
        return BadNodeIdUnknown;
      }
      SwappedLosesOne(was, j);
      nodes.Remove(j);
      assert was[j] in was && Equal(was[j].id, id);
      references.RemoveAbout(id);
      assert IdsOf(was)[j] == id;
      NoneAboutIsLeft(old(references.Contents()), references.Contents(), id);
      s := Good;
    }

    /** One item of mu_add_references_process. */
    method AddReference(f: Reference) returns (s: Status)
      requires Valid()
      modifies references, references.slots
      ensures Valid()
      ensures s == Good <==> |old(references.Contents())| < references.slots.Length && ShortIds(f)
      ensures s != Good ==> s == BadOutOfMemory
      ensures references.Contents() == if s == Good then old(references.Contents()) + [f] else old(references.Contents())
    {
      hide ReferencesOf, OwnAllReferences;
      ReferencesCounted(references);
      assert ReferenceFits(f) <==> ShortIds(f);
      if references.count >= references.slots.Length || !ReferenceFits(f) {
        return BadOutOfMemory;
      }
      references.Append(f);
      s := Good;
    }

    /** One item of mu_delete_references_process: one exact match goes. */
    method DeleteReference(f: Reference) returns (s: Status)
      requires Valid()
      modifies references, references.slots
      ensures Valid()
      ensures s == Good || s == BadNotFound
      ensures s == Good <==> f in old(references.Contents()) && Plainly(f)
      ensures multiset(references.Contents()) == if s == Good then multiset(old(references.Contents())) - multiset{f} else multiset(old(references.Contents()))
    {
      hide ReferencesOf, OwnAllReferences, Swapped;
      ghost var was := references.Contents();
      var j := references.Find(f);
      ReferencesCounted(references);
      forall g: Reference ensures Matches(g, f) <==> g == f && Plainly(g) { MatchesItself(g, f); }
      if j == references.count {
        return BadNotFound;
      }
      SwappedLosesOne(was, j);
      references.Remove(j);
      s := Good;
    }
  }

  lemma FirstIsScanned(nodes: seq<Node>, id: NodeId, j: nat)
    requires j <= |nodes| && forall k :: 0 <= k < j ==> !Equal(nodes[k].id, id)
    requires j < |nodes| ==> Equal(nodes[j].id, id)
    ensures Scan(IdsOf(nodes), id) == if j < |nodes| then Some(j) else None
  {
    hide Equal;
    var ids := IdsOf(nodes);
    var r := Scan(ids, id);
    if r.Some? { assert Equal(nodes[r.value].id, id); }
    if j < |nodes| { assert Equal(ids[j], id); }
  }

  lemma NodesCounted(t: NodeTable)
    requires t.Valid()
    ensures |t.Contents()| == t.count
  {
  }

  lemma ReferencesCounted(t: ReferenceTable)
    requires t.Valid()
    ensures |t.Contents()| == t.count
  {
  }
}
