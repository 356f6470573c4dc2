/**
 The ids AddNodes makes up when none is requested: 1000 and the number of nodes.
 Runs of AddNodes and DeleteNodes, and when such an id is new.
 */
module AutomaticIds {
  import opened Types
  import opened NodeIndex
  import opened DynamicSpace

  datatype Change = Adding(item: AddItem) | Deleting(id: NodeId)

  function Next(nodes: seq<Node>, capacity: nat, c: Change): (r: seq<Node>)
    requires FIRST_AUTOMATIC + capacity < TWO32
  {
    match c
    case Adding(item) => Added(nodes, capacity, item).0
    case Deleting(id) => Deleted(nodes, id)
  }

  function After(nodes: seq<Node>, capacity: nat, cs: seq<Change>): (r: seq<Node>)
    requires FIRST_AUTOMATIC + capacity < TWO32
  {
    if cs == [] then nodes else Next(After(nodes, capacity, cs[..|cs| - 1]), capacity, cs[|cs| - 1])
  }

  /** The nodes of the services are the nodes of the run. */
  method Perform(space: DynamicAddressSpace, cs: seq<Change>)
    requires space.Valid()
    modifies space.nodes, space.nodes.slots, space.references, space.references.slots
    ensures space.Valid() && space.nodes.Contents() == After(old(space.nodes.Contents()), space.nodes.slots.Length, cs)
  {
    hide Added, Deleted, NodeTable.Contents, ReferenceTable.Contents;
    ghost var was, capacity := space.nodes.Contents(), space.nodes.slots.Length;
    for i := 0 to |cs|
      invariant space.Valid() && space.nodes.Contents() == After(was, capacity, cs[..i])
    {
      assert cs[..i + 1][..i] == cs[..i];
      match cs[i] {
        case Adding(item) => var _, _ := space.AddNode(item);
        case Deleting(id) => var _ := space.DeleteNode(id);
      }
    }
    assert cs[..|cs|] == cs;
  }

  // ----- When an automatic id is new

  predicate Automatic(item: AddItem) {
    item.requested.Numeric? && item.requested.id == 0
  }

  function Issued(n: nat): (r: NodeId)
    requires FIRST_AUTOMATIC + n < TWO32
  {
    Numeric(1, FIRST_AUTOMATIC + n)
  }

  ghost predicate HasId(nodes: seq<Node>, id: NodeId) {
    exists k :: 0 <= k < |nodes| && Equal(nodes[k].id, id)
  }

  /** No live node has the id that the change makes up, if it makes one up. */
  ghost predicate IsNew(nodes: seq<Node>, capacity: nat, c: Change)
    requires FIRST_AUTOMATIC + capacity < TWO32
  {
    c.Adding? && Automatic(c.item) && Added(nodes, capacity, c.item).1 == Good ==> !HasId(nodes, Added(nodes, capacity, c.item).2)
  }

  ghost predicate AllNew(nodes: seq<Node>, capacity: nat, cs: seq<Change>)
    requires FIRST_AUTOMATIC + capacity < TWO32
  {
    forall i :: 0 <= i < |cs| ==> IsNew(After(nodes, capacity, cs[..i]), capacity, cs[i])
  }

  /** A live node in namespace 1 has a number from a up to, and without, b. */
  ghost predicate Taken(nodes: seq<Node>, a: nat, b: nat) {
    exists k :: 0 <= k < |nodes| && nodes[k].id.Numeric? && nodes[k].id.ns == 1 && a <= nodes[k].id.id < b
  }

  /** An AddNodes item without a requested id and with nothing against it but a full space. */
  predicate Unnamed(c: Change) {
    && c.Adding? && Automatic(c.item) && c.item.nodeClass != 0 && c.item.attributes == Good
    && FitsIn(c.item.browse, BROWSE_NAME_LENGTH) && FitsIn(DisplayOf(c.item), DISPLAY_NAME_LENGTH)
  }

  /** Such items are appended, with consecutive numbers. */
  lemma {:induction false} UnnamedAppend(nodes: seq<Node>, capacity: nat, cs: seq<Change>)
    requires FIRST_AUTOMATIC + capacity < TWO32 && |nodes| + |cs| <= capacity && forall i :: 0 <= i < |cs| ==> Unnamed(cs[i])
    ensures var after := After(nodes, capacity, cs);
      && |after| == |nodes| + |cs| && after[..|nodes|] == nodes
      && forall k :: |nodes| <= k < |after| ==> after[k].id == Issued(k)
  {
    if cs == [] {
      assert nodes[..|nodes|] == nodes;
    } else {
      UnnamedAppend(nodes, capacity, cs[..|cs| - 1]);
    }
  }

  /** The number the next such item gets is taken exactly if it was when they started. */
  lemma NextUnnamed(nodes: seq<Node>, capacity: nat, cs: seq<Change>, i: nat)
    requires FIRST_AUTOMATIC + capacity < TWO32 && |nodes| + |cs| <= capacity && forall i :: 0 <= i < |cs| ==> Unnamed(cs[i])
    requires i < |cs|
    ensures IsNew(After(nodes, capacity, cs[..i]), capacity, cs[i]) <==> !HasId(nodes, Issued(|nodes| + i))
  {
    hide After;
    UnnamedAppend(nodes, capacity, cs[..i]);
    var now, id := After(nodes, capacity, cs[..i]), Issued(|nodes| + i);
    assert Added(now, capacity, cs[i].item).2 == id;
    if HasId(nodes, id) {
      var k :| 0 <= k < |nodes| && Equal(nodes[k].id, id);
      assert now[..|nodes|][k] == now[k];
    }
    if HasId(now, id) {
      var k :| 0 <= k < |now| && Equal(now[k].id, id);
      assert k < |nodes| && now[..|nodes|][k] == now[k];
    }
  }

  /**
   As long as nothing is deleted, all ids made up are new exactly if no live
   node of namespace 1 has a number from 1000 and the count on, up to the last
   that will be given.
   */
  lemma AutomaticIdsAreNew(nodes: seq<Node>, capacity: nat, cs: seq<Change>)
    requires FIRST_AUTOMATIC + capacity < TWO32 && |nodes| + |cs| <= capacity && forall i :: 0 <= i < |cs| ==> Unnamed(cs[i])
    ensures AllNew(nodes, capacity, cs) <==> !Taken(nodes, FIRST_AUTOMATIC + |nodes|, FIRST_AUTOMATIC + |nodes| + |cs|)
  {
    hide IsNew, After;
    forall i | 0 <= i < |cs| ensures IsNew(After(nodes, capacity, cs[..i]), capacity, cs[i]) <==> !HasId(nodes, Issued(|nodes| + i)) {
      NextUnnamed(nodes, capacity, cs, i);
    }
    if Taken(nodes, FIRST_AUTOMATIC + |nodes|, FIRST_AUTOMATIC + |nodes| + |cs|) {
      var k :| 0 <= k < |nodes| && nodes[k].id.Numeric? && nodes[k].id.ns == 1
        && FIRST_AUTOMATIC + |nodes| <= nodes[k].id.id < FIRST_AUTOMATIC + |nodes| + |cs|;
      var i := nodes[k].id.id - FIRST_AUTOMATIC - |nodes|;
      assert Equal(nodes[k].id, Issued(|nodes| + i));
      assert !IsNew(After(nodes, capacity, cs[..i]), capacity, cs[i]);
    }
  }

  /** Otherwise the number k of such a node is given a second time, after k - 1000 - count more such items. */
  lemma RepeatsAfter(nodes: seq<Node>, capacity: nat, cs: seq<Change>, c: Change, j: nat)
    requires FIRST_AUTOMATIC + capacity < TWO32 && |nodes| + |cs| < capacity && Unnamed(c) && forall i :: 0 <= i < |cs| ==> Unnamed(cs[i])
    requires j < |nodes| && nodes[j].id == Issued(|nodes| + |cs|)
    ensures var now := After(nodes, capacity, cs);
      && Added(now, capacity, c.item).1 == Good && Added(now, capacity, c.item).2 == nodes[j].id
      && now[..|nodes|] == nodes && !IsNew(now, capacity, c)
  {
    UnnamedAppend(nodes, capacity, cs);
    var now := After(nodes, capacity, cs);
    assert now[j] == now[..|nodes|][j];
    assert Equal(now[j].id, nodes[j].id);
  }

  // ----- Runs with deletions and requested ids

  /** Every live number of namespace 1 is below the next one to be given. */
  ghost predicate Ahead(nodes: seq<Node>) {
    forall k :: 0 <= k < |nodes| && nodes[k].id.Numeric? && nodes[k].id.ns == 1 ==> nodes[k].id.id < FIRST_AUTOMATIC + |nodes|
  }

  /**
   What keeps it so: no request for a number beyond the next one, and no
   deletion that leaves the last number there is to another node.
   */
  ghost predicate Careful(nodes: seq<Node>, capacity: nat, c: Change)
    requires FIRST_AUTOMATIC + capacity < TWO32
  {
    match c
    case Adding(item) =>
      Added(nodes, capacity, item).1 == Good && !Automatic(item) && item.requested.Numeric? && item.requested.ns == 1 ==>
        item.requested.id <= FIRST_AUTOMATIC + |nodes|
    case Deleting(id) =>
      var j := Scan(IdsOf(nodes), id);
      j.Some? ==> forall k :: 0 <= k < |nodes| && k != j.value && nodes[k].id.Numeric? && nodes[k].id.ns == 1 ==>
        nodes[k].id.id != FIRST_AUTOMATIC + |nodes| - 1
  }

  lemma AheadIsNew(nodes: seq<Node>, capacity: nat, c: Change)
    requires FIRST_AUTOMATIC + capacity < TWO32 && Ahead(nodes)
    ensures IsNew(nodes, capacity, c)
  {
  }

  lemma StillAhead(nodes: seq<Node>, capacity: nat, c: Change)
    requires FIRST_AUTOMATIC + capacity < TWO32 && Ahead(nodes)
    ensures Ahead(Next(nodes, capacity, c)) <==> Careful(nodes, capacity, c)
  {
    hide Scan;
    match c
    case Adding(item) => AheadOfAdded(nodes, capacity, item);
    case Deleting(id) =>
      var j := Scan(IdsOf(nodes), id);
      if j.Some? { AheadOfSwapped(nodes, j.value); }
  }

  lemma AheadOfAdded(nodes: seq<Node>, capacity: nat, item: AddItem)
    requires FIRST_AUTOMATIC + capacity < TWO32 && Ahead(nodes)
    ensures Ahead(Added(nodes, capacity, item).0) <==> Careful(nodes, capacity, Adding(item))
  {
    var a := Added(nodes, capacity, item);
    if a.1 == Good {
      var n := |nodes|;
      assert a.0[n].id == NewId(item.requested, n) && forall k :: 0 <= k < n ==> a.0[k] == nodes[k];
    }
  }

  lemma AheadOfSwapped(nodes: seq<Node>, j: nat)
    requires Ahead(nodes) && j < |nodes|
    ensures Ahead(Swapped(nodes, j)) <==>
      forall k :: 0 <= k < |nodes| && k != j && nodes[k].id.Numeric? && nodes[k].id.ns == 1 ==> nodes[k].id.id != FIRST_AUTOMATIC + |nodes| - 1
  {
    var last, s := |nodes| - 1, Swapped(nodes, j);
    forall k | 0 <= k < last ensures s[k] == if k == j then nodes[last] else nodes[k] { }
    if Ahead(s) {
      forall k | 0 <= k < |nodes| && k != j && nodes[k].id.Numeric? && nodes[k].id.ns == 1 ensures nodes[k].id.id != FIRST_AUTOMATIC + |nodes| - 1 {
        if k == last { assert s[j] == nodes[k]; } else { assert s[k] == nodes[k]; }
      }
    }
  }

  ghost predicate AllCareful(nodes: seq<Node>, capacity: nat, cs: seq<Change>)
    requires FIRST_AUTOMATIC + capacity < TWO32
  {
    forall i :: 0 <= i < |cs| ==> Careful(After(nodes, capacity, cs[..i]), capacity, cs[i])
  }

  ghost predicate AllAhead(nodes: seq<Node>, capacity: nat, cs: seq<Change>)
    requires FIRST_AUTOMATIC + capacity < TWO32
  {
    forall i :: 0 <= i <= |cs| ==> Ahead(After(nodes, capacity, cs[..i]))
  }

  lemma {:induction false} CarefulStaysAhead(nodes: seq<Node>, capacity: nat, cs: seq<Change>, n: nat)
    requires FIRST_AUTOMATIC + capacity < TWO32 && Ahead(nodes) && AllCareful(nodes, capacity, cs) && n <= |cs|
    ensures Ahead(After(nodes, capacity, cs[..n]))
  {
    hide Ahead, Careful, Next;
    if n > 0 {
      CarefulStaysAhead(nodes, capacity, cs, n - 1);
      assert cs[..n][..n - 1] == cs[..n - 1];
      StillAhead(After(nodes, capacity, cs[..n - 1]), capacity, cs[n - 1]);
    }
  }

  /**
   Over every run of AddNodes and DeleteNodes from such a state: it stays ahead
   throughout exactly if every change is careful, and then every id made up is new.
   */
  lemma CarefulRuns(nodes: seq<Node>, capacity: nat, cs: seq<Change>)
    requires FIRST_AUTOMATIC + capacity < TWO32 && Ahead(nodes)
    ensures AllAhead(nodes, capacity, cs) <==> AllCareful(nodes, capacity, cs)
    ensures AllCareful(nodes, capacity, cs) ==> AllNew(nodes, capacity, cs)
  {
    hide Ahead, Careful, IsNew, Next;
    if AllAhead(nodes, capacity, cs) {
      forall i | 0 <= i < |cs| ensures Careful(After(nodes, capacity, cs[..i]), capacity, cs[i]) {
        assert Ahead(After(nodes, capacity, cs[..i])) && Ahead(After(nodes, capacity, cs[..i + 1]));
        assert cs[..i + 1][..i] == cs[..i];
        StillAhead(After(nodes, capacity, cs[..i]), capacity, cs[i]);
      }
    }
    if AllCareful(nodes, capacity, cs) {
      forall i | 0 <= i <= |cs| ensures Ahead(After(nodes, capacity, cs[..i])) { CarefulStaysAhead(nodes, capacity, cs, i); }
      forall i | 0 <= i < |cs| ensures IsNew(After(nodes, capacity, cs[..i]), capacity, cs[i]) {
        AheadIsNew(After(nodes, capacity, cs[..i]), capacity, cs[i]);
      }
    }
  }

  /** Two nodes without requested ids, the first deleted, a third: it gets the id of the second. */
  lemma DeletionRepeats(capacity: nat, a: AddItem, b: AddItem, c: AddItem)
    requires FIRST_AUTOMATIC + capacity < TWO32 && capacity >= 2 && Unnamed(Adding(a)) && Unnamed(Adding(b)) && Unnamed(Adding(c))
    ensures !AllNew([], capacity, [Adding(a), Adding(b), Deleting(Numeric(1, 1000)), Adding(c)])
  {
    hide Scan;
    var cs := [Adding(a), Adding(b), Deleting(Numeric(1, 1000)), Adding(c)];
    var two := After([], capacity, cs[..2]);
    UnnamedAppend([], capacity, cs[..2]);
    FirstIsScanned(two, Numeric(1, 1000), 0);
    assert cs[..3][..2] == cs[..2];
    var one := After([], capacity, cs[..3]);
    assert one == [two[1]];
    assert Equal(one[0].id, Numeric(1, 1001));
    assert !IsNew(one, capacity, cs[3]);
  }
}
