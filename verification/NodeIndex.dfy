/**
 Looking up nodes by NodeId: the order on NodeIds, the insertion-sorted index
 with its binary search, and the layered lookup of mu_resolve_node, all against
 a scan from the first node to the last.
 */
module NodeIndex {
  import opened Types

  // ----- The order on NodeIds

  function Sign(a: int, b: int): (r: int) {
    if a < b then -1 else if a > b then 1 else 0
  }

  function Kind(n: NodeId): (r: nat) {
    match n
    case Numeric(_, _) => 0
    case StringId(_, _) => 1
    case Guid(_, _) => 2
    case Opaque(_, _) => 3
  }

  function Length(s: UaString): (r: int) {
    match s
    case Null => -1
    case Bytes(b) => |b|
  }

  /** memcmp, up to its sign. */
  function ByteOrder(a: seq<byte>, b: seq<byte>): (r: int)
    requires |a| == |b|
  {
    if a == [] then 0
    else if a[0] != b[0] then Sign(a[0], b[0])
    else ByteOrder(a[1..], b[1..])
  }

  function StringOrder(a: UaString, b: UaString): (r: int) {
    if Length(a) != Length(b) then Sign(Length(a), Length(b))
    else if Length(a) <= 0 then 0
    else ByteOrder(a.bytes, b.bytes)
  }

  /** mu_nodeid_compare_direct: namespace, kind, then number or string; the other kinds count as the same. */
  function Compare(a: NodeId, b: NodeId): (r: int) {
    if a.ns != b.ns then Sign(a.ns, b.ns)
    else if Kind(a) != Kind(b) then Sign(Kind(a), Kind(b))
    else match a
      case Numeric(_, id) => Sign(id, b.id)
      case StringId(_, name) => StringOrder(name, b.name)
      case _ => 0
  }

  /** mu_nodeid_equal: NodeIds of the kinds it does not support equal nothing. */
  predicate Equal(a: NodeId, b: NodeId) {
    Supported(a) && a == b
  }

  predicate Supported(n: NodeId) {
    n.Numeric? || n.StringId?
  }

  /** What the order does not tell apart: the ids of an unsupported kind are one within their namespace. */
  predicate Same(a: NodeId, b: NodeId) {
    if Supported(a) then a == b else a.ns == b.ns && Kind(a) == Kind(b)
  }

  lemma {:induction false} ByteOrderIsOrder(a: seq<byte>, b: seq<byte>)
    requires |a| == |b|
    ensures ByteOrder(a, b) == 0 <==> a == b
    ensures ByteOrder(b, a) == -ByteOrder(a, b)
  {
    if a != [] {
      ByteOrderIsOrder(a[1..], b[1..]);
      assert a == [a[0]] + a[1..] && b == [b[0]] + b[1..];
    }
  }

  lemma {:induction false} ByteOrderTransitive(a: seq<byte>, b: seq<byte>, c: seq<byte>)
    requires |a| == |b| == |c| && ByteOrder(a, b) <= 0 && ByteOrder(b, c) <= 0
    ensures ByteOrder(a, c) <= 0
    ensures ByteOrder(a, c) == 0 ==> ByteOrder(a, b) == 0 && ByteOrder(b, c) == 0
  {
    if a != [] && a[0] == b[0] == c[0] {
      ByteOrderTransitive(a[1..], b[1..], c[1..]);
    }
  }

  /** The order is antisymmetric; it tells different ids apart, except two GUIDs or two opaque ids of one namespace. */
  lemma CompareIsOrder(a: NodeId, b: NodeId)
    ensures Compare(a, b) == 0 <==> Same(a, b)
    ensures Compare(b, a) == -Compare(a, b)
  {
    if a.StringId? && b.StringId? && Length(a.name) == Length(b.name) > 0 {
      ByteOrderIsOrder(a.name.bytes, b.name.bytes);
    }
  }

  lemma CompareTransitive(a: NodeId, b: NodeId, c: NodeId)
    requires Compare(a, b) <= 0 && Compare(b, c) <= 0
    ensures Compare(a, c) <= 0
    ensures Compare(a, c) == 0 ==> Compare(a, b) == 0 && Compare(b, c) == 0
  {
    if a.StringId? && b.StringId? && c.StringId? && a.ns == b.ns == c.ns && Length(a.name) == Length(b.name) == Length(c.name) > 0 {
      ByteOrderTransitive(a.name.bytes, b.name.bytes, c.name.bytes);
    }
  }

  // ----- The order in plain terms

  /** At position k, the first where they differ, a has the smaller byte. */
  predicate SmallerAt(a: seq<byte>, b: seq<byte>, k: nat) {
    k < |a| && k < |b| && a[..k] == b[..k] && a[k] < b[k]
  }

  /** Null before empty before longer strings; among equally long ones the first different byte decides. */
  ghost predicate StringLess(a: UaString, b: UaString) {
    match (a, b)
    case (_, Null) => false
    case (Null, Bytes(_)) => true
    case (Bytes(x), Bytes(y)) => |x| < |y| || (|x| == |y| && exists k: nat :: SmallerAt(x, y, k))
  }

  /** By namespace, then Numeric, String, Guid and Opaque in this order, then number or string. */
  ghost predicate Less(a: NodeId, b: NodeId) {
    || a.ns < b.ns
    || (a.ns == b.ns &&
        match (a, b)
        case (Numeric(_, x), Numeric(_, y)) => x < y
        case (Numeric(_, _), _) => true
        case (StringId(_, x), StringId(_, y)) => StringLess(x, y)
        case (StringId(_, _), Guid(_, _)) => true
        case (StringId(_, _), Opaque(_, _)) => true
        case (Guid(_, _), Opaque(_, _)) => true
        case _ => false)
  }

  lemma {:induction false} BytesDiffer(a: seq<byte>, b: seq<byte>)
    requires |a| == |b|
    ensures ByteOrder(a, b) < 0 <==> exists k: nat :: SmallerAt(a, b, k)
  {
    if a != [] && a[0] == b[0] {
      BytesDiffer(a[1..], b[1..]);
      if k: nat :| SmallerAt(a[1..], b[1..], k) {
        assert a[..k + 1] == [a[0]] + a[1..][..k] && b[..k + 1] == [b[0]] + b[1..][..k];
        assert SmallerAt(a, b, k + 1);
      }
      if k: nat :| SmallerAt(a, b, k) {
        assert k > 0 && a[1..][..k - 1] == a[..k][1..] && b[1..][..k - 1] == b[..k][1..];
        assert SmallerAt(a[1..], b[1..], k - 1);
      }
    } else if a != [] {
      if a[0] < b[0] { assert SmallerAt(a, b, 0); }
      if k: nat :| SmallerAt(a, b, k) {
        if k > 0 { assert a[..k][0] == b[..k][0]; }
      }
    }
  }

  /** The comparison is that order. */
  lemma CompareIsLess(a: NodeId, b: NodeId)
    ensures Compare(a, b) < 0 <==> Less(a, b)
  {
    hide ByteOrder;
    if a.StringId? && b.StringId? && a.name.Bytes? && b.name.Bytes? && |a.name.bytes| == |b.name.bytes| {
      BytesDiffer(a.name.bytes, b.name.bytes);
      if a.name.bytes == [] { assert !exists k: nat :: SmallerAt([], [], k); }
    }
  }

  // ----- The scan

  /** The first node that equals the key. */
  function Scan(nodes: seq<NodeId>, key: NodeId): (r: Option<nat>)
    ensures r.Some? ==> r.value < |nodes| && Equal(nodes[r.value], key) && forall i :: 0 <= i < r.value ==> !Equal(nodes[i], key)
    ensures r.None? ==> forall i :: 0 <= i < |nodes| ==> !Equal(nodes[i], key)
  {
    if nodes == [] then None
    else
      var n := |nodes| - 1;
      assert forall i :: 0 <= i < n ==> nodes[..n][i] == nodes[i];
      var before := Scan(nodes[..n], key);
      if before.Some? then before else if Equal(nodes[n], key) then Some(n) else None
  }

  /** A numeric or string id is found exactly where it first is; a GUID or an opaque id nowhere. */
  lemma ScanFinds(nodes: seq<NodeId>, key: NodeId)
    ensures key.Guid? || key.Opaque? ==> Scan(nodes, key) == None
    ensures key.Numeric? || key.StringId? ==>
      && (Scan(nodes, key).Some? <==> key in nodes)
      && (Scan(nodes, key).Some? ==> nodes[Scan(nodes, key).value] == key && key !in nodes[..Scan(nodes, key).value])
  {
    hide Scan;
    var r := Scan(nodes, key);
    assert forall i :: 0 <= i < |nodes| ==> (Equal(nodes[i], key) <==> nodes[i] == key && (key.Numeric? || key.StringId?));
  }

  /** mu_address_space_find_node_linear. */
  method FindLinear(nodes: seq<NodeId>, key: NodeId) returns (r: Option<nat>)
    ensures r == Scan(nodes, key)
  {
    for i := 0 to |nodes|
      invariant forall j :: 0 <= j < i ==> !Equal(nodes[j], key)
    {
      if Equal(nodes[i], key) {
        return Some(i);
      }
    }
    return None;
  }

  ghost predicate DuplicateFree(nodes: seq<NodeId>) {
    forall i, j :: 0 <= i < j < |nodes| ==> !Equal(nodes[i], nodes[j])
  }

  // ----- The index

  ghost predicate Indices(nodes: seq<NodeId>, order: seq<nat>) {
    forall k :: 0 <= k < |order| ==> order[k] < |nodes|
  }

  ghost predicate Sorted(nodes: seq<NodeId>, order: seq<nat>)
    requires Indices(nodes, order)
  {
    forall j, k :: 0 <= j < k < |order| ==> Compare(nodes[order[j]], nodes[order[k]]) <= 0
  }

  function Range(n: nat): (r: seq<nat>)
    ensures |r| == n && forall k :: 0 <= k < n ==> r[k] == k
  {
    seq(n, k => k)
  }

  /** An index of the first n nodes: every position once, in order. */
  ghost predicate Indexes(nodes: seq<NodeId>, order: seq<nat>, n: nat) {
    n <= |nodes| && Indices(nodes, order) && Sorted(nodes, order) && multiset(order) == multiset(Range(n))
  }

  /** Position p splits the order into what is not after the node and what is. */
  ghost predicate Splits(nodes: seq<NodeId>, order: seq<nat>, p: nat, i: nat)
    requires Indices(nodes, order) && i < |nodes|
  {
    && p <= |order|
    && (forall j :: 0 <= j < p ==> Compare(nodes[order[j]], nodes[i]) <= 0)
    && (forall j :: p <= j < |order| ==> Compare(nodes[order[j]], nodes[i]) > 0)
  }

  lemma InsertedIsSorted(nodes: seq<NodeId>, order: seq<nat>, p: nat, i: nat)
    requires Indices(nodes, order) && Sorted(nodes, order) && i < |nodes| && Splits(nodes, order, p, i)
    ensures var after := order[..p] + [i] + order[p..];
      Indices(nodes, after) && Sorted(nodes, after) && multiset(after) == multiset(order) + multiset{i}
  {
    hide Compare;
    var after := order[..p] + [i] + order[p..];
    forall j, k | 0 <= j < k < |after| ensures Compare(nodes[after[j]], nodes[after[k]]) <= 0 {
      if j == p { CompareIsOrder(nodes[i], nodes[after[k]]); }
    }
    assert order == order[..p] + order[p..];
  }

  lemma RangeGrows(n: nat)
    ensures multiset(Range(n + 1)) == multiset(Range(n)) + multiset{n}
  {
    assert Range(n + 1) == Range(n) + [n];
  }

  /** The inner loop: shift what is after the node up by one, until its place is found. */
  method ShiftUp(nodes: seq<NodeId>, order: array<nat>, i: nat, ghost was: seq<nat>) returns (position: nat)
    requires i < order.Length && i < |nodes| && was == order[..i] && Indices(nodes, was)
    modifies order
    ensures position <= i
    ensures forall j :: 0 <= j < position ==> order[j] == was[j]
    ensures forall j :: position <= j < i ==> order[j + 1] == was[j]
    ensures position > 0 ==> Compare(nodes[was[position - 1]], nodes[i]) <= 0
    ensures forall j :: position <= j < i ==> Compare(nodes[was[j]], nodes[i]) > 0
  {
    hide Compare;
    position := i;
    while position > 0
      invariant position <= i
      invariant forall j :: 0 <= j < position ==> order[j] == was[j]
      invariant forall j :: position <= j < i ==> order[j + 1] == was[j]
      invariant forall j :: position <= j < i ==> Compare(nodes[was[j]], nodes[i]) > 0
    {
      if Compare(nodes[order[position - 1]], nodes[i]) <= 0 {
        break;
      }
      order[position] := order[position - 1];
      position := position - 1;
    }
  }

  /** The inner loop, and the node put in its place. */
  method Place(nodes: seq<NodeId>, order: array<nat>, i: nat, ghost was: seq<nat>) returns (position: nat)
    requires i < order.Length && i < |nodes| && was == order[..i] && Indices(nodes, was)
    modifies order
    ensures position <= i
    ensures order[..i + 1] == was[..position] + [i] + was[position..]
    ensures position > 0 ==> Compare(nodes[was[position - 1]], nodes[i]) <= 0
    ensures forall j :: position <= j < i ==> Compare(nodes[was[j]], nodes[i]) > 0
  {
    hide Compare;
    position := ShiftUp(nodes, order, i, was);
    order[position] := i;
    Assembled(order[..], was, position, i);
  }

  lemma Assembled(order: seq<nat>, was: seq<nat>, p: nat, i: nat)
    requires p <= i == |was| < |order| && order[p] == i
    requires forall j :: 0 <= j < p ==> order[j] == was[j]
    requires forall j :: p <= j < i ==> order[j + 1] == was[j]
    ensures order[..i + 1] == was[..p] + [i] + was[p..]
  {
    var l, r := order[..i + 1], was[..p] + [i] + was[p..];
    assert |l| == |r|;
    forall j | 0 <= j < |l| ensures l[j] == r[j] {
      if j > p { assert order[(j - 1) + 1] == was[j - 1]; }
    }
  }

  /** One round of the outer loop. */
  method InsertOne(nodes: seq<NodeId>, order: array<nat>, i: nat)
    requires i < order.Length && i < |nodes| && Indexes(nodes, order[..i], i)
    modifies order
    ensures Indexes(nodes, order[..i + 1], i + 1)
  {
    hide Compare, Sorted, Splits, Range;
    ghost var was := order[..i];
    var position := Place(nodes, order, i, was);
    SplitHere(nodes, was, position, i);
    InsertedIsSorted(nodes, was, position, i);
    RangeGrows(i);
  }

  lemma SplitHere(nodes: seq<NodeId>, order: seq<nat>, p: nat, i: nat)
    requires Indices(nodes, order) && Sorted(nodes, order) && i < |nodes| && p <= |order|
    requires p > 0 ==> Compare(nodes[order[p - 1]], nodes[i]) <= 0
    requires forall j :: p <= j < |order| ==> Compare(nodes[order[j]], nodes[i]) > 0
    ensures Splits(nodes, order, p, i)
  {
    hide Compare;
    forall j | 0 <= j < p ensures Compare(nodes[order[j]], nodes[i]) <= 0 {
      if j < p - 1 { CompareTransitive(nodes[order[j]], nodes[order[p - 1]], nodes[i]); }
    }
  }

  // ----- The binary searches

  lemma StillBelow(x: NodeId, y: NodeId, key: NodeId)
    requires Compare(x, y) <= 0 && Compare(y, key) < 0
    ensures Compare(x, key) < 0
  {
    hide Compare;
    CompareTransitive(x, y, key);
  }

  lemma StillAbove(x: NodeId, y: NodeId, key: NodeId)
    requires Compare(y, x) <= 0 && Compare(y, key) > 0
    ensures Compare(x, key) > 0
  {
    hide Compare;
    CompareIsOrder(y, key);
    if Compare(x, key) <= 0 {
      CompareTransitive(y, x, key);
    }
  }

  ghost predicate Holds(nodes: seq<NodeId>, key: NodeId) {
    exists i :: 0 <= i < |nodes| && Same(nodes[i], key)
  }

  /** A node the order does not tell from the key, or none if there is none. */
  ghost predicate Located(nodes: seq<NodeId>, key: NodeId, r: Option<nat>) {
    if r.Some? then r.value < |nodes| && Same(nodes[r.value], key) else !Holds(nodes, key)
  }

  /** mu_address_space_find_node_indexed. */
  method FindIndexed(nodes: seq<NodeId>, order: array<nat>, count: nat, key: NodeId) returns (r: Option<nat>)
    requires count == |nodes| <= order.Length && Indexes(nodes, order[..count], count)
    ensures Located(nodes, key, r)
  {
    hide Compare, Range;
    ghost var os := order[..count];
    var left, right := 0, count;
    while left < right
      invariant left <= right <= count
      invariant forall j :: 0 <= j < left ==> Compare(nodes[os[j]], key) < 0
      invariant forall j :: right <= j < count ==> Compare(nodes[os[j]], key) > 0
    {
      var mid := left + (right - left) / 2;
      assert os[mid] == order[mid];
      var comparison := Compare(nodes[order[mid]], key);
      if comparison < 0 {
        forall j | 0 <= j < mid ensures Compare(nodes[os[j]], key) < 0 { StillBelow(nodes[os[j]], nodes[os[mid]], key); }
        left := mid + 1;
      } else if comparison > 0 {
        forall j | mid < j < count ensures Compare(nodes[os[j]], key) > 0 { StillAbove(nodes[os[j]], nodes[os[mid]], key); }
        right := mid;
      } else {
        CompareIsOrder(nodes[order[mid]], key);
        return Some(order[mid]);
      }
    }
    forall i | 0 <= i < |nodes| ensures !Same(nodes[i], key) {
      EveryPosition(os, count, i);
      CompareIsOrder(nodes[i], key);
    }
    return None;
  }

  lemma EveryPosition(order: seq<nat>, n: nat, i: nat)
    requires multiset(order) == multiset(Range(n)) && i < n
    ensures i in order
  {
    assert Range(n)[i] == i;
    assert i in multiset(Range(n));
  }

  ghost predicate InOrder(nodes: seq<NodeId>) {
    forall i, j :: 0 <= i < j < |nodes| ==> Compare(nodes[i], nodes[j]) <= 0
  }

  /** mu_address_space_find_node_binary_direct, on a table that is itself in order. */
  method FindDirect(nodes: seq<NodeId>, key: NodeId) returns (r: Option<nat>)
    requires InOrder(nodes)
    ensures Located(nodes, key, r)
  {
    hide Compare;
    var left, right := 0, |nodes|;
    while left < right
      invariant left <= right <= |nodes|
      invariant forall j :: 0 <= j < left ==> Compare(nodes[j], key) < 0
      invariant forall j :: right <= j < |nodes| ==> Compare(nodes[j], key) > 0
    {
      var mid := left + (right - left) / 2;
      var comparison := Compare(nodes[mid], key);
      if comparison < 0 {
        forall j | 0 <= j < mid ensures Compare(nodes[j], key) < 0 { StillBelow(nodes[j], nodes[mid], key); }
        left := mid + 1;
      } else if comparison > 0 {
        forall j | mid < j < |nodes| ensures Compare(nodes[j], key) > 0 { StillAbove(nodes[j], nodes[mid], key); }
        right := mid;
      } else {
        CompareIsOrder(nodes[mid], key);
        return Some(mid);
      }
    }
    forall i | 0 <= i < |nodes| ensures !Same(nodes[i], key) { CompareIsOrder(nodes[i], key); }
    return None;
  }

  /** What a search finds is what the scan finds, for the kinds the scan supports. */
  lemma LocatedIsScanned(nodes: seq<NodeId>, key: NodeId, r: Option<nat>)
    requires Located(nodes, key, r) && Supported(key) && DuplicateFree(nodes)
    ensures r == Scan(nodes, key)
  {
    if r.Some? { assert Equal(nodes[r.value], key); }
  }

  lemma SupportedKinds(key: NodeId)
    ensures Supported(key) <==> key.Numeric? || key.StringId?
  {
  }

  lemma UnscannedKey(nodes: seq<NodeId>, key: NodeId)
    requires !Supported(key)
    ensures Scan(nodes, key) == None
  {
  }

  /** A GUID or an opaque id is found by no scan; the search agrees exactly if no node has its namespace and kind. */
  lemma UnsupportedKeys(nodes: seq<NodeId>, key: NodeId, r: Option<nat>)
    requires Located(nodes, key, r) && !Supported(key)
    ensures Scan(nodes, key) == None
    ensures r == Scan(nodes, key) <==> forall i :: 0 <= i < |nodes| ==> nodes[i].ns != key.ns || Kind(nodes[i]) != Kind(key)
  {
    if r.None? {
      forall i | 0 <= i < |nodes| ensures nodes[i].ns != key.ns || Kind(nodes[i]) != Kind(key) {
        assert !Same(nodes[i], key);
      }
    }
  }

  /** With the node of one GUID in the space, the search for any other GUID of its namespace answers with that node. */
  lemma WrongNodeIsFound(ns: u16, there: seq<byte>, asked: seq<byte>, r: Option<nat>)
    requires there != asked && Located([Guid(ns, there)], Guid(ns, asked), r)
    ensures Guid(ns, asked) !in [Guid(ns, there)] && DuplicateFree([Guid(ns, there)])
    ensures Scan([Guid(ns, there)], Guid(ns, asked)) == None && r == Some(0)
  {
    assert Same([Guid(ns, there)][0], Guid(ns, asked));
  }

  // ----- The cached index

  /** The address spaces there are; a space does not change while it has an index. */
  type Spaces = nat -> seq<NodeId>

  class AddressSpaceIndex {
    const order: array<nat>
    var builtFor: Option<nat>
    var builtCount: nat
    var count: nat
    var indexed: bool

    /** An index in use is an index of the space it was built for. */
    ghost predicate Valid(spaces: Spaces)
      reads this, order
    {
      builtFor.Some? ==>
        var nodes := spaces(builtFor.value);
        && builtCount == |nodes|
        && (indexed <==> Indexable(nodes))
        && (indexed ==> count == |nodes| && Indexes(nodes, order[..count], count))
    }

    /** A space that is not too large for an index. */
    ghost predicate Indexable(nodes: seq<NodeId>) {
      |nodes| <= order.Length && |nodes| <= 0xffff
    }

    constructor (capacity: nat)
      ensures forall spaces :: Valid(spaces)
      ensures fresh(order) && order.Length == capacity
    {
      order := new nat[capacity];
      builtFor, builtCount, count, indexed := None, 0, 0, false;
    }

    /** mu_address_space_rebuild_index. */
    method Rebuild(spaces: Spaces, space: nat)
      modifies this, order
      ensures Valid(spaces) && builtFor == Some(space) && builtCount == |spaces(space)|
      ensures indexed <==> Indexable(spaces(space))
    {
      hide Indexes;
      var nodes := spaces(space);
      builtFor, builtCount, count, indexed := Some(space), |nodes|, 0, false;
      if |nodes| > order.Length || |nodes| > 0xffff {
        return;
      }
      indexed := true;
      NothingIndexed(nodes);
      assert order[..0] == [];
      for i := 0 to |nodes|
        invariant count == i && Indexes(nodes, order[..i], i)
        invariant builtFor == Some(space) && builtCount == |nodes| && indexed
      {
        InsertOne(nodes, order, i);
        count := count + 1;
      }
    }

    /** mu_address_space_find_node with an index: whatever lookups came before, it finds what the scan finds. */
    method Find(spaces: Spaces, space: nat, key: NodeId) returns (r: Option<nat>)
      requires Valid(spaces)
      modifies this, order
      ensures Valid(spaces)
      ensures Supported(key) && DuplicateFree(spaces(space)) ==> r == Scan(spaces(space), key)
      ensures if Indexable(spaces(space)) then Located(spaces(space), key, r) else r == Scan(spaces(space), key)
    {
      hide Indexes, Located, Scan;
      var nodes := spaces(space);
      if builtFor != Some(space) || builtCount != |nodes| {
        Rebuild(spaces, space);
      }
      if !indexed {
        r := FindLinear(nodes, key);
      } else {
        r := FindIndexed(nodes, order, count, key);
        if Supported(key) && DuplicateFree(nodes) { LocatedIsScanned(nodes, key, r); }
      }
    }
  }

  lemma NothingIndexed(nodes: seq<NodeId>)
    ensures Indexes(nodes, [], 0)
  {
  }

  // ----- The layers

  datatype Hit = InUser(index: nat) | InDynamic(index: nat) | InBase(index: nat) | Missing

  /** Where position i of user ++ dynamic ++ base lies. */
  function Layer(users: nat, dynamics: nat, r: Option<nat>): (p: Hit) {
    match r
    case None => Missing
    case Some(i) =>
      if i < users then InUser(i) else if i < users + dynamics then InDynamic(i - users) else InBase(i - users - dynamics)
  }

  lemma {:induction false} ScanConcat(a: seq<NodeId>, b: seq<NodeId>, key: NodeId)
    ensures Scan(a + b, key) ==
      if Scan(a, key).Some? then Scan(a, key)
      else if Scan(b, key).Some? then Some(|a| + Scan(b, key).value) else None
  {
    hide Equal;
    if b == [] {
      assert a + b == a;
    } else {
      var m := |b| - 1;
      assert (a + b)[..|a + b| - 1] == a + b[..m];
      ScanConcat(a, b[..m], key);
    }
  }

  /** The layers in order: the key is where it is said to be, and in no layer before that. */
  predicate FirstMatch(user: seq<NodeId>, dynamic: seq<NodeId>, base: seq<NodeId>, key: NodeId, p: Hit) {
    match p
    case InUser(i) => i < |user| && user[i] == key
    case InDynamic(i) => key !in user && i < |dynamic| && dynamic[i] == key
    case InBase(i) => key !in user && key !in dynamic && i < |base| && base[i] == key
    case Missing => key !in user && key !in dynamic && key !in base
  }

  lemma LayerIsFirstMatch(user: seq<NodeId>, dynamic: seq<NodeId>, base: seq<NodeId>, key: NodeId)
    requires key.Numeric? || key.StringId?
    ensures FirstMatch(user, dynamic, base, key, Layer(|user|, |dynamic|, Scan(user + dynamic + base, key)))
  {
    hide Scan;
    ScanConcat(user + dynamic, base, key);
    ScanConcat(user, dynamic, key);
    ScanFinds(user, key);
    ScanFinds(dynamic, key);
    ScanFinds(base, key);
  }

  /**
   mu_resolve_node: the first match in the user's nodes, then the dynamic ones,
   then the base ones. For a GUID or an opaque id the searches of the user's and
   the base nodes take any node of its namespace and kind.
   */
  method Resolve(spaces: Spaces, user: nat, index: AddressSpaceIndex, dynamic: seq<NodeId>, base: seq<NodeId>, key: NodeId)
    returns (p: Hit)
    requires index.Valid(spaces) && InOrder(base)
    modifies index, index.order
    ensures index.Valid(spaces)
    ensures Supported(key) && DuplicateFree(spaces(user)) && DuplicateFree(base) ==>
      p == Layer(|spaces(user)|, |dynamic|, Scan(spaces(user) + dynamic + base, key))
    ensures (key.Numeric? || key.StringId?) && DuplicateFree(spaces(user)) && DuplicateFree(base) ==> FirstMatch(spaces(user), dynamic, base, key, p)
    ensures !Supported(key) ==>
      && (p.InUser? <==> index.Indexable(spaces(user)) && Holds(spaces(user), key))
      && (p.InBase? <==> !p.InUser? && Holds(base, key))
      && !p.InDynamic?
  {
    hide Scan, DuplicateFree, Same, Indexes, Supported, FirstMatch;
    var nodes := spaces(user);
    if key.Numeric? || key.StringId? { LayerIsFirstMatch(nodes, dynamic, base, key); }
    assert Supported(key) <==> key.Numeric? || key.StringId? by { SupportedKinds(key); }
    if !Supported(key) {
      UnscannedKey(nodes, key);
      UnscannedKey(dynamic, key);
    }
    ScanConcat(nodes + dynamic, base, key);
    ScanConcat(nodes, dynamic, key);
    var r := index.Find(spaces, user, key);
    if r.Some? {
      return InUser(r.value);
    }
    r := FindLinear(dynamic, key);
    if r.Some? {
      return InDynamic(r.value);
    }
    r := FindDirect(base, key);
    if Supported(key) && DuplicateFree(base) { LocatedIsScanned(base, key, r); }
    p := if r.Some? then InBase(r.value) else Missing;
  }
}
