/**
 The bookkeeping of the fixed pools: which slots are live, under which ids, for
 which owner, and how ids are handed out. Everything here is about rows, the
 part of a slot the bookkeeping looks at.
 */
module Registry {
  import opened Types

  /** An item's owner is its Subscription; a Subscription's owner is its Session. */
  datatype Row = Row(inUse: bool, id: u32, owner: u32)

  const FREE: Row := Row(false, 0, 0)

  function CountLive(rows: seq<Row>): (r: nat)
    ensures r <= |rows|
  {
    if rows == [] then 0
    else CountLive(rows[..|rows| - 1]) + if rows[|rows| - 1].inUse then 1 else 0
  }

  ghost predicate HasLive(rows: seq<Row>, id: u32) {
    exists i :: 0 <= i < |rows| && rows[i].inUse && rows[i].id == id
  }

  ghost predicate UniqueIds(rows: seq<Row>) {
    && (forall i :: 0 <= i < |rows| && rows[i].inUse ==> rows[i].id != 0)
    && (forall i, j :: 0 <= i < j < |rows| && rows[i].inUse && rows[j].inUse ==> rows[i].id != rows[j].id)
  }

  ghost predicate Owned(items: seq<Row>, subs: seq<Row>) {
    forall i :: 0 <= i < |items| && items[i].inUse ==> HasLive(subs, items[i].owner)
  }

  /** What every operation keeps. */
  ghost predicate Consistent(items: seq<Row>, subs: seq<Row>, active: nat) {
    active == CountLive(items) && UniqueIds(items) && UniqueIds(subs) && Owned(items, subs)
  }

  // ----- Counting

  lemma {:induction false} CountUpdate(rows: seq<Row>, i: nat, r: Row)
    requires i < |rows|
    ensures CountLive(rows[i := r]) == CountLive(rows) - (if rows[i].inUse then 1 else 0) + (if r.inUse then 1 else 0)
  {
    var n := |rows| - 1;
    if i < n {
      assert rows[i := r][..n] == rows[..n][i := r];
      CountUpdate(rows[..n], i, r);
    } else {
      assert rows[i := r][..n] == rows[..n];
    }
  }

  /** Once as many live rows were seen as there are, the rest holds none. */
  lemma {:induction false} AllSeen(rows: seq<Row>, n: nat, i: nat)
    requires n <= i < |rows| && CountLive(rows[..n]) == CountLive(rows)
    ensures !rows[i].inUse
  {
    var m := |rows| - 1;
    assert rows[..m][..n] == rows[..n];
    PrefixGrows(rows[..m], n);
    if i < m {
      AllSeen(rows[..m], n, i);
    }
  }

  lemma {:induction false} PrefixGrows(rows: seq<Row>, m: nat)
    requires m <= |rows|
    ensures CountLive(rows[..m]) <= CountLive(rows)
    decreases |rows| - m
  {
    if m < |rows| {
      assert rows[..m + 1][..m] == rows[..m];
      PrefixGrows(rows, m + 1);
    } else {
      assert rows[..m] == rows;
    }
  }

  // ----- Keeping the pools consistent

  lemma ItemAdded(items: seq<Row>, subs: seq<Row>, active: nat, i: nat, id: u32, owner: u32)
    requires Consistent(items, subs, active) && i < |items| && !items[i].inUse
    requires id != 0 && !HasLive(items, id) && HasLive(subs, owner)
    ensures Consistent(items[i := Row(true, id, owner)], subs, active + 1)
  {
    CountUpdate(items, i, Row(true, id, owner));
  }

  lemma ItemRemoved(items: seq<Row>, subs: seq<Row>, active: nat, i: nat)
    requires Consistent(items, subs, active) && i < |items| && items[i].inUse
    ensures active > 0 && Consistent(items[i := FREE], subs, active - 1)
  {
    CountUpdate(items, i, FREE);
  }

  lemma SubscriptionAdded(items: seq<Row>, subs: seq<Row>, active: nat, i: nat, id: u32, owner: u32)
    requires Consistent(items, subs, active) && i < |subs| && !subs[i].inUse
    requires id != 0 && !HasLive(subs, id)
    ensures Consistent(items, subs[i := Row(true, id, owner)], active)
  {
    var after := subs[i := Row(true, id, owner)];
    forall k | 0 <= k < |items| && items[k].inUse ensures HasLive(after, items[k].owner) {
      var j :| 0 <= j < |subs| && subs[j].inUse && subs[j].id == items[k].owner;
      assert after[j] == subs[j];
    }
  }

  // ----- Handing out ids

  const MAX_ID: nat := 0xFFFF_FFFF

  /** The k-th id tried: counting up from `next`, from the last 32-bit number to 1. */
  function Candidate(next: u32, k: nat): (r: u32)
    ensures r != 0
  {
    ((if next == 0 then 0 else next - 1) + k) % MAX_ID + 1
  }

  lemma CandidateSteps(next: u32, k: nat)
    ensures Candidate(next, 0) == if next == 0 then 1 else next
    ensures Candidate(next, k + 1) == if Candidate(next, k) == MAX_ID then 1 else Candidate(next, k) + 1
  {
  }

  lemma CandidatesDiffer(next: u32, j: nat, k: nat)
    requires j < k < MAX_ID
    ensures Candidate(next, j) != Candidate(next, k)
  {
  }

  /** The first candidate from the k-th on that no live row has; there are as many candidates as rows, and one more. */
  ghost function Fresh(rows: seq<Row>, next: u32, k: nat): (r: Option<u32>)
    requires k <= |rows| + 1
    ensures r.Some? ==> r.value != 0 && !HasLive(rows, r.value)
    decreases |rows| + 1 - k
  {
    if k > |rows| then None
    else if !HasLive(rows, Candidate(next, k)) then Some(Candidate(next, k))
    else Fresh(rows, next, k + 1)
  }

  /** The first means that every candidate before it is taken. */
  lemma {:induction false} FreshIsFirst(rows: seq<Row>, next: u32, k: nat, n: nat)
    requires k <= n <= |rows| && !HasLive(rows, Candidate(next, n))
    requires forall j :: k <= j < n ==> HasLive(rows, Candidate(next, j))
    ensures Fresh(rows, next, k) == Some(Candidate(next, n))
    decreases n - k
  {
    hide HasLive, Candidate;
    if k < n { FreshIsFirst(rows, next, k + 1, n); }
  }

  lemma {:induction false} NoneFresh(rows: seq<Row>, next: u32, k: nat)
    requires k <= |rows| + 1 && forall j :: k <= j <= |rows| ==> HasLive(rows, Candidate(next, j))
    ensures Fresh(rows, next, k) == None
    decreases |rows| + 1 - k
  {
    hide HasLive, Candidate;
    if k <= |rows| { NoneFresh(rows, next, k + 1); }
  }

  lemma {:induction false} FreshAmong(rows: seq<Row>, next: u32, k: nat)
    requires k <= |rows| + 1 && Fresh(rows, next, k).None?
    ensures forall j :: k <= j <= |rows| ==> HasLive(rows, Candidate(next, j))
    decreases |rows| + 1 - k
  {
    hide HasLive, Candidate;
    if k <= |rows| {
      FreshAmong(rows, next, k + 1);
      assert HasLive(rows, Candidate(next, k));
    }
  }

  /** Some candidate is always fresh. */
  lemma SomeFresh(rows: seq<Row>, next: u32)
    requires |rows| < MAX_ID
    ensures Fresh(rows, next, 0).Some?
  {
    hide HasLive, Candidate, Fresh;
    NeverExhausted(rows, next);
    if Fresh(rows, next, 0).None? { FreshAmong(rows, next, 0); }
  }

  /** The counter after an id was handed out. */
  function IdAfter(id: u32): (r: u32) {
    if id == MAX_ID then 1 else (id + 1) % TWO32
  }

  /** Every id the allocator tries is taken. */
  ghost predicate Exhausted(rows: seq<Row>, next: u32) {
    forall k :: 0 <= k <= |rows| ==> HasLive(rows, Candidate(next, k))
  }

  ghost function LiveIds(rows: seq<Row>): (r: set<u32>)
    ensures |r| <= |rows|
    ensures forall id :: HasLive(rows, id) ==> id in r
  {
    if rows == [] then {}
    else
      var n := |rows| - 1;
      assert forall i :: 0 <= i < n ==> rows[..n][i] == rows[i];
      assert forall id :: HasLive(rows, id) ==> HasLive(rows[..n], id) || id == rows[n].id;
      LiveIds(rows[..n]) + {rows[n].id}
  }

  ghost function Tried(next: u32, n: nat): (r: set<u32>)
    requires n <= MAX_ID
    ensures |r| == n
    ensures forall c :: c in r ==> exists k :: 0 <= k < n && c == Candidate(next, k)
  {
    if n == 0 then {}
    else
      assert forall k :: 0 <= k < n - 1 ==> Candidate(next, k) != Candidate(next, n - 1) by {
        forall k: nat | k < n - 1 ensures Candidate(next, k) != Candidate(next, n - 1) { CandidatesDiffer(next, k, n - 1); }
      }
      Tried(next, n - 1) + {Candidate(next, n - 1)}
  }

  lemma {:induction false} SubsetSize(a: set<u32>, b: set<u32>)
    requires a <= b
    ensures |a| <= |b|
  {
    if a != {} {
      var x :| x in a;
      SubsetSize(a - {x}, b - {x});
    }
  }

  /** With one more candidate than slots, some candidate is free. */
  lemma NeverExhausted(rows: seq<Row>, next: u32)
    requires |rows| < MAX_ID
    ensures !Exhausted(rows, next)
  {
    hide HasLive, Candidate;
    if Exhausted(rows, next) {
      var tried := Tried(next, |rows| + 1);
      assert tried <= LiveIds(rows);
      SubsetSize(tried, LiveIds(rows));
    }
  }

  /** subscription_id_in_use, monitored_item_id_in_use. */
  method IdInUse(rows: seq<Row>, id: u32) returns (r: bool)
    ensures r <==> HasLive(rows, id)
  {
    for i := 0 to |rows|
      invariant forall j :: 0 <= j < i ==> !(rows[j].inUse && rows[j].id == id)
    {
      if rows[i].inUse && rows[i].id == id {
        return true;
      }
    }
    return false;
  }

  /** allocate_subscription_id, allocate_monitored_item_id: 0 if every candidate is taken. */
  method AllocateId(rows: seq<Row>, next: u32) returns (id: u32, after: u32)
    requires |rows| < MAX_ID
    ensures id == 0 <==> Fresh(rows, next, 0).None?
    ensures id != 0 ==> Fresh(rows, next, 0) == Some(id) && !HasLive(rows, id) && after == IdAfter(id)
  {
    hide HasLive, Candidate, Fresh;
    after := next;
    for i := 0 to |rows| + 1
      invariant i == 0 ==> after == next
      invariant i > 0 ==> after == Candidate(next, i)
      invariant forall k :: 0 <= k < i ==> HasLive(rows, Candidate(next, k))
    {
      id := after;
      if id == 0 {
        id := 1;
      }
      CandidateSteps(next, i);
      after := (id + 1) % TWO32;
      if after == 0 {
        after := 1;
      }
      var used := IdInUse(rows, id);
      if !used {
        FreshIsFirst(rows, next, 0, i);
        return;
      }
    }
    NoneFresh(rows, next, 0);
    id := 0;
  }

  /** The scan for a free slot; |rows| if there is none. */
  method FirstFree(rows: seq<Row>) returns (slot: nat)
    ensures slot <= |rows| && (forall j :: 0 <= j < slot ==> rows[j].inUse) && (slot < |rows| ==> !rows[slot].inUse)
  {
    slot := 0;
    while slot < |rows| && rows[slot].inUse
      invariant slot <= |rows| && forall j :: 0 <= j < slot ==> rows[j].inUse
    {
      slot := slot + 1;
    }
  }

  predicate Full(rows: seq<Row>) {
    forall j :: 0 <= j < |rows| ==> rows[j].inUse
  }

  /** The first free row. */
  function FreeRow(rows: seq<Row>): (r: Option<nat>)
    ensures r.Some? ==> r.value < |rows| && !rows[r.value].inUse && forall j :: 0 <= j < r.value ==> rows[j].inUse
    ensures r.None? <==> Full(rows)
    decreases |rows|
  {
    if rows == [] then None
    else if !rows[0].inUse then Some(0)
    else match FreeRow(rows[1..])
      case None => None
      case Some(i) => Some(i + 1)
  }

  /** The first free slot and a fresh id for it, as both pools look for them. */
  method PickSlot(rows: seq<Row>, next: u32) returns (found: bool, slot: nat, id: u32, after: u32)
    requires |rows| < MAX_ID
    ensures found <==> FreeRow(rows).Some? && Fresh(rows, next, 0).Some?
    ensures found ==> FreeRow(rows) == Some(slot) && Fresh(rows, next, 0) == Some(id) && after == IdAfter(id)
    ensures FreeRow(rows).None? ==> after == next
  {
    hide HasLive, Fresh, FreeRow;
    after, id := next, 0;
    slot := FirstFree(rows);
    OnlyFree(rows, slot);
    if slot == |rows| {
      return false, slot, id, after;
    }
    id, after := AllocateId(rows, next);
    found := id != 0;
  }

  lemma OnlyFree(rows: seq<Row>, slot: nat)
    requires slot <= |rows| && (forall j :: 0 <= j < slot ==> rows[j].inUse) && (slot < |rows| ==> !rows[slot].inUse)
    ensures FreeRow(rows) == if slot < |rows| then Some(slot) else None
  {
    var r := FreeRow(rows);
    if r.Some? && slot < |rows| {
      assert !(r.value < slot) && !(slot < r.value);
    }
  }

  /** The first slot that holds the row, |rows| if there is none. */
  function Place(rows: seq<Row>, row: Row): (r: nat)
    ensures r <= |rows| && (r < |rows| ==> rows[r] == row) && forall j :: 0 <= j < r ==> rows[j] != row
    ensures r == |rows| <==> row !in rows
    decreases |rows|
  {
    if rows == [] || rows[0] == row then 0 else 1 + Place(rows[1..], row)
  }

  lemma OnlyPlace(rows: seq<Row>, row: Row, slot: nat)
    requires slot <= |rows| && (slot < |rows| ==> rows[slot] == row) && forall j :: 0 <= j < slot ==> rows[j] != row
    ensures Place(rows, row) == slot
  {
    hide Place;
    assert !(Place(rows, row) < slot) && !(slot < Place(rows, row));
  }

  /** mu_subscription_find, and find_monitored_item_in_subscription: |rows| if there is none. */
  method Lookup(rows: seq<Row>, id: u32, owner: u32) returns (slot: nat)
    ensures slot == Place(rows, Row(true, id, owner))
  {
    hide Place;
    slot := 0;
    while slot < |rows|
      invariant slot <= |rows| && forall j :: 0 <= j < slot ==> rows[j] != Row(true, id, owner)
    {
      if rows[slot].inUse && rows[slot].owner == owner && rows[slot].id == id {
        OnlyPlace(rows, Row(true, id, owner), slot);
        return;
      }
      slot := slot + 1;
    }
    OnlyPlace(rows, Row(true, id, owner), slot);
  }

  /** find_monitored_item: the same, but the scan stops once it has seen as many live rows as there are. */
  method LookupActive(rows: seq<Row>, active: nat, id: u32, owner: u32) returns (slot: nat)
    requires active == CountLive(rows)
    ensures slot == Place(rows, Row(true, id, owner))
  {
    hide Place;
    var checked := 0;
    slot := 0;
    while slot < |rows| && checked < active
      invariant slot <= |rows| && checked == CountLive(rows[..slot])
      invariant forall j :: 0 <= j < slot ==> rows[j] != Row(true, id, owner)
    {
      assert rows[..slot + 1][..slot] == rows[..slot];
      if rows[slot].inUse {
        checked := checked + 1;
        if rows[slot].owner == owner && rows[slot].id == id {
          OnlyPlace(rows, Row(true, id, owner), slot);
          return;
        }
      }
      slot := slot + 1;
    }
    PrefixGrows(rows, slot);
    forall j | slot <= j < |rows| ensures !rows[j].inUse { AllSeen(rows, slot, j); }
    slot := |rows|;
    OnlyPlace(rows, Row(true, id, owner), slot);
  }

  lemma FoundIsLive(rows: seq<Row>, i: nat)
    requires i < |rows| && rows[i].inUse
    ensures HasLive(rows, rows[i].id)
  {
  }
}
