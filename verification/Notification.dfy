/**
 The bytes of a data NotificationMessage (section 7.20 of OPC 10000-4): what the
 server writes for a sequence of notices, and what a client reads back.
 */
module Notifications {
  import opened Types
  import opened Wire
  import opened Codec
  import opened Steps
  import opened Cursors
  import opened Ledgers
  import opened ItemStates
  import opened Selection

  /** The DataValue sent for an entry: the status goes along only when it is not Good. */
  function ValueOf(e: Entry): (d: DataValue) {
    DataValue(Some(e.value), if e.status == GOOD then None else Some(e.status), None, None)
  }

  predicate AllEncodable(ns: seq<Notice>) {
    forall i :: 0 <= i < |ns| ==> Encodable(ns[i].entry.value)
  }

  function EncNotice(n: Notice): (r: seq<byte>)
    requires Encodable(n.entry.value)
  {
    LE(n.handle, 4) + EncDataValue(ValueOf(n.entry))
  }

  function EncNotices(ns: seq<Notice>): (r: seq<byte>)
    requires AllEncodable(ns)
  {
    if ns == [] then [] else EncNotice(ns[0]) + EncNotices(ns[1..])
  }

  lemma {:induction false} EncNoticesConcat(a: seq<Notice>, b: seq<Notice>)
    requires AllEncodable(a) && AllEncodable(b)
    ensures AllEncodable(a + b) && EncNotices(a + b) == EncNotices(a) + EncNotices(b)
  {
    hide EncNotice, Encodable;
    assert AllEncodable(a + b);
    if a == [] {
      assert a + b == b;
    } else {
      assert (a + b)[1..] == a[1..] + b && (a + b)[0] == a[0];
      EncNoticesConcat(a[1..], b);
      Regroup(EncNotice(a[0]), EncNotices(a[1..]), EncNotices(b));
    }
  }

  // ----- What the client reads

  /** Client handle and DataValue of each of n notices, decoded one after the other. */
  function DecodeNotices(s: seq<byte>, n: nat): (r: Decoded<seq<(u32, DataValue)>>)
    ensures r.Ok? ==> |r.value| == n && r.used <= |s|
  {
    if n == 0 then Ok([], 0)
    else match DecU32(s)
      case Err(e) => Err(e)
      case Ok(handle, _) =>
        match DecDataValue(s[4..])
        case Err(e) => Err(e)
        case Ok(d, k) =>
          match DecodeNotices(s[4 + k..], n - 1)
          case Err(e) => Err(e)
          case Ok(rest, m) => Ok([(handle, d)] + rest, 4 + k + m)
  }

  function Meant(ns: seq<Notice>): (r: seq<(u32, DataValue)>)
    ensures |r| == |ns|
  {
    if ns == [] then [] else [(ns[0].handle, ValueOf(ns[0].entry))] + Meant(ns[1..])
  }

  predicate NoArrays(ns: seq<Notice>) {
    forall i :: 0 <= i < |ns| ==> !ns[i].entry.value.VArray?
  }

  lemma NoticeRoundTrip(n: Notice, rest: seq<byte>)
    requires Encodable(n.entry.value) && !n.entry.value.VArray?
    ensures var s := EncNotice(n) + rest;
      var d := EncDataValue(ValueOf(n.entry));
      DecU32(s) == Ok(n.handle, 4) && DecDataValue(s[4..]) == Ok(ValueOf(n.entry), |d|)
      && s[4 + |d|..] == rest && |EncNotice(n)| == 4 + |d|
  {
    hide LE, DecDataValue, EncDataValue;
    var h, d := LE(n.handle, 4), EncDataValue(ValueOf(n.entry));
    Regroup(h, d, rest);
    U32RoundTrip(n.handle, d + rest);
    DataValueRoundTrip(ValueOf(n.entry), rest);
    assert (h + (d + rest))[4..] == d + rest;
    assert (h + (d + rest))[4 + |d|..] == rest;
  }

  /** The client reads exactly the notices that were written, and stops where they end. */
  lemma {:induction false} NoticesRoundTrip(ns: seq<Notice>, rest: seq<byte>)
    requires AllEncodable(ns) && NoArrays(ns)
    ensures DecodeNotices(EncNotices(ns) + rest, |ns|) == Ok(Meant(ns), |EncNotices(ns)|)
  {
    hide DecDataValue, DecU32, EncNotice, Encodable, ValueOf;
    if ns == [] {
      assert DecodeNotices(EncNotices(ns) + rest, 0) == Ok([], 0);
    } else {
      var tail := EncNotices(ns[1..]) + rest;
      NoticeRoundTrip(ns[0], tail);
      Regroup(EncNotice(ns[0]), EncNotices(ns[1..]), rest);
      NoticesRoundTrip(ns[1..], rest);
    }
  }

  // ----- The message

  const DATA_CHANGE_NOTIFICATION: u32 := 811
  const PUBLISH_RESPONSE: u32 := 829

  /** Array length, notices, no diagnostics. */
  function DataChangeBody(ns: seq<Notice>): (r: seq<byte>)
    requires AllEncodable(ns) && |ns| < 0x8000_0000
  {
    EncI32(|ns|) + (EncNotices(ns) + EncI32(0))
  }

  /** Type id and binary-body flag of the extension object a DataChangeNotification travels in. */
  function DataChangeHeader(): (r: seq<byte>) {
    EncNodeId(Numeric(0, DATA_CHANGE_NOTIFICATION)) + [1]
  }

  function DataChange(ns: seq<Notice>): (r: seq<byte>)
    requires AllEncodable(ns) && |ns| < 0x8000_0000 && |DataChangeBody(ns)| < 0x8000_0000
  {
    DataChangeHeader() + EncI32(|DataChangeBody(ns)|) + DataChangeBody(ns)
  }

  // ----- The steps they are written in

  function NoticeSteps(n: Notice): (r: seq<Step>) {
    [Put(LE(n.handle, 4))] + DataValueSteps(ValueOf(n.entry))
  }

  function NoticesSteps(ns: seq<Notice>): (r: seq<Step>) {
    if ns == [] then [] else NoticesSteps(ns[..|ns| - 1]) + NoticeSteps(ns[|ns| - 1])
  }

  function BodySteps(ns: seq<Notice>): (r: seq<Step>)
    requires |ns| < 0x8000_0000
  {
    [Put(EncI32(|ns|))] + (NoticesSteps(ns) + [Put(EncI32(0))])
  }

  function HeaderSteps(): (r: seq<Step>) {
    NodeIdSteps(Numeric(0, DATA_CHANGE_NOTIFICATION)) + [Put([1])]
  }

  /** The length is a placeholder at first. */
  function DataChangeSteps(ns: seq<Notice>): (r: seq<Step>)
    requires |ns| < 0x8000_0000
  {
    HeaderSteps() + [Put(EncI32(0))] + BodySteps(ns)
  }

  lemma {:induction false} NoticesStepsConcat(a: seq<Notice>, b: seq<Notice>)
    ensures NoticesSteps(a + b) == NoticesSteps(a) + NoticesSteps(b)
  {
    hide NoticeSteps;
    if b == [] {
      assert a + b == a;
    } else {
      var m := |b| - 1;
      assert (a + b)[..|a + b| - 1] == a + b[..m] && (a + b)[|a + b| - 1] == b[m];
      NoticesStepsConcat(a, b[..m]);
      assert (NoticesSteps(a) + NoticesSteps(b[..m])) + NoticeSteps(b[m]) == NoticesSteps(a) + (NoticesSteps(b[..m]) + NoticeSteps(b[m]));
    }
  }

  lemma NoticeSpelt(n: Notice)
    ensures Spell(NoticeSteps(n), Encodable(n.entry.value), if Encodable(n.entry.value) then EncNotice(n) else [])
  {
    hide Spell, LE, DataValueSteps, EncDataValue, Encodable;
    var d := ValueOf(n.entry);
    var ok := Encodable(n.entry.value);
    var h, x := LE(n.handle, 4), if ok then EncDataValue(d) else [];
    SpellPut(h);
    DataValueSpelt(d);
    SpellConcat([Put(h)], DataValueSteps(d), true, ok, h, x);
    RefusedBytes(NoticeSteps(n), ok, h + x);
  }

  lemma {:induction false} EncNoticesAppend(ns: seq<Notice>, n: Notice)
    requires AllEncodable(ns) && Encodable(n.entry.value)
    ensures AllEncodable(ns + [n]) && EncNotices(ns + [n]) == EncNotices(ns) + EncNotice(n)
  {
    hide EncNotice, Encodable;
    assert [n][1..] == [];
    assert EncNotices([n]) == EncNotice(n) + EncNotices([n][1..]);
    assert EncNotice(n) + [] == EncNotice(n);
    EncNoticesConcat(ns, [n]);
  }

  lemma {:induction false} NoticesSpelt(ns: seq<Notice>)
    ensures Spell(NoticesSteps(ns), AllEncodable(ns), if AllEncodable(ns) then EncNotices(ns) else [])
  {
    hide Spell, NoticeSteps, EncNotice, Encodable;
    if ns == [] {
      SpellNothing();
    } else {
      var m := |ns| - 1;
      var a, n := ns[..m], ns[m];
      NoticesSpelt(a);
      NoticeSpelt(n);
      var ok := Encodable(n.entry.value);
      var x, y := if AllEncodable(a) then EncNotices(a) else [], if ok then EncNotice(n) else [];
      SpellConcat(NoticesSteps(a), NoticeSteps(n), AllEncodable(a), ok, x, y);
      RefusedBytes(NoticesSteps(ns), AllEncodable(a) && ok, x + y);
      assert a + [n] == ns;
      if AllEncodable(a) && ok { EncNoticesAppend(a, n); }
      assert AllEncodable(ns) ==> AllEncodable(a) && ok;
    }
  }

  lemma BodySpelt(ns: seq<Notice>)
    requires |ns| < 0x8000_0000
    ensures Spell(BodySteps(ns), AllEncodable(ns), if AllEncodable(ns) then DataChangeBody(ns) else [])
  {
    hide Spell, EncI32, NoticesSteps, EncNotices, AllEncodable;
    var ok := AllEncodable(ns);
    var n, x, z := EncI32(|ns|), if ok then EncNotices(ns) else [], EncI32(0);
    SpellPut(n);
    SpellPut(z);
    NoticesSpelt(ns);
    SpellConcat(NoticesSteps(ns), [Put(z)], ok, true, x, z);
    SpellConcat([Put(n)], NoticesSteps(ns) + [Put(z)], true, ok, n, x + z);
    RefusedBytes(BodySteps(ns), ok, n + (x + z));
  }

  lemma HeaderSpelt()
    ensures Spell(HeaderSteps(), true, DataChangeHeader())
  {
    hide Spell, EncNodeId, NodeIdSteps;
    var id := Numeric(0, DATA_CHANGE_NOTIFICATION);
    NodeIdSpelt(id);
    SpellPut([1]);
    SpellConcat(NodeIdSteps(id), [Put([1])], true, true, EncNodeId(id), [1]);
  }

  /** Header, placeholder and body, as they stand before the length is patched in. */
  function Unpatched(ns: seq<Notice>): (r: seq<byte>)
    requires |ns| < 0x8000_0000 && AllEncodable(ns)
  {
    DataChangeHeader() + EncI32(0) + DataChangeBody(ns)
  }

  lemma DataChangeSpelt(ns: seq<Notice>)
    requires |ns| < 0x8000_0000
    ensures Spell(DataChangeSteps(ns), AllEncodable(ns), if AllEncodable(ns) then Unpatched(ns) else [])
  {
    hide Spell, EncI32, HeaderSteps, DataChangeHeader, BodySteps, DataChangeBody, AllEncodable;
    var ok := AllEncodable(ns);
    var h, z, x := DataChangeHeader(), EncI32(0), if ok then DataChangeBody(ns) else [];
    HeaderSpelt();
    SpellPut(z);
    BodySpelt(ns);
    SpellConcat(HeaderSteps(), [Put(z)], true, true, h, z);
    SpellConcat(HeaderSteps() + [Put(z)], BodySteps(ns), true, ok, h + z, x);
    RefusedBytes(DataChangeSteps(ns), ok, h + z + x);
  }
}
