/**
 The client's side of a PublishResponse: reading a NotificationMessage gives
 back its sequence number, its publish time, and handle and value of every
 entry that went in, in order.
 */
module Messages {
  import opened Types
  import opened Wire
  import opened Codec
  import opened Cursors
  import opened Selection
  import opened Notifications
  import opened Publishing
  import opened Responses

  /** Handle and value of each entry of a DataChangeNotification in its extension object. */
  function ReadDataChange(s: seq<byte>): (r: Decoded<seq<(u32, DataValue)>>) {
    match DecNodeId(s)
    case Err(e) => Err(e)
    case Ok(id, k) =>
      if id != Numeric(0, DATA_CHANGE_NOTIFICATION) || k >= |s| || s[k] != 1 then Err(BadDecodingError)
      else match DecI32(s[k + 1..])
        case Err(e) => Err(e)
        case Ok(length, _) => ReadBody(s[k + 5..]).After(k + 5)
  }

  function ReadBody(s: seq<byte>): (r: Decoded<seq<(u32, DataValue)>>) {
    match DecI32(s)
    case Err(e) => Err(e)
    case Ok(n, _) =>
      if n < 0 then Err(BadDecodingError)
      else match DecodeNotices(s[4..], n)
        case Err(e) => Err(e)
        case Ok(v, m) =>
          match DecI32(s[4 + m..])
          case Err(e) => Err(e)
          case Ok(diagnostics, _) => if diagnostics != 0 then Err(BadDecodingError) else Ok(v, 8 + m)
  }

  datatype Note = Note(number: u32, time: i64, changes: Option<seq<(u32, DataValue)>>)

  function ReadMessage(s: seq<byte>): (r: Decoded<Note>) {
    match DecU32(s)
    case Err(e) => Err(e)
    case Ok(number, _) =>
      match DecI64(s[4..])
      case Err(e) => Err(e)
      case Ok(time, _) =>
        match DecI32(s[12..])
        case Err(e) => Err(e)
        case Ok(parts, _) =>
          if parts == 0 then Ok(Note(number, time, None), 16)
          else if parts != 1 then Err(BadDecodingError)
          else match ReadDataChange(s[16..])
            case Err(e) => Err(e)
            case Ok(v, m) => Ok(Note(number, time, Some(v)), 16 + m)
  }

  lemma Dropped(a: seq<byte>, b: seq<byte>)
    ensures (a + b)[|a|..] == b
  {
  }

  lemma BodyRoundTrip(ns: seq<Notice>, rest: seq<byte>)
    requires Sendable(ns) && NoArrays(ns)
    ensures ReadBody(DataChangeBody(ns) + rest) == Ok(Meant(ns), |DataChangeBody(ns)|)
  {
    hide EncI32, DecI32, EncNotices, DecodeNotices, AllEncodable, NoArrays, Meant;
    var n, e, z := EncI32(|ns|), EncNotices(ns), EncI32(0);
    var s := DataChangeBody(ns) + rest;
    assert s == n + (e + (z + rest));
    Length32(|ns|);
    Length32(0);
    I32RoundTrip(|ns|, e + (z + rest));
    Dropped(n, e + (z + rest));
    NoticesRoundTrip(ns, z + rest);
    assert s == (n + e) + (z + rest);
    Dropped(n + e, z + rest);
    I32RoundTrip(0, rest);
  }

  lemma DataChangeRoundTrip(ns: seq<Notice>, rest: seq<byte>)
    requires Sendable(ns) && NoArrays(ns)
    ensures ReadDataChange(DataChange(ns) + rest) == Ok(Meant(ns), |DataChange(ns)|)
  {
    hide EncI32, DecI32, DataChangeBody, EncNodeId, DecNodeId, ReadBody, AllEncodable, NoArrays, Meant;
    var id := EncNodeId(Numeric(0, DATA_CHANGE_NOTIFICATION));
    var body := DataChangeBody(ns);
    var length := EncI32(|body|);
    var s := DataChange(ns) + rest;
    assert s == id + ([1] + (length + (body + rest)));
    NodeIdRoundTrip(Numeric(0, DATA_CHANGE_NOTIFICATION), [1] + (length + (body + rest)));
    assert s == (id + [1]) + (length + (body + rest));
    Dropped(id + [1], length + (body + rest));
    Length32(|body|);
    I32RoundTrip(|body|, body + rest);
    assert s == (id + [1] + length) + (body + rest);
    Dropped(id + [1] + length, body + rest);
    BodyRoundTrip(ns, rest);
  }

  /** What the client reads is what was selected, whatever follows in the response. */
  lemma NotificationRoundTrip(number: u32, time: i64, ns: seq<Notice>, rest: seq<byte>)
    requires Sendable(ns) && NoArrays(ns)
    ensures ReadMessage(Message(number, time, ns) + rest)
      == Ok(Note(number, time, if ns == [] then None else Some(Meant(ns))), |Message(number, time, ns)|)
  {
    hide EncI32, DecI32, EncI64, DecI64, DecU32, LE, DataChange, DataChangeBody, AllEncodable, ReadDataChange, NoArrays, Meant;
    var q, t, p := LE(number, 4), EncI64(time), EncI32(if ns == [] then 0 else 1);
    var d := if ns == [] then [] else DataChange(ns);
    var s := Message(number, time, ns) + rest;
    assert s == q + (t + (p + (d + rest)));
    U32RoundTrip(number, t + (p + (d + rest)));
    Dropped(q, t + (p + (d + rest)));
    Length64(time);
    I64RoundTrip(time, p + (d + rest));
    assert s == (q + t) + (p + (d + rest));
    Dropped(q + t, p + (d + rest));
    Length32(if ns == [] then 0 else 1);
    I32RoundTrip(if ns == [] then 0 else 1, d + rest);
    assert s == (q + t + p) + (d + rest);
    Dropped(q + t + p, d + rest);
    if ns != [] { DataChangeRoundTrip(ns, rest); }
  }

  lemma Length64(v: i64)
    ensures |EncI64(v)| == 8
  {
    hide LE;
  }
}
