/**
 The cleartext header of an OpenSecureChannel chunk: message type, MessageSize,
 SecureChannelId, and the asymmetric security header with the policy's URI, the
 sender's certificate and the receiver's thumbprint.
 */
module OpnHeaders {
  import opened Types
  import opened Wire
  import opened Codec
  import opened Steps
  import opened Cursors

  function UriText(p: Policy): (r: string) {
    match p
    case NoPolicy => "http://opcfoundation.org/UA/SecurityPolicy#None"
    case Basic256Sha256 => "http://opcfoundation.org/UA/SecurityPolicy#Basic256Sha256"
    case Aes128Oaep => "http://opcfoundation.org/UA/SecurityPolicy#Aes128_Sha256_RsaOaep"
    case Aes256Pss => "http://opcfoundation.org/UA/SecurityPolicy#Aes256_Sha256_RsaPss"
  }

  function Ascii(s: string): (r: seq<byte>)
    ensures |r| == |s|
  {
    seq(|s|, i requires 0 <= i < |s| => s[i] as int % 256)
  }

  function Uri(p: Policy): (r: seq<byte>)
    ensures |r| == UriLength(p)
  {
    Ascii(UriText(p))
  }

  function UriLength(p: Policy): (r: nat)
    ensures 0 < r <= 64
  {
    match p
    case NoPolicy => 47
    case Basic256Sha256 => 57
    case Aes128Oaep => 64
    case Aes256Pss => 63
  }

  /** mu_security_policy_from_uri. */
  function FromUri(u: UaString): (r: Option<Policy>) {
    if u.Null? || |u.bytes| == 0 || u.bytes == Uri(NoPolicy) then Some(NoPolicy)
    else if u.bytes == Uri(Basic256Sha256) then Some(Basic256Sha256)
    else if u.bytes == Uri(Aes128Oaep) then Some(Aes128Oaep)
    else if u.bytes == Uri(Aes256Pss) then Some(Aes256Pss)
    else None
  }

  lemma UriNamesPolicy(p: Policy)
    ensures FromUri(UaString.Bytes(Uri(p))) == Some(p)
  {
    hide Uri;
  }

  /** The URIs of the policies are the standard's, and no other names one; none at all, or an empty one, means None. */
  lemma UrisExactly(u: UaString)
    ensures FromUri(Null) == Some(NoPolicy) && FromUri(UaString.Bytes([])) == Some(NoPolicy)
    ensures u.Bytes? && u.bytes != [] ==> (FromUri(u) == Some(NoPolicy) <==> u.bytes == Ascii("http://opcfoundation.org/UA/SecurityPolicy#None"))
    ensures FromUri(u) == Some(Basic256Sha256) <==> u == UaString.Bytes(Ascii("http://opcfoundation.org/UA/SecurityPolicy#Basic256Sha256"))
    ensures FromUri(u) == Some(Aes128Oaep) <==> u == UaString.Bytes(Ascii("http://opcfoundation.org/UA/SecurityPolicy#Aes128_Sha256_RsaOaep"))
    ensures FromUri(u) == Some(Aes256Pss) <==> u == UaString.Bytes(Ascii("http://opcfoundation.org/UA/SecurityPolicy#Aes256_Sha256_RsaPss"))
  {
    hide Ascii;
  }

  // ----- The header as bytes

  function HeaderTail(p: Policy, certificate: UaString, thumbprint: UaString): (r: seq<byte>)
    requires EncodableString(certificate) && EncodableString(thumbprint)
  {
    EncString(UaString.Bytes(Uri(p))) + (EncString(certificate) + EncString(thumbprint))
  }

  /** "OPNF", MessageSize, SecureChannelId, and the asymmetric security header. */
  function OpnHeader(p: Policy, channel: u32, certificate: UaString, thumbprint: UaString, total: nat): (r: seq<byte>)
    requires EncodableString(certificate) && EncodableString(thumbprint)
    ensures |r| == 12 + |HeaderTail(p, certificate, thumbprint)|
  {
    [79, 80, 78, 70] + LE(total, 4) + LE(channel, 4) + HeaderTail(p, certificate, thumbprint)
  }

  // ----- The header as steps

  const OPNF: seq<byte> := [79, 80, 78, 70]

  function TailSteps(p: Policy, certificate: UaString, thumbprint: UaString): (r: seq<Step>) {
    StringSteps(UaString.Bytes(Uri(p))) + (StringSteps(certificate) + StringSteps(thumbprint))
  }

  /** write_header after the message type, with a zero for the MessageSize. */
  function HeaderSteps(p: Policy, channel: u32, certificate: UaString, thumbprint: UaString): (r: seq<Step>) {
    [Put(LE(0, 4))] + ([Put(LE(channel, 4))] + TailSteps(p, certificate, thumbprint))
  }

  function HeaderStatus(p: Policy, channel: u32, certificate: UaString, thumbprint: UaString, capacity: nat): (r: Status) {
    Lay(Pen(Good, OPNF, capacity), HeaderSteps(p, channel, certificate, thumbprint)).1
  }

  lemma TailSpelt(p: Policy, certificate: UaString, thumbprint: UaString)
    ensures Spell(TailSteps(p, certificate, thumbprint), EncodableString(certificate) && EncodableString(thumbprint),
                  if EncodableString(certificate) && EncodableString(thumbprint) then HeaderTail(p, certificate, thumbprint) else [])
  {
    hide Spell, Uri, EncString, StringSteps;
    var uri := UaString.Bytes(Uri(p));
    StringSpelt(uri);
    StringSpelt(certificate);
    StringSpelt(thumbprint);
    var c, t := if EncodableString(certificate) then EncString(certificate) else [], if EncodableString(thumbprint) then EncString(thumbprint) else [];
    SpellConcat(StringSteps(certificate), StringSteps(thumbprint), EncodableString(certificate), EncodableString(thumbprint), c, t);
    SpellConcat(StringSteps(uri), StringSteps(certificate) + StringSteps(thumbprint), true, EncodableString(certificate) && EncodableString(thumbprint),
                EncString(uri), c + t);
    if !(EncodableString(certificate) && EncodableString(thumbprint)) {
      SpellUnfit(TailSteps(p, certificate, thumbprint), EncString(uri) + (c + t), []);
    }
  }

  /** What refused steps would have written does not matter. */
  lemma SpellUnfit(steps: seq<Step>, x: seq<byte>, y: seq<byte>)
    requires Spell(steps, false, x)
    ensures Spell(steps, false, y)
  {
  }

  lemma HeaderSpelt(p: Policy, channel: u32, certificate: UaString, thumbprint: UaString)
    ensures var ok := EncodableString(certificate) && EncodableString(thumbprint);
      Spell(HeaderSteps(p, channel, certificate, thumbprint), ok, LE(0, 4) + (LE(channel, 4) + if ok then HeaderTail(p, certificate, thumbprint) else []))
  {
    hide Spell, LE, HeaderTail, TailSteps;
    var ok := EncodableString(certificate) && EncodableString(thumbprint);
    var tail := if ok then HeaderTail(p, certificate, thumbprint) else [];
    TailSpelt(p, certificate, thumbprint);
    SpellPut(LE(0, 4));
    SpellPut(LE(channel, 4));
    SpellConcat([Put(LE(channel, 4))], TailSteps(p, certificate, thumbprint), true, ok, LE(channel, 4), tail);
    SpellConcat([Put(LE(0, 4))], [Put(LE(channel, 4))] + TailSteps(p, certificate, thumbprint), true, ok, LE(0, 4), LE(channel, 4) + tail);
  }

  /** The header is written exactly if both strings can be encoded and everything fits; then it is the header. */
  lemma HeaderLaid(p: Policy, channel: u32, certificate: UaString, thumbprint: UaString, capacity: nat, q: Pen, s: Status)
    requires capacity >= 4 && Laid(Pen(Good, OPNF, capacity), q, s, HeaderSteps(p, channel, certificate, thumbprint))
    ensures s == HeaderStatus(p, channel, certificate, thumbprint, capacity)
    ensures s == Good <==>
      EncodableString(certificate) && EncodableString(thumbprint) && 12 + |HeaderTail(p, certificate, thumbprint)| <= capacity
    ensures s == Good ==> q == Pen(Good, OpnHeader(p, channel, certificate, thumbprint, 0), capacity)
  {
    hide Lay, Lead, LE, HeaderTail, TailSteps, HeaderSteps, Reason;
    var steps := HeaderSteps(p, channel, certificate, thumbprint);
    var start := Pen(Good, OPNF, capacity);
    HeaderSpelt(p, channel, certificate, thumbprint);
    LayStatus(start, steps);
    CleanReason(steps);
    LayWritten(start, steps);
    if s == Good {
      var tail := HeaderTail(p, certificate, thumbprint);
      assert OPNF + (LE(0, 4) + (LE(channel, 4) + tail)) == OPNF + LE(0, 4) + LE(channel, 4) + tail;
    }
  }

  lemma HeaderWrites(p: Policy, channel: u32, certificate: UaString, thumbprint: UaString, capacity: nat)
    requires capacity >= 4
    ensures HeaderStatus(p, channel, certificate, thumbprint, capacity) == Good <==>
      EncodableString(certificate) && EncodableString(thumbprint) && 12 + |HeaderTail(p, certificate, thumbprint)| <= capacity
  {
    hide Lay, HeaderSteps, HeaderTail;
    var l := Lay(Pen(Good, OPNF, capacity), HeaderSteps(p, channel, certificate, thumbprint));
    HeaderLaid(p, channel, certificate, thumbprint, capacity, l.0, l.1);
  }

  // ----- Writing it

  method WriteTail(w: BinaryWriter, p: Policy, certificate: UaString, thumbprint: UaString) returns (s: Status)
    requires w.Valid()
    modifies w, w.buffer
    ensures w.Valid() && Laid(old(w.View()), w.View(), s, TailSteps(p, certificate, thumbprint))
  {
    hide Laid, StringSteps, Uri, BinaryWriter.View;
    ghost var start := w.View();
    s := w.WriteString(UaString.Bytes(Uri(p)));
    ghost var q, t := w.View(), s;
    ghost var r, u := q, t;
    if s == Good {
      s := w.WriteString(certificate);
      r, u := w.View(), s;
      if s == Good { s := w.WriteString(thumbprint); }
      LaidThen(q, r, w.View(), StringSteps(certificate), u, StringSteps(thumbprint), s);
    }
    LaidThen(start, q, w.View(), StringSteps(UaString.Bytes(Uri(p))), t, StringSteps(certificate) + StringSteps(thumbprint), s);
  }

  /** A writer that has the message type behind it. */
  method StartOpn(out: array<byte>) returns (w: BinaryWriter)
    requires out.Length >= 4
    modifies out
    ensures fresh(w) && w.buffer == out && w.Valid() && w.View() == Pen(Good, OPNF, out.Length)
  {
    out[0], out[1], out[2], out[3] := 79, 80, 78, 70;
    w := new BinaryWriter(out);
    w.position := 4;
  }

  /** write_header, which checks no room for the message type. */
  method WriteHeader(out: array<byte>, p: Policy, channel: u32, certificate: UaString, thumbprint: UaString) returns (s: Status, w: BinaryWriter)
    requires out.Length >= 4
    modifies out
    ensures fresh(w) && w.buffer == out && w.Valid()
    ensures Laid(Pen(Good, OPNF, out.Length), w.View(), s, HeaderSteps(p, channel, certificate, thumbprint))
  {
    hide LE, Laid, TailSteps, BinaryWriter.View;
    w := StartOpn(out);
    ghost var start := w.View();
    s := w.WriteU32(0);
    ghost var q, t := w.View(), s;
    if s == Good {
      s := w.WriteU32(channel);
      ghost var r, u := w.View(), s;
      if s == Good { s := WriteTail(w, p, certificate, thumbprint); }
      LaidThen(q, r, w.View(), [Put(LE(channel, 4))], u, TailSteps(p, certificate, thumbprint), s);
    }
    LaidThen(start, q, w.View(), [Put(LE(0, 4))], t, [Put(LE(channel, 4))] + TailSteps(p, certificate, thumbprint), s);
  }

  /** The header in the output, or the reason it could not be written. */
  method WriteOpnHeader(out: array<byte>, p: Policy, channel: u32, certificate: UaString, thumbprint: UaString) returns (s: Status)
    requires out.Length >= 4
    modifies out
    ensures s == HeaderStatus(p, channel, certificate, thumbprint, out.Length)
    ensures s == Good ==>
      EncodableString(certificate) && EncodableString(thumbprint) &&
      var header := OpnHeader(p, channel, certificate, thumbprint, 0);
      |header| <= out.Length && out[..|header|] == header
  {
    hide HeaderSteps, HeaderTail, HeaderStatus, Laid, BinaryWriter.View;
    var w;
    s, w := WriteHeader(out, p, channel, certificate, thumbprint);
    HeaderLaid(p, channel, certificate, thumbprint, out.Length, w.View(), s);
    Written(w);
  }

  // ----- Without security

  /** wrap_none up to the body: the header without certificate and thumbprint, and the two numbers. */
  function PlainSteps(channel: u32, number: u32, request: u32): (r: seq<Step>) {
    HeaderSteps(NoPolicy, channel, Null, Null) + ([Put(LE(number, 4))] + [Put(LE(request, 4))])
  }

  lemma PlainLaid(channel: u32, number: u32, request: u32, capacity: nat, q: Pen, s: Status)
    requires capacity >= 4 && Laid(Pen(Good, OPNF, capacity), q, s, PlainSteps(channel, number, request))
    ensures s == if 20 + |HeaderTail(NoPolicy, Null, Null)| <= capacity then Good else BadEncodingError
    ensures s == Good ==> q == Pen(Good, OpnHeader(NoPolicy, channel, Null, Null, 0) + (LE(number, 4) + LE(request, 4)), capacity)
  {
    hide Lay, Lead, LE, HeaderTail, HeaderSteps, Clean;
    var steps := PlainSteps(channel, number, request);
    var start, tail := Pen(Good, OPNF, capacity), HeaderTail(NoPolicy, Null, Null);
    var h := LE(0, 4) + (LE(channel, 4) + tail);
    HeaderSpelt(NoPolicy, channel, Null, Null);
    SpellPut(LE(number, 4));
    SpellPut(LE(request, 4));
    SpellConcat([Put(LE(number, 4))], [Put(LE(request, 4))], true, true, LE(number, 4), LE(request, 4));
    SpellConcat(HeaderSteps(NoPolicy, channel, Null, Null), [Put(LE(number, 4))] + [Put(LE(request, 4))], true, true, h, LE(number, 4) + LE(request, 4));
    LayClean(start, steps);
    if s == Good {
      assert OPNF + (h + (LE(number, 4) + LE(request, 4))) == (OPNF + LE(0, 4) + LE(channel, 4) + tail) + (LE(number, 4) + LE(request, 4));
    }
  }

  method WritePlainHeader(out: array<byte>, channel: u32, number: u32, request: u32) returns (s: Status, length: nat)
    requires out.Length >= 4
    modifies out
    ensures s == if 20 + |HeaderTail(NoPolicy, Null, Null)| <= out.Length then Good else BadEncodingError
    ensures s == Good ==> length <= out.Length && out[..length] == OpnHeader(NoPolicy, channel, Null, Null, 0) + (LE(number, 4) + LE(request, 4))
  {
    hide LE, Laid, HeaderSteps, HeaderTail, OpnHeader, BinaryWriter.View;
    var w;
    s, w := WriteHeader(out, NoPolicy, channel, Null, Null);
    ghost var q, t := w.View(), s;
    if s == Good {
      s := w.WriteU32(number);
      ghost var r, u := w.View(), s;
      if s == Good { s := w.WriteU32(request); }
      LaidThen(q, r, w.View(), [Put(LE(number, 4))], u, [Put(LE(request, 4))], s);
    }
    LaidThen(Pen(Good, OPNF, out.Length), q, w.View(), HeaderSteps(NoPolicy, channel, Null, Null), t, [Put(LE(number, 4))] + [Put(LE(request, 4))], s);
    PlainLaid(channel, number, request, out.Length, w.View(), s);
    length := w.position;
    Written(w);
  }

  lemma Written(w: BinaryWriter)
    requires w.Valid()
    ensures w.View().written == w.buffer[..w.position]
  {
  }
}
