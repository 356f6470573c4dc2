/**
 Symmetric chunk protection (section 6.7.2 of OPC 10000-6), with HMAC and AES as
 functions: the bytes of a protected chunk, the reader's checks, and that the
 reader gets back what was wrapped.
 */
module SymChunk {
  import opened Types
  import opened Wire

  datatype Attempt<T> = Done(value: T) | Failed(status: Status)

  type Bytes = seq<byte>

  datatype Cipher = Cipher(encrypt: Bytes -> Attempt<Bytes>, decrypt: Bytes -> Attempt<Bytes>)

  /** The policy and the keyed operations; an adapter may come without AES-128. */
  datatype SymKeys = SymKeys(policy: Policy, mac: Bytes -> Attempt<Bytes>, aes128: Option<Cipher>, aes256: Cipher)

  const HEADER: nat := 16
  const SIGNATURE: nat := 32
  const BLOCK: nat := 16

  function CipherOf(k: SymKeys): (r: Option<Cipher>) {
    if k.policy == Aes128Oaep then k.aes128 else Some(k.aes256)
  }

  /** Both directions keep the length or fail with a bad status, and decryption undoes encryption of whole blocks. */
  ghost predicate LawfulCipher(c: Cipher) {
    && (forall x :: if c.encrypt(x).Done? then |c.encrypt(x).value| == |x| else c.encrypt(x).status != Good)
    && (forall x :: if c.decrypt(x).Done? then |c.decrypt(x).value| == |x| else c.decrypt(x).status != Good)
    && (forall x :: |x| % BLOCK == 0 && c.encrypt(x).Done? ==> c.decrypt(c.encrypt(x).value) == Done(x))
  }

  ghost predicate Lawful(k: SymKeys) {
    && (forall x :: if k.mac(x).Done? then |k.mac(x).value| == SIGNATURE else k.mac(x).status != Good)
    && (CipherOf(k).Some? ==> LawfulCipher(CipherOf(k).value))
  }

  datatype Mode = NoSecurity | Sign | SignAndEncrypt

  datatype Fields = Fields(kind: Bytes, channel: u32, token: u32, number: u32, request: u32)

  // ----- The bytes

  function Header(f: Fields, total: nat): (r: Bytes)
    requires |f.kind| == 3
    ensures |r| == HEADER
  {
    f.kind + [70] + LE(total, 4) + LE(f.channel, 4) + LE(f.token, 4)
  }

  function SeqBody(f: Fields, body: Bytes): (r: Bytes)
    ensures |r| == 8 + |body|
  {
    LE(f.number, 4) + LE(f.request, 4) + body
  }

  /** How many padding bytes bring n to a whole number of blocks. */
  function PadCount(n: nat): (r: nat)
    ensures r < BLOCK && (n + r) % BLOCK == 0
  {
    PadFills(n);
    (BLOCK - n % BLOCK) % BLOCK
  }

  lemma PadFills(n: nat)
    ensures (n + (16 - n % 16) % 16) % 16 == 0
  {
    var q, t := n / 16, n % 16;
    assert n == 16 * q + t;
    if t == 0 {
      assert (16 - t) % 16 == 0;
    } else {
      assert (16 - t) % 16 == 16 - t && n + (16 - t) == 16 * (q + 1);
    }
  }

  function Repeat(v: byte, n: nat): (r: Bytes)
    ensures |r| == n && forall i :: 0 <= i < n ==> r[i] == v
  {
    seq(n, _ => v)
  }

  /** PaddingSize, then that many bytes of the same value. */
  function Padding(pad: byte): (r: Bytes)
    ensures |r| == pad + 1
  {
    [pad] + Repeat(pad, pad)
  }

  function SignedTotal(body: Bytes): (r: nat) {
    HEADER + 8 + |body| + SIGNATURE
  }

  function EncryptedLength(body: Bytes): (r: nat)
    ensures r % BLOCK == 0 && r > 0
  {
    var base := 8 + |body| + 1 + SIGNATURE;
    base + PadCount(base)
  }

  /** What is signed when the chunk is encrypted as well. */
  function Plain(f: Fields, body: Bytes): (r: Bytes)
    ensures |r| == EncryptedLength(body) - SIGNATURE
  {
    SeqBody(f, body) + Padding(PadCount(8 + |body| + 1 + SIGNATURE))
  }

  function WrappedSigned(k: SymKeys, f: Fields, body: Bytes): (r: Attempt<Bytes>)
    requires |f.kind| == 3
  {
    var signed := Header(f, SignedTotal(body)) + SeqBody(f, body);
    match k.mac(signed)
    case Failed(s) => Failed(s)
    case Done(m) => Done(signed + m)
  }

  function WrappedEncrypted(k: SymKeys, f: Fields, body: Bytes): (r: Attempt<Bytes>)
    requires |f.kind| == 3
  {
    var header := Header(f, HEADER + EncryptedLength(body));
    match k.mac(header + Plain(f, body))
    case Failed(s) => Failed(s)
    case Done(m) =>
      if CipherOf(k).None? then Failed(BadInternalError)
      else match CipherOf(k).value.encrypt(Plain(f, body) + m)
        case Failed(s) => Failed(s)
        case Done(c) => Done(header + c)
  }

  /** The chunk for a body, or the status with which wrapping fails. */
  function Wrapped(k: SymKeys, mode: Mode, f: Fields, body: Bytes, capacity: nat): (r: Attempt<Bytes>)
    requires |f.kind| == 3
  {
    match mode
    case NoSecurity => Failed(BadSecurityModeRejected)
    case Sign => if SignedTotal(body) > capacity then Failed(BadResponseTooLarge) else WrappedSigned(k, f, body)
    case SignAndEncrypt => if HEADER + EncryptedLength(body) > capacity then Failed(BadResponseTooLarge) else WrappedEncrypted(k, f, body)
  }

  // ----- Reading

  predicate PaddedWith(s: Bytes, pad: nat) {
    pad < |s| && forall j :: |s| - 1 - pad <= j < |s| - 1 ==> s[j] == pad
  }

  /** The message with its encrypted part decrypted, before any check of its contents. */
  function Opened(k: SymKeys, mode: Mode, chunk: Bytes): (r: Attempt<Bytes>)
    requires Lawful(k)
    ensures r.Done? ==> HEADER <= |r.value| <= |chunk| && |r.value| == FromLE(chunk[4..8])
  {
    if |chunk| < HEADER then Failed(BadDecodingError)
    else
      var size := FromLE(chunk[4..8]);
      if size > |chunk| || size < HEADER then Failed(BadDecodingError)
      else match mode
        case NoSecurity => Failed(BadSecurityModeRejected)
        case Sign => Done(chunk[..size])
        case SignAndEncrypt =>
          if size == HEADER || (size - HEADER) % BLOCK != 0 then Failed(BadDecodingError)
          else if CipherOf(k).None? then Failed(BadInternalError)
          else match CipherOf(k).value.decrypt(chunk[HEADER..size])
            case Failed(s) => Failed(s)
            case Done(p) => Done(chunk[..HEADER] + p)
  }

  /** The body of an opened message, once its signature and padding are in order. */
  function Checked(k: SymKeys, mode: Mode, m: Bytes): (r: Attempt<Bytes>)
    requires |m| >= HEADER
  {
    if |m| < HEADER + 8 + SIGNATURE then Failed(BadDecodingError)
    else
      var end := |m| - SIGNATURE;
      match k.mac(m[..end])
      case Failed(s) => Failed(s)
      case Done(mac) =>
        if mac != m[end..] then Failed(BadSecurityChecksFailed)
        else if mode != SignAndEncrypt then Done(m[HEADER + 8..end])
        else
          var pad := m[end - 1];
          if end < HEADER + 8 + 1 + pad || !PaddedWith(m[..end], pad) then Failed(BadSecurityChecksFailed)
          else Done(m[HEADER + 8..end - 1 - pad])
  }

  function FieldsOf(m: Bytes): (r: Fields)
    requires |m| >= HEADER + 8
  {
    Fields(m[..3], FromLE(m[8..12]), FromLE(m[12..16]), FromLE(m[16..20]), FromLE(m[20..24]))
  }

  /** mu_sym_chunk_unwrap on values. */
  function Unwrapped(k: SymKeys, mode: Mode, chunk: Bytes): (r: Attempt<(Fields, Bytes)>)
    requires Lawful(k)
  {
    match Opened(k, mode, chunk)
    case Failed(s) => Failed(s)
    case Done(m) =>
      match Checked(k, mode, m)
      case Failed(s) => Failed(s)
      case Done(body) => Done((FieldsOf(m), body))
  }

  // ----- There and back

  lemma Sliced(a: Bytes, b: Bytes, c: Bytes)
    ensures (a + b + c)[|a|..|a| + |b|] == b
  {
  }

  lemma FourBytes(a: Bytes, v: u32, c: Bytes)
    ensures var s := a + LE(v, 4) + c; |s| >= |a| + 4 && FromLE(s[|a|..|a| + 4]) == v
  {
    hide LE, FromLE;
    Sliced(a, LE(v, 4), c);
    Pow256Values();
    LEInverse(v, 4);
  }

  /** The header's fields, wherever the header is the start of. */
  lemma HeaderFields(f: Fields, total: u32, rest: Bytes)
    requires |f.kind| == 3
    ensures var s := Header(f, total) + rest;
      s[..3] == f.kind && FromLE(s[4..8]) == total && FromLE(s[8..12]) == f.channel && FromLE(s[12..16]) == f.token
  {
    hide LE, FromLE;
    var t, c, k := LE(total, 4), LE(f.channel, 4), LE(f.token, 4);
    var s := Header(f, total) + rest;
    assert s == (f.kind + [70]) + t + (c + k + rest);
    FourBytes(f.kind + [70], total, c + k + rest);
    assert s == (f.kind + [70] + t) + c + (k + rest);
    FourBytes(f.kind + [70] + t, f.channel, k + rest);
    assert s == (f.kind + [70] + t + c) + k + rest;
    FourBytes(f.kind + [70] + t + c, f.token, rest);
  }

  lemma SequenceFields(header: Bytes, f: Fields, rest: Bytes)
    requires |header| == HEADER
    ensures var s := header + (LE(f.number, 4) + LE(f.request, 4) + rest);
      FromLE(s[16..20]) == f.number && FromLE(s[20..24]) == f.request && s[24..] == rest
  {
    hide LE, FromLE;
    var n, r := LE(f.number, 4), LE(f.request, 4);
    var s := header + (n + r + rest);
    assert s == header + n + (r + rest);
    FourBytes(header, f.number, r + rest);
    assert s == (header + n) + r + rest;
    FourBytes(header + n, f.request, rest);
  }

  /** A message laid out as the header, the numbers and something more gives its fields back. */
  lemma FieldsComeBack(f: Fields, total: u32, body: Bytes, rest: Bytes)
    requires |f.kind| == 3
    ensures var m := Header(f, total) + (SeqBody(f, body) + rest);
      FieldsOf(m) == f && m[24..24 + |body|] == body && m[24 + |body|..] == rest && FromLE(m[4..8]) == total
  {
    hide LE, FromLE, Header;
    var n, r := LE(f.number, 4), LE(f.request, 4);
    var m := Header(f, total) + (SeqBody(f, body) + rest);
    assert SeqBody(f, body) + rest == n + r + (body + rest);
    HeaderFields(f, total, SeqBody(f, body) + rest);
    SequenceFields(Header(f, total), f, body + rest);
    assert m[24..][..|body|] == body && m[24..][|body|..] == rest;
  }

  /** Sign: whatever follows the chunk in the buffer, the reader gets the fields and the body. */
  lemma SignedRoundTrip(k: SymKeys, f: Fields, body: Bytes, rest: Bytes)
    requires Lawful(k) && |f.kind| == 3 && WrappedSigned(k, f, body).Done? && SignedTotal(body) < TWO32
    ensures Unwrapped(k, Sign, WrappedSigned(k, f, body).value + rest) == Done((f, body))
  {
    hide Header, SeqBody, FieldsOf, FromLE, LawfulCipher;
    var total := SignedTotal(body);
    var h, q := Header(f, total), SeqBody(f, body);
    var mac := k.mac(h + q).value;
    var chunk := h + q + mac + rest;
    assert chunk == h + (q + (mac + rest));
    FieldsComeBack(f, total, body, mac + rest);
    assert chunk[..total] == h + q + mac;
    var m := h + q + mac;
    assert m == h + (q + mac);
    FieldsComeBack(f, total, body, mac);
    assert m[..total - SIGNATURE] == h + q && m[total - SIGNATURE..] == mac;
  }

  /** The padding of a signed region is found and recognised from its end. */
  lemma PaddingComesBack(front: Bytes, pad: byte)
    ensures var s := front + Padding(pad); s[|s| - 1] == pad && PaddedWith(s, pad) && s[..|s| - 1 - pad] == front
  {
  }

  lemma OpenedAgain(k: SymKeys, header: Bytes, plain: Bytes, cipher: Bytes, rest: Bytes)
    requires Lawful(k) && CipherOf(k).Some? && |header| == HEADER && |plain| > 0 && |plain| % BLOCK == 0
    requires CipherOf(k).value.encrypt(plain) == Done(cipher) && FromLE((header + (cipher + rest))[4..8]) == HEADER + |plain|
    ensures Opened(k, SignAndEncrypt, header + (cipher + rest)) == Done(header + plain)
  {
    hide FromLE;
    var chunk := header + (cipher + rest);
    assert chunk[HEADER..HEADER + |cipher|] == cipher && chunk[..HEADER] == header;
  }

  /** The checks pass on a message that carries its own MAC and padding. */
  lemma ChecksPass(k: SymKeys, front: Bytes, pad: byte, mac: Bytes)
    requires |front| >= HEADER + 8 && |mac| == SIGNATURE && k.mac(front + Padding(pad)) == Done(mac)
    ensures Checked(k, SignAndEncrypt, front + Padding(pad) + mac) == Done(front[HEADER + 8..])
  {
    hide Padding, PaddedWith;
    var signed := front + Padding(pad);
    var m := signed + mac;
    PaddingComesBack(front, pad);
    assert m[..|signed|] == signed && m[|signed|..] == mac;
    assert m[|signed| - 1] == signed[|signed| - 1];
    assert m[HEADER + 8..|signed| - 1 - pad] == signed[..|signed| - 1 - pad][HEADER + 8..];
  }

  lemma Regrouped(h: Bytes, q: Bytes, p: Bytes, m: Bytes)
    ensures h + (q + p) == (h + q) + p
    ensures h + ((q + p) + m) == h + (q + (p + m)) == ((h + q) + p) + m
  {
  }

  /** Header, numbers, body, padding and MAC, read back. */
  lemma PlainComesBack(k: SymKeys, f: Fields, total: u32, body: Bytes, pad: byte, mac: Bytes)
    requires |f.kind| == 3 && |mac| == SIGNATURE
    requires k.mac(Header(f, total) + (SeqBody(f, body) + Padding(pad))) == Done(mac)
    ensures var m := Header(f, total) + ((SeqBody(f, body) + Padding(pad)) + mac);
      Checked(k, SignAndEncrypt, m) == Done(body) && FieldsOf(m) == f
  {
    hide Header, SeqBody, FieldsOf, Padding, Checked;
    var h, q, p := Header(f, total), SeqBody(f, body), Padding(pad);
    Regrouped(h, q, p, mac);
    FieldsComeBack(f, total, body, p + mac);
    ChecksPass(k, h + q, pad, mac);
    FieldsComeBack(f, total, body, []);
    assert q + [] == q;
    assert (h + q)[24..24 + |body|] == (h + q)[24..];
  }

  /** SignAndEncrypt: the same, through encryption and padding. */
  lemma EncryptedRoundTrip(k: SymKeys, f: Fields, body: Bytes, rest: Bytes)
    requires Lawful(k) && |f.kind| == 3 && WrappedEncrypted(k, f, body).Done? && HEADER + EncryptedLength(body) < TWO32
    ensures Unwrapped(k, SignAndEncrypt, WrappedEncrypted(k, f, body).value + rest) == Done((f, body))
  {
    hide Header, SeqBody, FieldsOf, FromLE, Padding, PadCount, Opened, Checked, LawfulCipher;
    var total := HEADER + EncryptedLength(body);
    var pad := PadCount(8 + |body| + 1 + SIGNATURE);
    var h, plain := Header(f, total), Plain(f, body);
    var mac := k.mac(h + plain).value;
    var cipher := CipherOf(k).value.encrypt(plain + mac).value;
    Associate(h, cipher, rest);
    HeaderFields(f, total, cipher + rest);
    OpenedAgain(k, h, plain + mac, cipher, rest);
    PlainComesBack(k, f, total, body, pad, mac);
  }

  lemma Associate(a: Bytes, b: Bytes, c: Bytes)
    ensures (a + b) + c == a + (b + c)
  {
  }

  /** Every chunk that could be wrapped is unwrapped to what went in, in both modes and with either cipher. */
  lemma RoundTrip(k: SymKeys, mode: Mode, f: Fields, body: Bytes, capacity: nat, rest: Bytes)
    requires Lawful(k) && |f.kind| == 3 && Wrapped(k, mode, f, body, capacity).Done? && capacity < TWO32
    ensures Unwrapped(k, mode, Wrapped(k, mode, f, body, capacity).value + rest) == Done((f, body))
  {
    hide WrappedSigned, WrappedEncrypted, Unwrapped;
    if mode == Sign { SignedRoundTrip(k, f, body, rest); } else { EncryptedRoundTrip(k, f, body, rest); }
  }

  /** What is encrypted is whole blocks, and the chunk is as long as its MessageSize says. */
  lemma WholeBlocks(k: SymKeys, mode: Mode, f: Fields, body: Bytes, capacity: nat)
    requires Lawful(k) && |f.kind| == 3 && Wrapped(k, mode, f, body, capacity).Done? && capacity < TWO32
    ensures var w := Wrapped(k, mode, f, body, capacity).value;
      && HEADER <= |w| <= capacity && FromLE(w[4..8]) == |w|
      && (mode == SignAndEncrypt ==> (|w| - HEADER) % BLOCK == 0)
  {
    hide Header, SeqBody, FromLE, WrappedEncrypted, LawfulCipher;
    if mode == Sign {
      var h, q := Header(f, SignedTotal(body)), SeqBody(f, body);
      Associate(h, q, k.mac(h + q).value);
      HeaderFields(f, SignedTotal(body), q + k.mac(h + q).value);
    } else {
      EncryptedSize(k, f, body);
    }
  }

  lemma EncryptedSize(k: SymKeys, f: Fields, body: Bytes)
    requires Lawful(k) && |f.kind| == 3 && WrappedEncrypted(k, f, body).Done? && HEADER + EncryptedLength(body) < TWO32
    ensures var w := WrappedEncrypted(k, f, body).value;
      |w| == HEADER + EncryptedLength(body) && FromLE(w[4..8]) == |w|
  {
    hide Header, SeqBody, FromLE, Plain, EncryptedLength, Lawful;
    var h, plain := Header(f, HEADER + EncryptedLength(body)), Plain(f, body);
    var mac := k.mac(h + plain).value;
    KeepLengths(k, h + plain, plain + mac);
    HeaderFields(f, HEADER + EncryptedLength(body), CipherOf(k).value.encrypt(plain + mac).value);
  }

  lemma KeepLengths(k: SymKeys, signed: Bytes, plain: Bytes)
    requires Lawful(k) && k.mac(signed).Done? && CipherOf(k).Some? && CipherOf(k).value.encrypt(plain).Done?
    ensures |k.mac(signed).value| == SIGNATURE && |CipherOf(k).value.encrypt(plain).value| == |plain|
  {
  }

  // ----- What a peer sees

  /**
   Which cipher a chunk goes through: AES-128 under Aes128_Sha256_RsaOaep, if
   the adapter has it, and otherwise none; AES-256 under every other policy, whatever else
   the adapter has. What is encrypted is the plain region and its MAC.
   */
  lemma CipherIsChosen(k: SymKeys, f: Fields, body: Bytes, capacity: nat, mac: Bytes)
    requires |f.kind| == 3 && 16 + EncryptedLength(body) <= capacity
    requires k.mac(Header(f, 16 + EncryptedLength(body)) + Plain(f, body)) == Done(mac)
    ensures var header, w := Header(f, 16 + EncryptedLength(body)), Wrapped(k, SignAndEncrypt, f, body, capacity);
      && (k.policy == Aes128Oaep && k.aes128.None? ==> w == Failed(BadInternalError))
      && (k.policy == Aes128Oaep && k.aes128.Some? ==> w == Behind(header, k.aes128.value.encrypt(Plain(f, body) + mac)))
      && (k.policy != Aes128Oaep ==> w == Behind(header, k.aes256.encrypt(Plain(f, body) + mac)))
  {
    hide Header, Plain, EncryptedLength;
  }

  function Behind(header: Bytes, cipher: Attempt<Bytes>): (r: Attempt<Bytes>) {
    match cipher
    case Failed(s) => Failed(s)
    case Done(c) => Done(header + c)
  }

  /** The message whose encrypted part was decrypted to this, checked and taken apart. */
  function Accepted(k: SymKeys, header: Bytes, plain: Attempt<Bytes>): (r: Attempt<(Fields, Bytes)>)
    requires |header| == HEADER
  {
    match plain
    case Failed(s) => Failed(s)
    case Done(p) =>
      match Checked(k, SignAndEncrypt, header + p)
      case Failed(s) => Failed(s)
      case Done(body) => Done((FieldsOf(header + p), body))
  }

  /** The same choice on the way back. */
  lemma CipherIsChosenAgain(k: SymKeys, chunk: Bytes)
    requires Lawful(k) && |chunk| >= 16 && 16 < FromLE(chunk[4..8]) <= |chunk| && FromLE(chunk[4..8]) % 16 == 0
    ensures var cipher, u := chunk[16..FromLE(chunk[4..8])], Unwrapped(k, SignAndEncrypt, chunk);
      && (k.policy == Aes128Oaep && k.aes128.None? ==> u == Failed(BadInternalError))
      && (k.policy == Aes128Oaep && k.aes128.Some? ==> u == Accepted(k, chunk[..16], k.aes128.value.decrypt(cipher)))
      && (k.policy != Aes128Oaep ==> u == Accepted(k, chunk[..16], k.aes256.decrypt(cipher)))
  {
    hide FromLE, Checked, FieldsOf, LawfulCipher;
  }

  /**
   A signed chunk byte by byte: message type, the final-chunk mark, its own
   length, channel and token, the two numbers, the body, and last the MAC of
   everything before it.
   */
  lemma SignedLayout(k: SymKeys, f: Fields, body: Bytes, capacity: nat)
    requires Lawful(k) && |f.kind| == 3 && Wrapped(k, Sign, f, body, capacity).Done? && capacity < TWO32
    ensures var w := Wrapped(k, Sign, f, body, capacity).value;
      && |w| == 24 + |body| + 32 && w[..3] == f.kind && w[3] == 70 && FromLE(w[4..8]) == |w|
      && FromLE(w[8..12]) == f.channel && FromLE(w[12..16]) == f.token && FromLE(w[16..20]) == f.number && FromLE(w[20..24]) == f.request
      && w[24..24 + |body|] == body && k.mac(w[..24 + |body|]) == Done(w[24 + |body|..])
  {
    hide LE, FromLE, LawfulCipher, FieldsOf, SeqBody;
    var total := SignedTotal(body);
    var h, q := Header(f, total), SeqBody(f, body);
    var mac := k.mac(h + q).value;
    var w := h + q + mac;
    assert w == h + (q + mac);
    FieldsComeBack(f, total, body, mac);
    HeaderFields(f, total, q + mac);
    SequenceFieldsOf(h, f, body, mac);
    assert w[..24 + |body|] == h + q;
  }

  lemma SequenceFieldsOf(header: Bytes, f: Fields, body: Bytes, rest: Bytes)
    requires |header| == 16
    ensures var s := header + (SeqBody(f, body) + rest); FromLE(s[16..20]) == f.number && FromLE(s[20..24]) == f.request
  {
    hide LE, FromLE;
    SequenceFields(header, f, body + rest);
    assert SeqBody(f, body) + rest == LE(f.number, 4) + LE(f.request, 4) + (body + rest);
  }

  /** What is encrypted: the numbers, the body, the padding length and that many bytes of its value, as few as fill whole blocks with the MAC. */
  lemma PlainLayout(f: Fields, body: Bytes)
    ensures var p, n := Plain(f, body), 8 + |body|;
      && |p| > n && |p| == n + 1 + p[n] && p[n] < 16 && (|p| + 32) % 16 == 0
      && FromLE(p[..4]) == f.number && FromLE(p[4..8]) == f.request && p[8..n] == body
      && forall j :: n <= j < |p| ==> p[j] == p[n]
  {
    hide LE, FromLE, PadCount;
    var p, pad := Plain(f, body), PadCount(8 + |body| + 1 + SIGNATURE);
    var n, r := LE(f.number, 4), LE(f.request, 4);
    assert p == [] + n + (r + body + Padding(pad));
    FourBytes([], f.number, r + body + Padding(pad));
    assert p == n + r + (body + Padding(pad));
    FourBytes(n, f.request, body + Padding(pad));
  }

  /** Nothing is accepted without the MAC of all that precedes it. */
  lemma AcceptedIsSigned(k: SymKeys, mode: Mode, chunk: Bytes)
    requires Lawful(k) && Unwrapped(k, mode, chunk).Done?
    ensures mode != NoSecurity && Opened(k, mode, chunk).Done?
    ensures var m := Opened(k, mode, chunk).value;
      && |m| >= 56 && k.mac(m[..|m| - 32]) == Done(m[|m| - 32..])
      && m[..16] == chunk[..16] && (mode == Sign ==> m == chunk[..FromLE(chunk[4..8])])
  {
    hide FromLE, LawfulCipher, FieldsOf, PaddedWith;
  }

  // ----- In place

  method Put(a: array<byte>, at: nat, b: Bytes)
    requires at + |b| <= a.Length
    modifies a
    ensures a[..at + |b|] == old(a[..at]) + b && a[at + |b|..] == old(a[at + |b|..])
  {
    for i := 0 to |b|
      invariant a[..at + i] == old(a[..at]) + b[..i] && a[at + |b|..] == old(a[at + |b|..])
    {
      a[at + i] := b[i];
    }
  }

  method Fill(a: array<byte>, at: nat, v: byte, n: nat)
    requires at + n <= a.Length
    modifies a
    ensures a[..at + n] == old(a[..at]) + Repeat(v, n)
  {
    for i := 0 to n
      invariant a[..at + i] == old(a[..at]) + Repeat(v, i)
    {
      a[at + i] := v;
      assert Repeat(v, i + 1) == Repeat(v, i) + [v];
    }
  }

  /** write_header, and the MessageSize patched into it. */
  method LayHeader(out: array<byte>, f: Fields, total: nat)
    requires out.Length >= HEADER && |f.kind| == 3
    modifies out
    ensures out[..HEADER] == Header(f, total)
  {
    hide LE;
    Put(out, 0, f.kind + [70]);
    ghost var type4 := out[..4];
    Put(out, 8, LE(f.channel, 4));
    assert out[..4] == type4 by { assert out[..12][..4] == out[..4]; }
    ghost var c := out[8..12];
    assert c == LE(f.channel, 4) by { assert out[..12][8..] == out[8..12]; }
    Put(out, 12, LE(f.token, 4));
    assert out[..4] == type4 by { assert out[..16][..4] == out[..4]; }
    assert out[8..16] == c + LE(f.token, 4) by { assert out[..16][8..] == out[8..16]; }
    ghost var tail := out[8..];
    Put(out, 4, LE(total, 4));
    assert out[..HEADER] == out[..8] + out[8..][..8];
    assert tail[..8] == c + LE(f.token, 4);
  }

  method LaySeqBody(out: array<byte>, f: Fields, body: Bytes)
    requires HEADER + 8 + |body| <= out.Length
    modifies out
    ensures out[..HEADER + 8 + |body|] == old(out[..HEADER]) + SeqBody(f, body)
  {
    hide LE;
    Put(out, HEADER, LE(f.number, 4));
    Put(out, HEADER + 4, LE(f.request, 4));
    Put(out, HEADER + 8, body);
  }

  /** mu_sym_chunk_wrap, in Sign mode. */
  method WrapSigned(k: SymKeys, f: Fields, body: Bytes, out: array<byte>) returns (s: Status, length: nat)
    requires Lawful(k) && SignedTotal(body) <= out.Length && |f.kind| == 3
    modifies out
    ensures var w := WrappedSigned(k, f, body);
      if w.Done? then s == Good && length <= out.Length && out[..length] == w.value else s == w.status
  {
    hide Header, SeqBody, LawfulCipher;
    length := SignedTotal(body);
    LayHeader(out, f, length);
    LaySeqBody(out, f, body);
    var signed := HEADER + 8 + |body|;
    var mac := k.mac(out[..signed]);
    if mac.Failed? {
      return mac.status, 0;
    }
    Put(out, signed, mac.value);
    s := Good;
  }

  /** The region before encryption: numbers, body, padding and MAC. */
  method LayPlain(k: SymKeys, f: Fields, body: Bytes, out: array<byte>) returns (s: Status, ghost mac: Bytes)
    requires Lawful(k) && HEADER + EncryptedLength(body) <= out.Length && |f.kind| == 3
    modifies out
    ensures var header := Header(f, HEADER + EncryptedLength(body));
      match k.mac(header + Plain(f, body))
      case Failed(st) => s == st
      case Done(m) => s == Good && mac == m && out[..HEADER + EncryptedLength(body)] == header + (Plain(f, body) + m)
  {
    hide Header, SeqBody, LawfulCipher, PadCount;
    var pad := PadCount(8 + |body| + 1 + SIGNATURE);
    var total := HEADER + EncryptedLength(body);
    LayHeader(out, f, total);
    LaySeqBody(out, f, body);
    var at := HEADER + 8 + |body|;
    Put(out, at, [pad]);
    Fill(out, at + 1, pad, pad);
    var signed := at + 1 + pad;
    ghost var header := Header(f, total);
    assert out[..signed] == header + Plain(f, body) by {
      Regrouped(header, SeqBody(f, body), [pad], Repeat(pad, pad));
      assert (header + SeqBody(f, body) + [pad]) + Repeat(pad, pad) == header + (SeqBody(f, body) + ([pad] + Repeat(pad, pad)));
    }
    var m := k.mac(out[..signed]);
    if m.Failed? {
      return m.status, [];
    }
    mac := m.value;
    Put(out, signed, m.value);
    Associate(header, Plain(f, body), mac);
    s := Good;
  }

  /** Encryption of everything after the header, where it stands. */
  method EncryptInPlace(cipher: Cipher, out: array<byte>, length: nat, ghost header: Bytes, ghost plain: Bytes) returns (s: Status)
    requires LawfulCipher(cipher) && |header| == HEADER <= length <= out.Length && out[..length] == header + plain
    modifies out
    ensures var c := cipher.encrypt(plain);
      if c.Done? then s == Good && out[..length] == header + c.value else s == c.status
  {
    Halves(out[..length], header, plain);
    assert out[..length][HEADER..] == out[HEADER..length] && out[..length][..HEADER] == out[..HEADER];
    var encrypted := cipher.encrypt(out[HEADER..length]);
    if encrypted.Failed? {
      return encrypted.status;
    }
    Put(out, HEADER, encrypted.value);
    s := Good;
  }

  /** mu_sym_chunk_wrap, in SignAndEncrypt mode. */
  method WrapEncrypted(k: SymKeys, f: Fields, body: Bytes, out: array<byte>) returns (s: Status, length: nat)
    requires Lawful(k) && HEADER + EncryptedLength(body) <= out.Length && |f.kind| == 3
    modifies out
    ensures var w := WrappedEncrypted(k, f, body);
      if w.Done? then s == Good && length <= out.Length && out[..length] == w.value else s == w.status
  {
    hide Header, Plain, EncryptedLength, LawfulCipher;
    length := HEADER + EncryptedLength(body);
    ghost var mac;
    s, mac := LayPlain(k, f, body, out);
    if s != Good {
      return;
    }
    var cipher := CipherOf(k);
    if cipher.None? {
      return BadInternalError, 0;
    }
    s := EncryptInPlace(cipher.value, out, length, Header(f, length), Plain(f, body) + mac);
  }

  lemma Halves(s: Bytes, a: Bytes, b: Bytes)
    requires s == a + b
    ensures s[..|a|] == a && s[|a|..] == b
  {
  }

  /** mu_sym_chunk_wrap. The caller's buffer holds at least a header. */
  method Wrap(k: SymKeys, mode: Mode, f: Fields, body: Bytes, out: array<byte>) returns (s: Status, length: nat)
    requires Lawful(k) && |f.kind| == 3 && out.Length >= HEADER
    modifies out
    ensures var w := Wrapped(k, mode, f, body, out.Length);
      if w.Done? then s == Good && length <= out.Length && out[..length] == w.value else s == w.status != Good
  {
    hide WrappedSigned, WrappedEncrypted, EncryptedLength;
    length := 0;
    match mode {
      case NoSecurity =>
        s := BadSecurityModeRejected;
      case Sign =>
        if SignedTotal(body) > out.Length {
          return BadResponseTooLarge, 0;
        }
        WrapFailsBadly(k, f, body);
        s, length := WrapSigned(k, f, body, out);
      case SignAndEncrypt =>
        if HEADER + EncryptedLength(body) > out.Length {
          return BadResponseTooLarge, 0;
        }
        WrapFailsBadly(k, f, body);
        s, length := WrapEncrypted(k, f, body, out);
    }
  }

  lemma WrapFailsBadly(k: SymKeys, f: Fields, body: Bytes)
    requires Lawful(k) && |f.kind| == 3
    ensures WrappedSigned(k, f, body).Failed? ==> WrappedSigned(k, f, body).status != Good
    ensures WrappedEncrypted(k, f, body).Failed? ==> WrappedEncrypted(k, f, body).status != Good
  {
    hide Header, SeqBody, Plain;
  }

  /** Size checks, and decryption in place. */
  method OpenChunk(k: SymKeys, mode: Mode, chunk: array<byte>) returns (s: Status, size: nat)
    requires Lawful(k)
    modifies chunk
    ensures var o := Opened(k, mode, old(chunk[..]));
      if o.Done? then s == Good && size == |o.value| <= chunk.Length && chunk[..size] == o.value else s == o.status != Good
  {
    hide FromLE;
    if chunk.Length < HEADER {
      return BadDecodingError, 0;
    }
    size := FromLE(chunk[4..8]);
    assert chunk[..][4..8] == chunk[4..8];
    if size > chunk.Length || size < HEADER {
      return BadDecodingError, 0;
    }
    if mode == SignAndEncrypt {
      if size == HEADER || (size - HEADER) % BLOCK != 0 {
        return BadDecodingError, 0;
      }
      var cipher := CipherOf(k);
      if cipher.None? {
        return BadInternalError, 0;
      }
      assert chunk[..][HEADER..size] == chunk[HEADER..size];
      var plain := cipher.value.decrypt(chunk[HEADER..size]);
      if plain.Failed? {
        return plain.status, 0;
      }
      Put(chunk, HEADER, plain.value);
    } else if mode != Sign {
      return BadSecurityModeRejected, 0;
    }
    s := Good;
  }

  /** Signature and padding; the body lies between the numbers and `end`. */
  method CheckChunk(k: SymKeys, mode: Mode, chunk: array<byte>, size: nat) returns (s: Status, end: nat)
    requires Lawful(k) && HEADER <= size <= chunk.Length
    ensures var c := Checked(k, mode, chunk[..size]);
      if c.Done? then s == Good && HEADER + 8 <= end <= size && chunk[HEADER + 8..end] == c.value else s == c.status != Good
  {
    hide LawfulCipher;
    ghost var m := chunk[..size];
    if size < HEADER + 8 + SIGNATURE {
      return BadDecodingError, 0;
    }
    end := size - SIGNATURE;
    assert m[..end] == chunk[..end] && m[end..] == chunk[end..size];
    var mac := k.mac(chunk[..end]);
    if mac.Failed? {
      return mac.status, 0;
    }
    if mac.value != chunk[end..size] {
      return BadSecurityChecksFailed, 0;
    }
    if mode == SignAndEncrypt {
      var pad: nat := chunk[end - 1];
      if end < HEADER + 8 + 1 + pad {
        return BadSecurityChecksFailed, 0;
      }
      for i := 1 to pad + 1
        invariant forall j :: end - i <= j < end - 1 ==> chunk[j] == pad
      {
        if chunk[end - 1 - i] != pad {
          assert !PaddedWith(m[..end], pad) by { assert m[..end][end - 1 - i] != pad; }
          return BadSecurityChecksFailed, 0;
        }
      }
      assert PaddedWith(m[..end], pad);
      end := end - 1 - pad;
    }
    s := Good;
    assert m[HEADER + 8..end] == chunk[HEADER + 8..end];
  }

  /** mu_sym_chunk_unwrap: the fields, and where in the chunk the body now lies. */
  method Unwrap(k: SymKeys, mode: Mode, chunk: array<byte>) returns (s: Status, f: Fields, at: nat, length: nat)
    requires Lawful(k)
    modifies chunk
    ensures var u := Unwrapped(k, mode, old(chunk[..]));
      if u.Done? then s == Good && at + length <= chunk.Length && (f, chunk[at..at + length]) == u.value else s == u.status != Good
  {
    hide Opened, Checked, FromLE;
    f, at, length := Fields([], 0, 0, 0, 0), HEADER + 8, 0;
    var size, end;
    s, size := OpenChunk(k, mode, chunk);
    if s != Good {
      return;
    }
    s, end := CheckChunk(k, mode, chunk, size);
    if s != Good {
      return;
    }
    ghost var m := chunk[..size];
    FieldsInPlace(chunk[..], size);
    f := Fields(chunk[..3], FromLE(chunk[8..12]), FromLE(chunk[12..16]), FromLE(chunk[16..20]), FromLE(chunk[20..24]));
    assert chunk[..3] == chunk[..][..3] && chunk[8..12] == chunk[..][8..12] && chunk[12..16] == chunk[..][12..16]
        && chunk[16..20] == chunk[..][16..20] && chunk[20..24] == chunk[..][20..24] && chunk[..size] == chunk[..][..size];
    length := end - at;
  }

  lemma FieldsInPlace(s: Bytes, size: nat)
    requires HEADER + 8 <= size <= |s|
    ensures FieldsOf(s[..size]) == FieldsOf(s)
  {
    hide FromLE;
    assert s[..size][..3] == s[..3] && s[..size][8..12] == s[8..12] && s[..size][12..16] == s[12..16];
    assert s[..size][16..20] == s[16..20] && s[..size][20..24] == s[20..24];
  }
}
