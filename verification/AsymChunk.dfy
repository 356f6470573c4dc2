/**
 Asymmetric protection of OpenSecureChannel chunks (section 6.7.2 of
 OPC 10000-6), with RSA as functions: header, padding to whole plaintext
 blocks, signature, block-wise encryption, and the way back.
 */
module AsymChunk {
  import opened Types
  import opened Wire
  import opened Codec
  import opened OpnHeaders
  import opened SymChunk

  const OAEP_SHA1_OVERHEAD: nat := 42
  const OAEP_SHA256_OVERHEAD: nat := 66
  const MAX_PLAINTEXT: nat := 2048
  const SIGNED_INPUT_MAX: nat := 4096
  const SIGNATURE_SCRATCH: nat := 512
  const THUMBPRINT: nat := 20
  const MIN_KEY_BITS: nat := 2048
  const MAX_KEY_BITS: nat := 4096

  /** A crypto adapter, as far as chunks go. The flag picks PSS and OAEP-SHA256. */
  datatype Crypto = Crypto(
    ownCertificate: Attempt<Bytes>,
    keyBits: Bytes -> Attempt<u64>,
    thumbprint: Bytes -> Attempt<Bytes>,
    validity: Bytes -> Status,
    sign: (bool, Bytes) -> Attempt<Bytes>,
    verify: (bool, Bytes, Bytes, Bytes) -> Status,
    encrypt: (bool, Bytes, Bytes) -> Attempt<Bytes>,
    decrypt: (bool, Bytes) -> Attempt<Bytes>)

  /** What b decrypts and verifies is what a encrypted for b's certificate and signed under its own. */
  ghost predicate Paired(a: Crypto, b: Crypto) {
    && a.ownCertificate.Done? && b.ownCertificate.Done?
    && a.keyBits == b.keyBits && a.thumbprint == b.thumbprint
    && (forall c :: a.thumbprint(c).Done? ==> |a.thumbprint(c).value| == THUMBPRINT)
    && (forall p, x :: a.sign(p, x).Done? ==> b.verify(p, a.ownCertificate.value, x, a.sign(p, x).value) == Good)
    && (forall p, x :: a.encrypt(p, b.ownCertificate.value, x).Done? ==> b.decrypt(p, a.encrypt(p, b.ownCertificate.value, x).value) == Done(x))
  }

  /** key_bytes. */
  function KeyBytes(c: Crypto, certificate: Bytes): (r: Attempt<nat>)
    ensures r.Done? ==> OAEP_SHA1_OVERHEAD < r.value < TWO64
  {
    match c.keyBits(certificate)
    case Failed(_) => Failed(BadCertificateInvalid)
    case Done(bits) => if bits / 8 <= OAEP_SHA1_OVERHEAD then Failed(BadCertificateInvalid) else Done(bits / 8)
  }

  /** The plaintext that fits a block, in the arithmetic of size_t: a short key wraps around to a huge block. */
  function PlainBlock(p: Policy, keyBytes: nat): (r: nat)
    ensures keyBytes >= OAEP_SHA256_OVERHEAD ==> r <= keyBytes
  {
    (if p == Aes256Pss then keyBytes - OAEP_SHA256_OVERHEAD else keyBytes - OAEP_SHA1_OVERHEAD) % TWO64
  }

  /** mu_certificate_validate, with every hook there. */
  function Validated(c: Crypto, p: Policy, certificate: Bytes): (r: Status) {
    if p == NoPolicy then Good
    else if certificate == [] then BadCertificateInvalid
    else match c.keyBits(certificate)
      case Failed(_) => BadCertificateInvalid
      case Done(bits) =>
        if bits < MIN_KEY_BITS || bits > MAX_KEY_BITS then BadSecurityChecksFailed else c.validity(certificate)
  }

  /** A validated key is long enough for either padding. */
  lemma ValidatedKey(c: Crypto, p: Policy, certificate: Bytes)
    requires p != NoPolicy && Validated(c, p, certificate) == Good
    ensures KeyBytes(c, certificate).Done? && 256 <= KeyBytes(c, certificate).value <= 512
    ensures 190 <= PlainBlock(p, KeyBytes(c, certificate).value) <= 470
  {
    var bits := c.keyBits(certificate).value;
    var key := bits / 8;
    assert 256 <= key <= 512;
    NoWrap(key - OAEP_SHA256_OVERHEAD);
    NoWrap(key - OAEP_SHA1_OVERHEAD);
  }

  lemma NoWrap(x: nat)
    requires x < TWO64
    ensures x % TWO64 == x
  {
  }

  // ----- Block arithmetic

  lemma Distribute(b: int, p: int, k: int)
    ensures b * (p - k) == b * p - b * k
  {
  }

  lemma {:induction false} AtLeastOnce(b: nat, d: nat)
    requires d >= 1
    ensures b * d >= b
  {
    if d > 1 {
      AtLeastOnce(b, d - 1);
      Distribute(b, d, 1);
    }
  }

  /** Quotient and remainder are the only ones. */
  lemma DivUnique(x: nat, b: nat, k: nat, r: nat)
    requires b > 0 && r < b && x == b * k + r
    ensures x / b == k && x % b == r
  {
    var p, t := x / b, x % b;
    assert x == b * p + t;
    Distribute(b, p, k);
    Distribute(b, k, p);
    if p > k {
      AtLeastOnce(b, p - k);
    } else if k > p {
      AtLeastOnce(b, k - p);
    }
  }

  /** Padding to a multiple of the block: no more than needed. */
  function PadTo(n: nat, block: nat): (r: nat)
    requires block > 0
    ensures r < block
  {
    (block - n % block) % block
  }

  function BlockCount(n: nat, block: nat): (r: nat)
    requires block > 0
  {
    (n + PadTo(n, block)) / block
  }

  lemma PaddedIsWhole(n: nat, block: nat)
    requires block > 0
    ensures n + PadTo(n, block) == block * BlockCount(n, block)
  {
    var q, t := n / block, n % block;
    assert n == block * q + t;
    if t == 0 {
      DivUnique(block, block, 1, 0);
      DivUnique(n, block, q, 0);
    } else {
      DivUnique(block - t, block, 0, block - t);
      Distribute(block, q + 1, 1);
      DivUnique(n + (block - t), block, q + 1, 0);
    }
  }

  // ----- Blocks

  /** The encryption loop: every plaintext block becomes a cipher block of the key's size. */
  function EncryptBlocks(c: Crypto, pss: bool, receiver: Bytes, plain: Bytes, block: nat, keyBytes: nat): (r: Attempt<Bytes>)
    decreases |plain|
  {
    if block == 0 || |plain| < block then Done([])
    else
      match c.encrypt(pss, receiver, plain[..block])
      case Failed(s) => Failed(s)
      case Done(first) =>
        if |first| != keyBytes then Failed(BadInternalError)
        else Prefixed(first, EncryptBlocks(c, pss, receiver, plain[block..], block, keyBytes))
  }

  function Prefixed(a: Bytes, b: Attempt<Bytes>): (r: Attempt<Bytes>) {
    if b.Done? then Done(a + b.value) else b
  }

  /** The decryption loop, into a scratch area with the given room. */
  function DecryptBlocks(c: Crypto, pss: bool, cipher: Bytes, keyBytes: nat, room: nat): (r: Option<Bytes>)
    ensures r.Some? ==> |r.value| <= room
    decreases |cipher|
  {
    if keyBytes == 0 || |cipher| < keyBytes then Some([])
    else
      var first := c.decrypt(pss, cipher[..keyBytes]);
      if first.Failed? || |first.value| > room then None
      else
        var rest := DecryptBlocks(c, pss, cipher[keyBytes..], keyBytes, room - |first.value|);
        if rest.None? then None else Some(first.value + rest.value)
  }

  /** Block by block, decryption undoes encryption. */
  lemma {:induction false} BlocksComeBack(a: Crypto, b: Crypto, pss: bool, plain: Bytes, block: nat, keyBytes: nat, n: nat, room: nat)
    requires Paired(a, b) && block > 0 && keyBytes > 0 && |plain| == block * n <= room
    requires EncryptBlocks(a, pss, b.ownCertificate.value, plain, block, keyBytes).Done?
    ensures var c := EncryptBlocks(a, pss, b.ownCertificate.value, plain, block, keyBytes).value;
      |c| == keyBytes * n && DecryptBlocks(b, pss, c, keyBytes, room) == Some(plain)
    decreases n
  {
    hide EncryptBlocks, DecryptBlocks;
    var cert := b.ownCertificate.value;
    if n == 0 {
      EncryptNothing(a, pss, cert, plain, block, keyBytes);
      DecryptNothing(b, pss, [], keyBytes, room);
    } else {
      Distribute(block, n, 1);
      Distribute(keyBytes, n, 1);
      AtLeastOnce(block, n);
      EncryptStep(a, pss, cert, plain, block, keyBytes);
      var first := a.encrypt(pss, cert, plain[..block]).value;
      var rest := EncryptBlocks(a, pss, cert, plain[block..], block, keyBytes).value;
      BlocksComeBack(a, b, pss, plain[block..], block, keyBytes, n - 1, room - block);
      Halves(first + rest, first, rest);
      DecryptStep(b, pss, first + rest, keyBytes, room);
      assert plain[..block] + plain[block..] == plain;
    }
  }

  // ----- The cleartext header

  datatype Parsed = Parsed(uri: UaString, certificate: UaString, thumbprint: UaString, length: nat)

  /** The asymmetric security header. */
  function ParseTail(s: Bytes): (r: Attempt<Parsed>)
    ensures r.Done? ==> r.value.length <= |s|
  {
    match DecString(s)
    case Err(e) => Failed(e)
    case Ok(uri, n1) =>
      match DecString(s[n1..])
      case Err(e) => Failed(e)
      case Ok(certificate, n2) =>
        match DecString(s[n1 + n2..])
        case Err(e) => Failed(e)
        case Ok(thumbprint, n3) => Done(Parsed(uri, certificate, thumbprint, n1 + n2 + n3))
  }

  lemma TailComesBack(p: Policy, certificate: UaString, thumbprint: UaString, rest: Bytes)
    requires EncodableString(certificate) && EncodableString(thumbprint)
    ensures ParseTail(HeaderTail(p, certificate, thumbprint) + rest)
      == Done(Parsed(UaString.Bytes(Uri(p)), certificate, thumbprint, |HeaderTail(p, certificate, thumbprint)|))
  {
    hide EncString, DecString, Uri;
    var a, b, c := EncString(UaString.Bytes(Uri(p))), EncString(certificate), EncString(thumbprint);
    var s := HeaderTail(p, certificate, thumbprint) + rest;
    assert s == a + (b + (c + rest));
    StringRoundTrip(UaString.Bytes(Uri(p)), b + (c + rest));
    assert s[|a|..] == b + (c + rest);
    StringRoundTrip(certificate, c + rest);
    assert s[|a| + |b|..] == c + rest;
    StringRoundTrip(thumbprint, rest);
  }

  /** Message type, size and channel of a chunk that starts with an OPN header; then the rest of the header. */
  lemma HeaderComesBack(p: Policy, channel: u32, certificate: UaString, thumbprint: UaString, total: u32, rest: Bytes)
    requires EncodableString(certificate) && EncodableString(thumbprint)
    ensures var t := HeaderTail(p, certificate, thumbprint);
      var m := OpnHeader(p, channel, certificate, thumbprint, total) + rest;
      && |m| == 12 + |t| + |rest|
      && m[..3] == [79, 80, 78] && FromLE(m[4..8]) == total && FromLE(m[8..12]) == channel
      && ParseTail(m[12..]) == Done(Parsed(UaString.Bytes(Uri(p)), certificate, thumbprint, |t|))
      && m[12 + |t|..] == rest
  {
    hide Uri, LE, FromLE, HeaderTail, ParseTail;
    var t := HeaderTail(p, certificate, thumbprint);
    var h := OpnHeader(p, channel, certificate, thumbprint, total);
    var o, n, c := [79, 80, 78, 70], LE(total, 4), LE(channel, 4);
    var m := h + rest;
    TailComesBack(p, certificate, thumbprint, rest);
    assert m == o + n + (c + (t + rest));
    FourBytes(o, total, c + (t + rest));
    assert m == (o + n) + c + (t + rest);
    FourBytes(o + n, channel, t + rest);
    assert m[12..] == t + rest;
  }

  // ----- Wrapping

  /** What wrapping needs to know of the two certificates. */
  datatype Terms = Terms(certificate: Bytes, signature: nat, receiverKey: nat, thumbprint: Bytes)

  function TermsFor(a: Crypto, receiver: Bytes): (r: Attempt<Terms>)
    ensures r.Done? ==> a.ownCertificate.Done? && KeyBytes(a, receiver) == Done(r.value.receiverKey)
  {
    if receiver == [] then Failed(BadInternalError)
    else match a.ownCertificate
      case Failed(s) => Failed(s)
      case Done(own) =>
        match KeyBytes(a, own)
        case Failed(s) => Failed(s)
        case Done(signature) =>
          match KeyBytes(a, receiver)
          case Failed(s) => Failed(s)
          case Done(receiverKey) =>
            match a.thumbprint(receiver)
            case Failed(s) => Failed(s)
            case Done(thumbprint) => Done(Terms(own, signature, receiverKey, thumbprint))
  }

  /** The one receiver wrapping cannot deal with: its blocks hold nothing, and the padding is taken modulo that. */
  predicate ZeroBlock(a: Crypto, p: Policy, receiver: Bytes) {
    p == Aes256Pss && KeyBytes(a, receiver) == Done(OAEP_SHA256_OVERHEAD)
  }

  /** PaddingSize truncated to a byte, and that byte as many times as the padding is long. */
  function PadRegion(pad: nat): (r: Bytes)
    ensures |r| == pad + 1
  {
    [pad % 256] + Repeat(pad % 256, pad)
  }

  datatype Numbers = Numbers(channel: u32, number: u32, request: u32)

  function NumberedBody(n: Numbers, body: Bytes): (r: Bytes)
    ensures |r| == 8 + |body|
  {
    LE(n.number, 4) + LE(n.request, 4) + body
  }

  /** The lengths that follow from the terms; wrapping goes ahead only if they are within the limits. */
  datatype Sizes = Sizes(header: nat, block: nat, pad: nat, blocks: nat, total: nat)

  function SizesFor(p: Policy, t: Terms, body: Bytes): (r: Sizes)
    requires PlainBlock(p, t.receiverKey) > 0 && EncodableString(UaString.Bytes(t.certificate)) && EncodableString(UaString.Bytes(t.thumbprint))
  {
    hide PlainBlock, HeaderTail, PadTo, BlockCount;
    var header := 12 + |HeaderTail(p, UaString.Bytes(t.certificate), UaString.Bytes(t.thumbprint))|;
    var block := PlainBlock(p, t.receiverKey);
    var base := 8 + |body| + 1 + t.signature;
    var blocks := BlockCount(base, block);
    Sizes(header, block, PadTo(base, block), blocks, header + t.receiverKey * blocks)
  }

  function LimitStatus(z: Sizes, t: Terms, body: Bytes, capacity: nat): (r: Status) {
    if 8 + |body| + 1 + t.signature + z.pad > MAX_PLAINTEXT then BadRequestTooLarge
    else if z.header + 8 + |body| + 1 + z.pad > SIGNED_INPUT_MAX then BadRequestTooLarge
    else if z.total > capacity then BadResponseTooLarge
    else if t.signature > SIGNATURE_SCRATCH then BadInternalError
    else Good
  }

  /** The header signed with the plaintext, and plaintext and signature encrypted. */
  function Sealed(a: Crypto, p: Policy, receiver: Bytes, t: Terms, z: Sizes, header: Bytes, plain: Bytes): (r: Attempt<Bytes>) {
    match a.sign(p == Aes256Pss, header + plain)
    case Failed(s) => Failed(s)
    case Done(signature) =>
      if |signature| != t.signature then Failed(BadInternalError)
      else Prefixed(header, EncryptBlocks(a, p == Aes256Pss, receiver, plain + signature, z.block, t.receiverKey))
  }

  /** The chunk for a body under a secured policy, once the header could be written. */
  function WrappedOn(a: Crypto, p: Policy, n: Numbers, receiver: Bytes, t: Terms, body: Bytes, capacity: nat): (r: Attempt<Bytes>)
    requires PlainBlock(p, t.receiverKey) > 0 && EncodableString(UaString.Bytes(t.certificate)) && EncodableString(UaString.Bytes(t.thumbprint))
  {
    var z := SizesFor(p, t, body);
    var limits := LimitStatus(z, t, body, capacity);
    if limits != Good then Failed(limits)
    else
      var header := OpnHeader(p, n.channel, UaString.Bytes(t.certificate), UaString.Bytes(t.thumbprint), z.total);
      Sealed(a, p, receiver, t, z, header, NumberedBody(n, body) + PadRegion(z.pad))
  }

  function WrappedSecured(a: Crypto, p: Policy, n: Numbers, receiver: Bytes, body: Bytes, capacity: nat): (r: Attempt<Bytes>)
    requires p != NoPolicy && capacity >= 4 && !ZeroBlock(a, p, receiver)
  {
    match TermsFor(a, receiver)
    case Failed(s) => Failed(s)
    case Done(t) =>
      var certificate, thumbprint := UaString.Bytes(t.certificate), UaString.Bytes(t.thumbprint);
      var written := HeaderStatus(p, n.channel, certificate, thumbprint, capacity);
      if written != Good then Failed(written)
      else
        HeaderFits(p, n.channel, certificate, thumbprint, capacity);
        BlockIsThere(a, p, receiver);
        WrappedOn(a, p, n, receiver, t, body, capacity)
  }

  lemma HeaderFits(p: Policy, channel: u32, certificate: UaString, thumbprint: UaString, capacity: nat)
    requires capacity >= 4 && HeaderStatus(p, channel, certificate, thumbprint, capacity) == Good
    ensures EncodableString(certificate) && EncodableString(thumbprint) && 12 + |HeaderTail(p, certificate, thumbprint)| <= capacity
  {
    HeaderWrites(p, channel, certificate, thumbprint, capacity);
  }

  lemma BlockIsThere(a: Crypto, p: Policy, receiver: Bytes)
    requires TermsFor(a, receiver).Done? && !ZeroBlock(a, p, receiver)
    ensures PlainBlock(p, TermsFor(a, receiver).value.receiverKey) > 0
  {
    hide TermsFor;
  }

  /** wrap_none: header, numbers and body in clear. */
  function WrappedPlain(n: Numbers, body: Bytes, capacity: nat): (r: Attempt<Bytes>) {
    var length := 20 + |HeaderTail(NoPolicy, Null, Null)|;
    if length > capacity then Failed(BadEncodingError)
    else if length + |body| > capacity then Failed(BadResponseTooLarge)
    else Done(OpnHeader(NoPolicy, n.channel, Null, Null, length + |body|) + NumberedBody(n, body))
  }

  /** mu_asym_chunk_wrap on values. */
  function Wrapped(a: Crypto, p: Policy, n: Numbers, receiver: Bytes, body: Bytes, capacity: nat): (r: Attempt<Bytes>)
    requires capacity >= 4 && !ZeroBlock(a, p, receiver)
  {
    if p == NoPolicy then WrappedPlain(n, body, capacity) else WrappedSecured(a, p, n, receiver, body, capacity)
  }

  // ----- Unwrapping

  function Number32(s: Bytes): (r: u32)
    requires |s| == 4
    ensures r == FromLE(s)
  {
    Pow256Values();
    FromLE(s)
  }

  datatype Info = Info(policy: Policy, sender: Bytes, numbers: Numbers, body: Bytes)

  /** Decrypted, and the signature verified: the signed region. */
  function OpenedAsym(b: Crypto, p: Policy, m: Bytes, header: nat, sender: Bytes, own: Bytes): (r: Attempt<Bytes>)
    requires header <= |m|
    ensures r.Done? ==> |r.value| >= 9
  {
    match KeyBytes(b, own)
    case Failed(s) => Failed(s)
    case Done(ownKey) =>
      match KeyBytes(b, sender)
      case Failed(s) => Failed(s)
      case Done(signature) =>
        if |m| == header || (|m| - header) % ownKey != 0 then Failed(BadDecodingError)
        else
          var plain := DecryptBlocks(b, p == Aes256Pss, m[header..], ownKey, MAX_PLAINTEXT);
          if plain.None? || |plain.value| < signature + 1 + 8 then Failed(BadSecurityChecksFailed)
          else
            var end := |plain.value| - signature;
            if header + end > SIGNED_INPUT_MAX then Failed(BadSecurityChecksFailed)
            else if b.verify(p == Aes256Pss, sender, m[..header] + plain.value[..end], plain.value[end..]) != Good then Failed(BadSecurityChecksFailed)
            else Done(plain.value[..end])
  }

  /** Numbers and body, once the padding is stripped. */
  function StrippedAsym(channel: u32, signed: Bytes, room: nat): (r: Attempt<(Numbers, Bytes)>)
    requires |signed| >= 9
  {
    var pad: nat := signed[|signed| - 1];
    if |signed| < pad + 1 + 8 || !PaddedWith(signed, pad) then Failed(BadSecurityChecksFailed)
    else
      var body := signed[8..|signed| - 1 - pad];
      if |body| > room then Failed(BadResponseTooLarge)
      else Done((Numbers(channel, Number32(signed[..4]), Number32(signed[4..8])), body))
  }

  function BytesOf(s: UaString): (r: Bytes) {
    if s.Null? then [] else s.bytes
  }

  /** The secured part of mu_asym_chunk_unwrap, from the parsed header on. */
  function UnwrappedSecured(b: Crypto, p: Policy, m: Bytes, parsed: Parsed, room: nat): (r: Attempt<Info>)
    requires |m| >= 12 && 12 + parsed.length <= |m|
  {
    var sender := BytesOf(parsed.certificate);
    var valid := Validated(b, p, sender);
    if valid != Good then Failed(valid)
    else match b.ownCertificate
      case Failed(s) => Failed(s)
      case Done(own) =>
        match b.thumbprint(own)
        case Failed(s) => Failed(s)
        case Done(thumbprint) =>
          if |BytesOf(parsed.thumbprint)| != THUMBPRINT || BytesOf(parsed.thumbprint) != thumbprint then Failed(BadSecurityChecksFailed)
          else match OpenedAsym(b, p, m, 12 + parsed.length, sender, own)
            case Failed(s) => Failed(s)
            case Done(signed) =>
              match StrippedAsym(Number32(m[8..12]), signed, room)
              case Failed(s) => Failed(s)
              case Done((numbers, body)) => Done(Info(p, sender, numbers, body))
  }

  /** Without security, numbers and body follow the header in clear. */
  function UnwrappedPlain(m: Bytes, sender: Bytes, header: nat, room: nat): (r: Attempt<Info>)
    requires 12 <= header <= |m|
  {
    if header + 8 > |m| then Failed(BadDecodingError)
    else if |m| - header - 8 > room then Failed(BadResponseTooLarge)
    else Done(Info(NoPolicy, sender, Numbers(Number32(m[8..12]), Number32(m[header..header + 4]), Number32(m[header + 4..header + 8])), m[header + 8..]))
  }

  /** mu_asym_chunk_unwrap on values. */
  function Unwrapped(b: Crypto, chunk: Bytes, room: nat): (r: Attempt<Info>) {
    if |chunk| < 12 || chunk[..3] != [79, 80, 78] then Failed(BadDecodingError)
    else
      var size := FromLE(chunk[4..8]);
      if size > |chunk| || size < 12 then Failed(BadDecodingError)
      else
        var m := chunk[..size];
        match ParseTail(m[12..])
        case Failed(s) => Failed(s)
        case Done(parsed) =>
          match FromUri(parsed.uri)
          case None => Failed(BadSecurityPolicyRejected)
          case Some(p) =>
            if p == NoPolicy then UnwrappedPlain(m, BytesOf(parsed.certificate), 12 + parsed.length, room)
            else UnwrappedSecured(b, p, m, parsed, room)
  }

  // ----- There and back

  /** What stripping one byte's worth of padding leaves of a longer one. */
  function Surplus(pad: nat): (r: Bytes)
    ensures r == [] <==> pad <= 255
  {
    Repeat(pad % 256, pad - pad % 256)
  }

  lemma PadRegionComesBack(front: Bytes, pad: nat)
    ensures var s, q := front + PadRegion(pad), pad % 256;
      s[|s| - 1] == q && PaddedWith(s, q) && s[..|s| - 1 - q] == front + Surplus(pad)
  {
    var s, q := front + PadRegion(pad), pad % 256;
    forall j | |front| <= j < |s| ensures s[j] == q { assert s[j] == PadRegion(pad)[j - |front|]; }
    var l, r := s[..|s| - 1 - q], front + Surplus(pad);
    forall j | 0 <= j < |l| ensures l[j] == r[j] {
      if j >= |front| { assert r[j] == Surplus(pad)[j - |front|]; }
    }
  }

  lemma StrippedComesBack(n: Numbers, body: Bytes, pad: nat, room: nat)
    requires |body| + |Surplus(pad)| <= room
    ensures StrippedAsym(n.channel, NumberedBody(n, body) + PadRegion(pad), room) == Done((n, body + Surplus(pad)))
  {
    hide PadRegion, PaddedWith, Surplus, LE, FromLE;
    var q, r := LE(n.number, 4), LE(n.request, 4);
    var signed := NumberedBody(n, body) + PadRegion(pad);
    PadRegionComesBack(NumberedBody(n, body), pad);
    var s := signed[..|signed| - 1 - pad % 256];
    assert s == q + r + (body + Surplus(pad));
    assert s[8..] == body + Surplus(pad) && s[8..] == signed[8..|signed| - 1 - pad % 256];
    assert signed == [] + q + (r + body + PadRegion(pad));
    FourBytes([], n.number, r + body + PadRegion(pad));
    assert signed == q + r + (body + PadRegion(pad));
    FourBytes(q, n.request, body + PadRegion(pad));
  }

  lemma OpenedComesBack(a: Crypto, b: Crypto, p: Policy, header: Bytes, plain: Bytes, signature: Bytes, block: nat, blocks: nat)
    requires Paired(a, b) && KeyBytes(a, a.ownCertificate.value).Done? && KeyBytes(b, b.ownCertificate.value).Done?
    requires var own, key := a.ownCertificate.value, KeyBytes(b, b.ownCertificate.value).value;
      && a.sign(p == Aes256Pss, header + plain) == Done(signature) && |signature| == KeyBytes(a, own).value
      && block > 0 && |plain + signature| == block * blocks <= MAX_PLAINTEXT && |header| + |plain| <= SIGNED_INPUT_MAX && |plain| >= 9
      && EncryptBlocks(a, p == Aes256Pss, b.ownCertificate.value, plain + signature, block, key).Done?
    ensures var key := KeyBytes(b, b.ownCertificate.value).value;
      var cipher := EncryptBlocks(a, p == Aes256Pss, b.ownCertificate.value, plain + signature, block, key).value;
      && |cipher| == key * blocks
      && OpenedAsym(b, p, header + cipher, |header|, a.ownCertificate.value, b.ownCertificate.value) == Done(plain)
  {
    hide EncryptBlocks, DecryptBlocks;
    var key := KeyBytes(b, b.ownCertificate.value).value;
    var cipher := EncryptBlocks(a, p == Aes256Pss, b.ownCertificate.value, plain + signature, block, key).value;
    var m := header + cipher;
    BlocksComeBack(a, b, p == Aes256Pss, plain + signature, block, key, blocks, MAX_PLAINTEXT);
    if blocks > 0 { AtLeastOnce(key, blocks); }
    DivUnique(|cipher|, key, blocks, 0);
    assert m[|header|..] == cipher && m[..|header|] == header;
    assert (plain + signature)[..|plain|] == plain && (plain + signature)[|plain|..] == signature;
  }

  /** The padding a body gets between two certificates. */
  function PadBetween(p: Policy, signature: nat, receiverKey: nat, body: Bytes): (r: nat)
    requires PlainBlock(p, receiverKey) > 0
    ensures r < PlainBlock(p, receiverKey)
  {
    PadTo(8 + |body| + 1 + signature, PlainBlock(p, receiverKey))
  }

  ghost predicate Wrappable(a: Crypto, p: Policy, n: Numbers, receiver: Bytes, body: Bytes, capacity: nat) {
    p != NoPolicy && capacity >= 4 && !ZeroBlock(a, p, receiver) && WrappedSecured(a, p, n, receiver, body, capacity).Done?
  }

  /** The padding in a chunk that could be wrapped. */
  ghost function PadIn(a: Crypto, p: Policy, n: Numbers, receiver: Bytes, body: Bytes, capacity: nat): (r: nat)
    requires Wrappable(a, p, n, receiver, body, capacity)
  {
    hide WrappedOn, HeaderStatus;
    BlockIsThere(a, p, receiver);
    var t := TermsFor(a, receiver).value;
    PadBetween(p, t.signature, t.receiverKey, body)
  }

  /** What comes back, for every chunk that could be wrapped: the numbers, and the body with the surplus of its padding. */
  lemma RoundTrip(a: Crypto, b: Crypto, p: Policy, n: Numbers, body: Bytes, capacity: nat, rest: Bytes, room: nat)
    requires Paired(a, b) && capacity < TWO32 && Validated(b, p, a.ownCertificate.value) == Good
    requires Wrappable(a, p, n, b.ownCertificate.value, body, capacity)
    requires |body| + |Surplus(PadIn(a, p, n, b.ownCertificate.value, body, capacity))| <= room
    ensures Unwrapped(b, WrappedSecured(a, p, n, b.ownCertificate.value, body, capacity).value + rest, room)
      == Done(Info(p, a.ownCertificate.value, n, body + Surplus(PadIn(a, p, n, b.ownCertificate.value, body, capacity))))
  {
    hide EncryptBlocks, PadTo, BlockCount, HeaderTail, HeaderStatus, Uri, FromUri, ParseTail, Surplus, PadRegion, OpenedAsym, StrippedAsym, FromLE, LE, OpnHeader, NumberedBody;
    var own, receiver := a.ownCertificate.value, b.ownCertificate.value;
    var t := TermsFor(a, receiver).value;
    var certificate, thumbprint := UaString.Bytes(t.certificate), UaString.Bytes(t.thumbprint);
    HeaderFits(p, n.channel, certificate, thumbprint, capacity);
    BlockIsThere(a, p, receiver);
    var z := SizesFor(p, t, body);
    var header := OpnHeader(p, n.channel, certificate, thumbprint, z.total);
    var plain := NumberedBody(n, body) + PadRegion(z.pad);
    var signature := a.sign(p == Aes256Pss, header + plain).value;
    var cipher := EncryptBlocks(a, p == Aes256Pss, receiver, plain + signature, z.block, t.receiverKey).value;
    PaddedIsWhole(8 + |body| + 1 + t.signature, z.block);
    OpenedComesBack(a, b, p, header, plain, signature, z.block, z.blocks);
    StrippedComesBack(n, body, z.pad, room);
    var m := header + cipher;
    assert (m + rest)[..|m|] == m;
    assert m + rest == header + (cipher + rest);
    HeaderComesBack(p, n.channel, certificate, thumbprint, z.total, cipher + rest);
    HeaderComesBack(p, n.channel, certificate, thumbprint, z.total, cipher);
    UriNamesPolicy(p);
  }

  /** So the body comes back exactly if its padding is at most 255 bytes long. */
  lemma ExactUpTo255(a: Crypto, b: Crypto, p: Policy, n: Numbers, body: Bytes, capacity: nat, rest: Bytes, room: nat)
    requires Paired(a, b) && capacity < TWO32 && Validated(b, p, a.ownCertificate.value) == Good
    requires Wrappable(a, p, n, b.ownCertificate.value, body, capacity)
    requires |body| + |Surplus(PadIn(a, p, n, b.ownCertificate.value, body, capacity))| <= room
    ensures Unwrapped(b, WrappedSecured(a, p, n, b.ownCertificate.value, body, capacity).value + rest, room) == Done(Info(p, a.ownCertificate.value, n, body))
      <==> PadIn(a, p, n, b.ownCertificate.value, body, capacity) <= 255
  {
    hide WrappedSecured, Unwrapped, Surplus, PadIn, Wrappable;
    var pad := PadIn(a, p, n, b.ownCertificate.value, body, capacity);
    RoundTrip(a, b, p, n, body, capacity, rest, room);
    if pad <= 255 {
      assert body + [] == body;
    } else {
      assert |body + Surplus(pad)| > |body|;
    }
  }

  /** So with keys of 2048 bits, the least validation accepts, every body comes back. */
  lemma ExactForShortKeys(a: Crypto, b: Crypto, p: Policy, n: Numbers, body: Bytes, capacity: nat, rest: Bytes, room: nat)
    requires Paired(a, b) && capacity < TWO32 && Validated(b, p, a.ownCertificate.value) == Good && |body| <= room
    requires Wrappable(a, p, n, b.ownCertificate.value, body, capacity) && b.keyBits(b.ownCertificate.value) == Done(MIN_KEY_BITS)
    ensures Unwrapped(b, WrappedSecured(a, p, n, b.ownCertificate.value, body, capacity).value + rest, room) == Done(Info(p, a.ownCertificate.value, n, body))
  {
    hide Unwrapped, WrappedOn, HeaderStatus, Surplus;
    var pad := PadIn(a, p, n, b.ownCertificate.value, body, capacity);
    assert pad <= 255;
    ExactUpTo255(a, b, p, n, body, capacity, rest, room);
  }

  /** With 4096-bit keys an empty body already gets more. */
  lemma LargeKeysOverflow()
    ensures PlainBlock(Basic256Sha256, 512) == 470 && PadBetween(Basic256Sha256, 512, 512, []) == 419 && |Surplus(419)| == 256
  {
  }

  /** Without security everything comes back. */
  lemma PlainRoundTrip(b: Crypto, n: Numbers, body: Bytes, capacity: nat, rest: Bytes, room: nat)
    requires WrappedPlain(n, body, capacity).Done? && capacity < TWO32 && |body| <= room
    ensures Unwrapped(b, WrappedPlain(n, body, capacity).value + rest, room) == Done(Info(NoPolicy, [], n, body))
  {
    hide HeaderTail, Uri, FromUri, ParseTail, FromLE, LE, OpnHeader, NumberedBody;
    var length := 20 + |HeaderTail(NoPolicy, Null, Null)| + |body|;
    var header := OpnHeader(NoPolicy, n.channel, Null, Null, length);
    var m := header + NumberedBody(n, body);
    assert (m + rest)[..|m|] == m;
    assert m + rest == header + (NumberedBody(n, body) + rest);
    HeaderComesBack(NoPolicy, n.channel, Null, Null, length, NumberedBody(n, body) + rest);
    HeaderComesBack(NoPolicy, n.channel, Null, Null, length, NumberedBody(n, body));
    UriNamesPolicy(NoPolicy);
    NumbersComeBack(header, n, body);
  }

  lemma NumbersComeBack(header: Bytes, n: Numbers, body: Bytes)
    ensures var m := header + NumberedBody(n, body);
      && FromLE(m[|header|..|header| + 4]) == n.number && FromLE(m[|header| + 4..|header| + 8]) == n.request
      && m[|header| + 8..] == body
  {
    hide LE, FromLE;
    var q, r := LE(n.number, 4), LE(n.request, 4);
    var m := header + NumberedBody(n, body);
    assert m == header + q + (r + body);
    FourBytes(header, n.number, r + body);
    assert m == (header + q) + r + body;
    FourBytes(header + q, n.request, body);
  }

  /** The sender of a request that was let in can be answered: wrapping for it meets no empty block. */
  lemma SenderCanBeAnswered(b: Crypto, chunk: Bytes, room: nat)
    requires Unwrapped(b, chunk, room).Done?
    ensures var i := Unwrapped(b, chunk, room).value;
      Validated(b, i.policy, i.sender) == Good && !ZeroBlock(b, i.policy, i.sender)
  {
    hide OpenedAsym, StrippedAsym, ParseTail, FromUri, KeyBytes;
    var i := Unwrapped(b, chunk, room).value;
    if i.policy != NoPolicy { ValidatedKey(b, i.policy, i.sender); }
  }

  // ----- What a peer sees

  /** Which certificates are let in. */
  lemma ValidatedExactly(c: Crypto, p: Policy, certificate: Bytes)
    ensures Validated(c, p, certificate) == Good <==>
      p == NoPolicy
      || (certificate != [] && c.keyBits(certificate).Done? && 2048 <= c.keyBits(certificate).value <= 4096 && c.validity(certificate) == Good)
  {
  }

  /** A key counts in whole bytes, and must be longer than the 42 the padding takes. */
  lemma KeyBytesExactly(c: Crypto, certificate: Bytes)
    ensures KeyBytes(c, certificate) ==
      if c.keyBits(certificate).Done? && c.keyBits(certificate).value / 8 > 42 then Done(c.keyBits(certificate).value / 8) else Failed(BadCertificateInvalid)
  {
  }

  /** Block i of what is encrypted is block i of the plaintext, encrypted. */
  lemma {:induction false} BlockIs(c: Crypto, pss: bool, receiver: Bytes, plain: Bytes, block: nat, keyBytes: nat, blocks: nat, i: nat)
    requires block > 0 && |plain| == block * blocks && i < blocks && EncryptBlocks(c, pss, receiver, plain, block, keyBytes).Done?
    ensures var e := EncryptBlocks(c, pss, receiver, plain, block, keyBytes).value;
      && block * i + block <= |plain| && keyBytes * i + keyBytes <= |e|
      && c.encrypt(pss, receiver, plain[block * i..block * i + block]) == Done(e[keyBytes * i..keyBytes * i + keyBytes])
    decreases i
  {
    hide EncryptBlocks;
    Step(block, 0, blocks);
    EncryptStep(c, pss, receiver, plain, block, keyBytes);
    var first := c.encrypt(pss, receiver, plain[..block]).value;
    var rest := EncryptBlocks(c, pss, receiver, plain[block..], block, keyBytes).value;
    if i == 0 {
      assert plain[0..block] == plain[..block] && (first + rest)[0..keyBytes] == first;
    } else {
      Distribute(block, blocks, 1);
      Distribute(block, i, 1);
      Distribute(keyBytes, i, 1);
      BlockIs(c, pss, receiver, plain[block..], block, keyBytes, blocks - 1, i - 1);
      var x, y := block * (i - 1), keyBytes * (i - 1);
      assert plain[block..][x..x + block] == plain[block * i..block * i + block];
      assert (first + rest)[keyBytes + y..keyBytes + y + keyBytes] == rest[y..y + keyBytes];
    }
  }

  /** What is signed along with the header: the numbers, the body, the padding's length and its bytes. */
  function Signed(n: Numbers, body: Bytes, pad: nat): (r: Bytes) {
    LE(n.number, 4) + LE(n.request, 4) + body + [pad % 256] + Repeat(pad % 256, pad)
  }

  /**
   A secured chunk: the header in clear with the chunk's length; then, encrypted
   in blocks of the key's length less 42, or less 66 under Aes256_Sha256_RsaPss,
   the numbers, the body, the padding, and the signature of the header and of
   all that is encrypted before it. That policy alone signs with PSS and pads
   with SHA-256.
   */
  ghost predicate LaidOut(a: Crypto, p: Policy, n: Numbers, own: Bytes, receiver: Bytes, thumbprint: Bytes, key: nat, body: Bytes, pad: nat, w: Bytes) {
    && |w| >= 12 && w[..4] == [79, 80, 78, 70] && FromLE(w[4..8]) == |w| && FromLE(w[8..12]) == n.channel
    && ParseTail(w[12..]).Done?
    && var t := ParseTail(w[12..]).value;
      && t.uri == UaString.Bytes(Uri(p)) && t.certificate == UaString.Bytes(own) && t.thumbprint == UaString.Bytes(thumbprint)
      && 12 + t.length <= |w|
      && var s, block := a.sign(p == Aes256Pss, w[..12 + t.length] + Signed(n, body, pad)), if p == Aes256Pss then key - 66 else key - 42;
        && s.Done? && block > 0
        && EncryptBlocks(a, p == Aes256Pss, receiver, Signed(n, body, pad) + s.value, block, key) == Done(w[12 + t.length..])
  }

  lemma SecuredLayout(a: Crypto, p: Policy, n: Numbers, receiver: Bytes, body: Bytes, capacity: nat)
    requires Wrappable(a, p, n, receiver, body, capacity) && capacity < TWO32
    ensures a.ownCertificate.Done? && KeyBytes(a, receiver).Done? && a.thumbprint(receiver).Done?
    ensures LaidOut(a, p, n, a.ownCertificate.value, receiver, a.thumbprint(receiver).value, KeyBytes(a, receiver).value, body,
                    PadIn(a, p, n, receiver, body, capacity), WrappedSecured(a, p, n, receiver, body, capacity).value)
  {
    hide EncryptBlocks, PadTo, BlockCount, HeaderTail, HeaderStatus, Uri, ParseTail, FromLE, LE;
    var t := TermsFor(a, receiver).value;
    var certificate, thumbprint := UaString.Bytes(t.certificate), UaString.Bytes(t.thumbprint);
    HeaderFits(p, n.channel, certificate, thumbprint, capacity);
    BlockIsThere(a, p, receiver);
    var z := SizesFor(p, t, body);
    var header := OpnHeader(p, n.channel, certificate, thumbprint, z.total);
    var plain := NumberedBody(n, body) + PadRegion(z.pad);
    assert plain == Signed(n, body, z.pad);
    var signature := a.sign(p == Aes256Pss, header + plain).value;
    var cipher := EncryptBlocks(a, p == Aes256Pss, receiver, plain + signature, z.block, t.receiverKey).value;
    BlockIsShort(p, t, body);
    ShortBlock(p, t.receiverKey);
    PaddedIsWhole(8 + |body| + 1 + t.signature, z.block);
    EncryptedLengthIs(a, p == Aes256Pss, receiver, plain + signature, z.block, t.receiverKey, z.blocks);
    HeaderComesBack(p, n.channel, certificate, thumbprint, z.total, cipher);
    assert (header + cipher)[..4] == [79, 80, 78, 70];
    assert (header + cipher)[..|header|] == header && (header + cipher)[|header|..] == cipher;
  }

  lemma ShortBlock(p: Policy, key: nat)
    requires 42 < key < TWO64 && 0 < PlainBlock(p, key) <= key
    ensures PlainBlock(p, key) == if p == Aes256Pss then key - 66 else key - 42
  {
  }

  lemma {:induction false} EncryptedLengthIs(c: Crypto, pss: bool, receiver: Bytes, plain: Bytes, block: nat, keyBytes: nat, blocks: nat)
    requires block > 0 && |plain| == block * blocks && EncryptBlocks(c, pss, receiver, plain, block, keyBytes).Done?
    ensures |EncryptBlocks(c, pss, receiver, plain, block, keyBytes).value| == keyBytes * blocks
    decreases blocks
  {
    hide EncryptBlocks;
    if blocks == 0 {
      EncryptNothing(c, pss, receiver, plain, block, keyBytes);
    } else {
      Distribute(block, blocks, 1);
      Distribute(keyBytes, blocks, 1);
      AtLeastOnce(block, blocks);
      EncryptStep(c, pss, receiver, plain, block, keyBytes);
      EncryptedLengthIs(c, pss, receiver, plain[block..], block, keyBytes, blocks - 1);
    }
  }

  /** When there is no chunk for want of room: more than 2048 bytes to encrypt, more than 4096 to sign, or more than the buffer holds. */
  lemma WhenTooLarge(a: Crypto, p: Policy, n: Numbers, receiver: Bytes, t: Terms, body: Bytes, capacity: nat)
    requires PlainBlock(p, t.receiverKey) > 0 && EncodableString(UaString.Bytes(t.certificate)) && EncodableString(UaString.Bytes(t.thumbprint))
    ensures var header := 12 + |HeaderTail(p, UaString.Bytes(t.certificate), UaString.Bytes(t.thumbprint))|;
      var pad := PadBetween(p, t.signature, t.receiverKey, body);
      var blocks := (9 + |body| + t.signature + pad) / PlainBlock(p, t.receiverKey);
      var w := WrappedOn(a, p, n, receiver, t, body, capacity);
      if 9 + |body| + t.signature + pad > 2048 || header + 9 + |body| + pad > 4096 then w == Failed(BadRequestTooLarge)
      else if header + t.receiverKey * blocks > capacity then w == Failed(BadResponseTooLarge)
      else if t.signature > 512 then w == Failed(BadInternalError)
      else true
  {
    hide HeaderTail, PadTo, Sealed;
  }

  /** Nothing secured is accepted without the sender's signature, of its policy's kind, over the header and all that was encrypted before it. */
  lemma AcceptedIsSignedBySender(b: Crypto, p: Policy, m: Bytes, header: nat, sender: Bytes, own: Bytes)
    requires header <= |m| && OpenedAsym(b, p, m, header, sender, own).Done?
    ensures KeyBytes(b, own).Done? && DecryptBlocks(b, p == Aes256Pss, m[header..], KeyBytes(b, own).value, 2048).Some?
    ensures var signed := OpenedAsym(b, p, m, header, sender, own).value;
      var plain := DecryptBlocks(b, p == Aes256Pss, m[header..], KeyBytes(b, own).value, 2048).value;
      && signed <= plain && KeyBytes(b, sender) == Done(|plain| - |signed|)
      && b.verify(p == Aes256Pss, sender, m[..header] + signed, plain[|signed|..]) == Good
  {
    hide DecryptBlocks;
  }

  /** Who gets a secured chunk accepted: a validated sender, who addressed it to this certificate. */
  lemma AcceptedIsAddressed(b: Crypto, p: Policy, m: Bytes, parsed: Parsed, room: nat)
    requires |m| >= 12 && 12 + parsed.length <= |m| && UnwrappedSecured(b, p, m, parsed, room).Done?
    ensures Validated(b, p, BytesOf(parsed.certificate)) == Good && b.ownCertificate.Done?
    ensures b.thumbprint(b.ownCertificate.value) == Done(BytesOf(parsed.thumbprint)) && |BytesOf(parsed.thumbprint)| == 20
    ensures OpenedAsym(b, p, m, 12 + parsed.length, BytesOf(parsed.certificate), b.ownCertificate.value).Done?
    ensures UnwrappedSecured(b, p, m, parsed, room).value.policy == p && UnwrappedSecured(b, p, m, parsed, room).value.sender == BytesOf(parsed.certificate)
  {
    hide OpenedAsym, StrippedAsym, FromLE;
  }

  // ----- In place

  /** One block after the other into the output; `to` is where the next one goes. */
  method EncryptInto(c: Crypto, pss: bool, receiver: Bytes, plain: Bytes, block: nat, blocks: nat, keyBytes: nat, out: array<byte>, at: nat)
    returns (s: Status)
    requires block > 0 && |plain| == block * blocks && at + keyBytes * blocks <= out.Length
    modifies out
    ensures var e := EncryptBlocks(c, pss, receiver, plain, block, keyBytes);
      if e.Done? then s == Good && |e.value| == keyBytes * blocks && out[..at + keyBytes * blocks] == old(out[..at]) + e.value
      else s == e.status
  {
    hide EncryptBlocks;
    ghost var head := out[..at];
    ghost var done: Bytes := [];
    var from, to := 0, at;
    ghost var all := EncryptBlocks(c, pss, receiver, plain, block, keyBytes);
    assert plain[0..] == plain && (all.Done? ==> [] + all.value == all.value);
    for i := 0 to blocks
      invariant from == block * i && to == at + keyBytes * i && |done| == keyBytes * i
      invariant to <= out.Length && out[..to] == head + done
      invariant from <= |plain|
      invariant all == Prefixed(done, EncryptBlocks(c, pss, receiver, plain[from..], block, keyBytes))
    {
      Step(block, i, blocks);
      Step(keyBytes, i, blocks);
      EncryptStep(c, pss, receiver, plain[from..], block, keyBytes);
      assert plain[from..][..block] == plain[from..from + block] && plain[from..][block..] == plain[from + block..];
      var encrypted := c.encrypt(pss, receiver, plain[from..from + block]);
      if encrypted.Failed? {
        return encrypted.status;
      }
      if |encrypted.value| != keyBytes {
        return BadInternalError;
      }
      ghost var rest := EncryptBlocks(c, pss, receiver, plain[from + block..], block, keyBytes);
      if rest.Done? { Associate(done, encrypted.value, rest.value); }
      Associate(head, done, encrypted.value);
      Put(out, to, encrypted.value);
      done := done + encrypted.value;
      from, to := from + block, to + keyBytes;
    }
    EncryptNothing(c, pss, receiver, plain[from..], block, keyBytes);
    assert done + [] == done;
    s := Good;
  }

  lemma Step(b: nat, i: nat, n: nat)
    requires i < n
    ensures b * i + b == b * (i + 1) <= b * n
  {
    Distribute(b, i + 1, 1);
    Distribute(b, n, i + 1);
    if n > i + 1 { AtLeastOnce(b, n - (i + 1)); }
  }

  lemma EncryptStep(c: Crypto, pss: bool, receiver: Bytes, plain: Bytes, block: nat, keyBytes: nat)
    requires block > 0 && |plain| >= block
    ensures var e, first := EncryptBlocks(c, pss, receiver, plain, block, keyBytes), c.encrypt(pss, receiver, plain[..block]);
      e == if first.Failed? then Failed(first.status) else if |first.value| != keyBytes then Failed(BadInternalError)
           else Prefixed(first.value, EncryptBlocks(c, pss, receiver, plain[block..], block, keyBytes))
  {
  }

  lemma EncryptNothing(c: Crypto, pss: bool, receiver: Bytes, plain: Bytes, block: nat, keyBytes: nat)
    requires plain == [] && block > 0
    ensures EncryptBlocks(c, pss, receiver, plain, block, keyBytes) == Done([])
  {
  }

  /** One block after the other into the scratch area. */
  method DecryptInto(c: Crypto, pss: bool, cipher: Bytes, keyBytes: nat, blocks: nat, scratch: array<byte>) returns (ok: bool, length: nat)
    requires keyBytes > 0 && |cipher| == keyBytes * blocks && scratch.Length >= MAX_PLAINTEXT
    modifies scratch
    ensures var d := DecryptBlocks(c, pss, cipher, keyBytes, MAX_PLAINTEXT);
      && (ok <==> d.Some?)
      && (ok ==> length == |d.value| && scratch[..length] == d.value)
  {
    hide DecryptBlocks;
    length := 0;
    var from := 0;
    ghost var all := DecryptBlocks(c, pss, cipher, keyBytes, MAX_PLAINTEXT);
    assert cipher[0..] == cipher && (all.Some? ==> [] + all.value == all.value) && scratch[..0] == [];
    for i := 0 to blocks
      invariant from == keyBytes * i <= |cipher| && length <= MAX_PLAINTEXT
      invariant var r := DecryptBlocks(c, pss, cipher[from..], keyBytes, MAX_PLAINTEXT - length);
        all == if r.Some? then Some(scratch[..length] + r.value) else None
    {
      Step(keyBytes, i, blocks);
      ghost var room := MAX_PLAINTEXT - length;
      DecryptStep(c, pss, cipher[from..], keyBytes, room);
      assert cipher[from..][..keyBytes] == cipher[from..from + keyBytes] && cipher[from..][keyBytes..] == cipher[from + keyBytes..];
      var plain := c.decrypt(pss, cipher[from..from + keyBytes]);
      if plain.Failed? || |plain.value| > MAX_PLAINTEXT - length {
        return false, 0;
      }
      ghost var rest := DecryptBlocks(c, pss, cipher[from + keyBytes..], keyBytes, room - |plain.value|);
      if rest.Some? { Associate(scratch[..length], plain.value, rest.value); }
      Put(scratch, length, plain.value);
      length := length + |plain.value|;
      from := from + keyBytes;
    }
    DecryptNothing(c, pss, cipher[from..], keyBytes, MAX_PLAINTEXT - length);
    assert scratch[..length] + [] == scratch[..length];
    ok := true;
  }

  lemma DecryptStep(c: Crypto, pss: bool, cipher: Bytes, keyBytes: nat, room: nat)
    requires keyBytes > 0 && |cipher| >= keyBytes
    ensures var d, first := DecryptBlocks(c, pss, cipher, keyBytes, room), c.decrypt(pss, cipher[..keyBytes]);
      if first.Failed? || |first.value| > room then d == None
      else
        var rest := DecryptBlocks(c, pss, cipher[keyBytes..], keyBytes, room - |first.value|);
        d == if rest.None? then None else Some(first.value + rest.value)
  {
  }

  lemma DecryptNothing(c: Crypto, pss: bool, cipher: Bytes, keyBytes: nat, room: nat)
    requires cipher == [] && keyBytes > 0
    ensures DecryptBlocks(c, pss, cipher, keyBytes, room) == Some([])
  {
  }

  /** The plaintext in its scratch area: numbers, body, PaddingSize and padding. */
  method LayPlaintext(n: Numbers, body: Bytes, pad: nat, plain: array<byte>)
    requires 8 + |body| + 1 + pad <= plain.Length
    modifies plain
    ensures plain[..8 + |body| + 1 + pad] == NumberedBody(n, body) + PadRegion(pad)
  {
    hide LE;
    Put(plain, 0, LE(n.number, 4));
    Put(plain, 4, LE(n.request, 4));
    Put(plain, 8, body);
    Put(plain, 8 + |body|, [pad % 256]);
    Fill(plain, 8 + |body| + 1, pad % 256, pad);
    assert plain[..0] == [];
  }

  lemma CipherHoldsPlain(block: nat, key: nat, blocks: nat)
    requires block <= key
    ensures block * blocks <= key * blocks
  {
  }

  /** The header in the output, with the final MessageSize patched in before anything is signed. */
  method LayOpnHeader(out: array<byte>, p: Policy, channel: u32, certificate: UaString, thumbprint: UaString, ghost length: nat, total: nat)
    requires 12 <= length <= out.Length && EncodableString(certificate) && EncodableString(thumbprint)
    requires out[..length] == OpnHeader(p, channel, certificate, thumbprint, 0)
    modifies out
    ensures out[..length] == OpnHeader(p, channel, certificate, thumbprint, total) && out[length..] == old(out[length..])
  {
    hide LE, HeaderTail;
    ghost var tail := HeaderTail(p, certificate, thumbprint);
    ghost var was := out[..length];
    assert was[..4] == [79, 80, 78, 70] && was[8..] == LE(channel, 4) + tail;
    assert out[..4] == was[..4] && out[8..][..length - 8] == was[8..];
    Put(out, 4, LE(total, 4));
    assert out[..length] == out[..8] + out[8..][..length - 8];
  }

  /** Sign what stands in the output, put the signature behind the plaintext, and encrypt over the output. */
  method SealInto(a: Crypto, p: Policy, receiver: Bytes, t: Terms, z: Sizes, plain: array<byte>, presig: nat, out: array<byte>, ghost header: Bytes)
    returns (s: Status)
    requires plain != out && presig + t.signature <= plain.Length && z.block > 0 && z.block <= t.receiverKey
    requires |header| == z.header && z.header + t.receiverKey * z.blocks <= out.Length && out[..z.header] == header
    requires presig + t.signature == z.block * z.blocks
    modifies plain, out
    ensures var w := Sealed(a, p, receiver, t, z, header, old(plain[..presig]));
      if w.Done? then s == Good && z.header + t.receiverKey * z.blocks <= out.Length && out[..z.header + t.receiverKey * z.blocks] == w.value
      else s == w.status
  {
    hide EncryptBlocks;
    CipherHoldsPlain(z.block, t.receiverKey, z.blocks);
    ghost var signed := plain[..presig];
    Put(out, z.header, plain[..presig]);
    var signature := a.sign(p == Aes256Pss, out[..z.header + presig]);
    if signature.Failed? {
      return signature.status;
    }
    if |signature.value| != t.signature {
      return BadInternalError;
    }
    Put(plain, presig, signature.value);
    assert out[..z.header] == header by { assert out[..z.header + presig][..z.header] == out[..z.header]; }
    s := EncryptInto(a, p == Aes256Pss, receiver, plain[..presig + t.signature], z.block, z.blocks, t.receiverKey, out, z.header);
  }

  /** The part of mu_asym_chunk_wrap after the header is written. */
  method WrapOn(a: Crypto, p: Policy, n: Numbers, receiver: Bytes, t: Terms, body: Bytes, out: array<byte>) returns (s: Status, length: nat)
    requires PlainBlock(p, t.receiverKey) > 0 && t.receiverKey > OAEP_SHA1_OVERHEAD
    requires EncodableString(UaString.Bytes(t.certificate)) && EncodableString(UaString.Bytes(t.thumbprint))
    requires var header := OpnHeader(p, n.channel, UaString.Bytes(t.certificate), UaString.Bytes(t.thumbprint), 0);
      |header| <= out.Length && out[..|header|] == header
    modifies out
    ensures var w := WrappedOn(a, p, n, receiver, t, body, out.Length);
      if w.Done? then s == Good && length <= out.Length && out[..length] == w.value else s == w.status
  {
    hide HeaderTail, NumberedBody, PadRegion, EncryptBlocks, PadTo, BlockCount, OpnHeader;
    length := 0;
    var certificate, thumbprint := UaString.Bytes(t.certificate), UaString.Bytes(t.thumbprint);
    var z := SizesFor(p, t, body);
    s := LimitStatus(z, t, body, out.Length);
    if s != Good {
      return;
    }
    LayOpnHeader(out, p, n.channel, certificate, thumbprint, z.header, z.total);
    var plain := new byte[MAX_PLAINTEXT];
    var presig := 8 + |body| + 1 + z.pad;
    LayPlaintext(n, body, z.pad, plain);
    PaddedIsWhole(8 + |body| + 1 + t.signature, z.block);
    BlockIsShort(p, t, body);
    s := SealInto(a, p, receiver, t, z, plain, presig, out, OpnHeader(p, n.channel, certificate, thumbprint, z.total));
    length := z.total;
  }

  /** A block that wrapped around is beyond the limits. */
  lemma BlockIsShort(p: Policy, t: Terms, body: Bytes)
    requires PlainBlock(p, t.receiverKey) > 0 && t.receiverKey > OAEP_SHA1_OVERHEAD
    requires 8 + |body| + 1 + t.signature + PadTo(8 + |body| + 1 + t.signature, PlainBlock(p, t.receiverKey)) <= MAX_PLAINTEXT
    ensures PlainBlock(p, t.receiverKey) <= t.receiverKey
  {
    hide PadTo;
    var block := PlainBlock(p, t.receiverKey);
    var base := 8 + |body| + 1 + t.signature;
    PaddedIsWhole(base, block);
    if BlockCount(base, block) > 0 { AtLeastOnce(block, BlockCount(base, block)); }
  }

  /** So under Aes256_Sha256_RsaPss a receiver's key below the overhead is refused, if only because its block is huge. */
  lemma ShortKeyIsRefused(a: Crypto, n: Numbers, receiver: Bytes, t: Terms, body: Bytes, capacity: nat)
    requires OAEP_SHA1_OVERHEAD < t.receiverKey < OAEP_SHA256_OVERHEAD
    requires EncodableString(UaString.Bytes(t.certificate)) && EncodableString(UaString.Bytes(t.thumbprint))
    ensures WrappedOn(a, Aes256Pss, n, receiver, t, body, capacity) == Failed(BadRequestTooLarge)
  {
    hide HeaderTail, PadTo, BlockCount, Sealed;
    var base := 8 + |body| + 1 + t.signature;
    if base + PadTo(base, PlainBlock(Aes256Pss, t.receiverKey)) <= MAX_PLAINTEXT {
      BlockIsShort(Aes256Pss, t, body);
    }
  }

  /** wrap_none. */
  method WrapNone(n: Numbers, body: Bytes, out: array<byte>) returns (s: Status, length: nat)
    requires out.Length >= 4
    modifies out
    ensures var w := WrappedPlain(n, body, out.Length);
      if w.Done? then s == Good && length <= out.Length && out[..length] == w.value else s == w.status
  {
    hide HeaderTail, LE;
    ghost var tail := HeaderTail(NoPolicy, Null, Null);
    s, length := WritePlainHeader(out, n.channel, n.number, n.request);
    if s != Good {
      return;
    }
    if length + |body| > out.Length {
      return BadResponseTooLarge, 0;
    }
    Put(out, length, body);
    ghost var header := OpnHeader(NoPolicy, n.channel, Null, Null, 0);
    assert out[..length + |body|] == header + NumberedBody(n, body);
    assert out[..|header|] == header by { assert out[..length + |body|][..|header|] == out[..|header|]; }
    ghost var after := out[|header|..];
    length := length + |body|;
    assert after[..length - |header|] == NumberedBody(n, body) by { assert out[..length][|header|..] == after[..length - |header|]; }
    LayOpnHeader(out, NoPolicy, n.channel, Null, Null, 12 + |tail|, length);
  }

  /** mu_asym_chunk_wrap. The output holds at least the message type, and the receiver's blocks hold something. */
  method Wrap(a: Crypto, p: Policy, n: Numbers, receiver: Bytes, body: Bytes, out: array<byte>) returns (s: Status, length: nat)
    requires out.Length >= 4 && !ZeroBlock(a, p, receiver)
    modifies out
    ensures var w := Wrapped(a, p, n, receiver, body, out.Length);
      if w.Done? then s == Good && length <= out.Length && out[..length] == w.value else s == w.status
  {
    hide WrappedOn, WrappedPlain, HeaderSteps, HeaderTail, OpnHeader, HeaderStatus;
    length := 0;
    if p == NoPolicy {
      s, length := WrapNone(n, body, out);
      return;
    }
    var terms := TermsFor(a, receiver);
    if terms.Failed? {
      return terms.status, 0;
    }
    var t := terms.value;
    var certificate, thumbprint := UaString.Bytes(t.certificate), UaString.Bytes(t.thumbprint);
    s := WriteOpnHeader(out, p, n.channel, certificate, thumbprint);
    if s != Good {
      return;
    }
    BlockIsThere(a, p, receiver);
    s, length := WrapOn(a, p, n, receiver, t, body, out);
  }

  /** Decryption and signature check, leaving the signed region at the start of the scratch area. */
  method OpenInto(b: Crypto, p: Policy, m: Bytes, header: nat, sender: Bytes, own: Bytes, scratch: array<byte>) returns (s: Status, end: nat)
    requires header <= |m| && scratch.Length >= MAX_PLAINTEXT
    modifies scratch
    ensures var o := OpenedAsym(b, p, m, header, sender, own);
      if o.Done? then s == Good && end <= scratch.Length && scratch[..end] == o.value else s == o.status != Good
  {
    hide DecryptBlocks;
    end := 0;
    var ownKey, signature := KeyBytes(b, own), KeyBytes(b, sender);
    if ownKey.Failed? {
      return ownKey.status, 0;
    }
    if signature.Failed? {
      return signature.status, 0;
    }
    var length := |m| - header;
    if length == 0 || length % ownKey.value != 0 {
      return BadDecodingError, 0;
    }
    var blocks := length / ownKey.value;
    assert |m[header..]| == ownKey.value * blocks;
    var ok, plain := DecryptInto(b, p == Aes256Pss, m[header..], ownKey.value, blocks, scratch);
    if !ok || plain < signature.value + 1 + 8 {
      return BadSecurityChecksFailed, 0;
    }
    end := plain - signature.value;
    if header + end > SIGNED_INPUT_MAX {
      return BadSecurityChecksFailed, 0;
    }
    assert scratch[..plain][..end] == scratch[..end] && scratch[..plain][end..] == scratch[end..plain];
    if b.verify(p == Aes256Pss, sender, m[..header] + scratch[..end], scratch[end..plain]) != Good {
      return BadSecurityChecksFailed, 0;
    }
    s := Good;
  }

  /** The padding loop, and the body copied out. */
  method StripInto(channel: u32, scratch: array<byte>, end: nat, body: array<byte>) returns (s: Status, n: Numbers, length: nat)
    requires 9 <= end <= scratch.Length && body != scratch
    modifies body
    ensures var i := StrippedAsym(channel, scratch[..end], body.Length);
      if i.Done? then s == Good && n == i.value.0 && length <= body.Length && body[..length] == i.value.1 else s == i.status
  {
    hide FromLE;
    n, length := Numbers(0, 0, 0), 0;
    ghost var signed := scratch[..end];
    var pad: nat := scratch[end - 1];
    if end < pad + 1 + 8 {
      return BadSecurityChecksFailed, n, 0;
    }
    for i := 1 to pad + 1
      invariant forall j :: end - i <= j < end - 1 ==> scratch[j] == pad
    {
      if scratch[end - 1 - i] != pad {
        assert !PaddedWith(signed, pad) by { assert signed[end - 1 - i] != pad; }
        return BadSecurityChecksFailed, n, 0;
      }
    }
    assert PaddedWith(signed, pad);
    length := end - 1 - pad - 8;
    assert signed[8..end - 1 - pad] == scratch[8..8 + length];
    if length > body.Length {
      return BadResponseTooLarge, n, 0;
    }
    assert signed[..4] == scratch[..4] && signed[4..8] == scratch[4..8];
    n := Numbers(channel, Number32(scratch[..4]), Number32(scratch[4..8]));
    Put(body, 0, scratch[8..8 + length]);
    s := Good;
  }

  /** mu_asym_chunk_unwrap, from the parsed header of a secured policy on. */
  method UnwrapSecured(b: Crypto, p: Policy, m: Bytes, parsed: Parsed, scratch: array<byte>, body: array<byte>) returns (s: Status, n: Numbers, length: nat)
    requires |m| >= 12 && 12 + parsed.length <= |m| && scratch.Length >= MAX_PLAINTEXT && body != scratch
    modifies scratch, body
    ensures var u := UnwrappedSecured(b, p, m, parsed, body.Length);
      if u.Done? then s == Good && length <= body.Length && u.value == Info(p, BytesOf(parsed.certificate), n, body[..length]) else s == u.status
  {
    hide OpenedAsym, StrippedAsym, FromLE;
    n, length := Numbers(0, 0, 0), 0;
    var sender := BytesOf(parsed.certificate);
    var valid := Validated(b, p, sender);
    if valid != Good {
      return valid, n, 0;
    }
    if b.ownCertificate.Failed? {
      return b.ownCertificate.status, n, 0;
    }
    var own := b.ownCertificate.value;
    var thumbprint := b.thumbprint(own);
    if thumbprint.Failed? {
      return thumbprint.status, n, 0;
    }
    if |BytesOf(parsed.thumbprint)| != THUMBPRINT || BytesOf(parsed.thumbprint) != thumbprint.value {
      return BadSecurityChecksFailed, n, 0;
    }
    var end;
    s, end := OpenInto(b, p, m, 12 + parsed.length, sender, own, scratch);
    if s != Good {
      return;
    }
    s, n, length := StripInto(Number32(m[8..12]), scratch, end, body);
  }

  /** mu_asym_chunk_unwrap. */
  method Unwrap(b: Crypto, chunk: Bytes, scratch: array<byte>, body: array<byte>)
    returns (s: Status, policy: Policy, sender: Bytes, n: Numbers, length: nat)
    requires body != scratch
    modifies scratch, body
    ensures scratch.Length < MAX_PLAINTEXT + SIGNED_INPUT_MAX ==> s == BadInternalError
    ensures scratch.Length >= MAX_PLAINTEXT + SIGNED_INPUT_MAX ==>
      var u := Unwrapped(b, chunk, body.Length);
      if u.Done? then s == Good && length <= body.Length && u.value == Info(policy, sender, n, body[..length]) else s == u.status
  {
    hide UnwrappedSecured, FromLE, ParseTail, FromUri;
    policy, sender, n, length := NoPolicy, [], Numbers(0, 0, 0), 0;
    if scratch.Length < MAX_PLAINTEXT + SIGNED_INPUT_MAX {
      return BadInternalError, policy, sender, n, 0;
    }
    if |chunk| < 12 || chunk[..3] != [79, 80, 78] {
      return BadDecodingError, policy, sender, n, 0;
    }
    var size := FromLE(chunk[4..8]);
    if size > |chunk| || size < 12 {
      return BadDecodingError, policy, sender, n, 0;
    }
    var m := chunk[..size];
    var parsed := ParseTail(m[12..]);
    if parsed.Failed? {
      return parsed.status, policy, sender, n, 0;
    }
    var named := FromUri(parsed.value.uri);
    if named.None? {
      return BadSecurityPolicyRejected, policy, sender, n, 0;
    }
    policy, sender := named.value, BytesOf(parsed.value.certificate);
    if policy != NoPolicy {
      s, n, length := UnwrapSecured(b, policy, m, parsed.value, scratch, body);
      return;
    }
    var header := 12 + parsed.value.length;
    if header + 8 > |m| {
      return BadDecodingError, policy, sender, n, 0;
    }
    length := |m| - header - 8;
    if length > body.Length {
      return BadResponseTooLarge, policy, sender, n, 0;
    }
    n := Numbers(Number32(m[8..12]), Number32(m[header..header + 4]), Number32(m[header + 4..header + 8]));
    Put(body, 0, m[header + 8..]);
    s := Good;
  }
}
