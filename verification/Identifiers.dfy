/**
 The numbers CreateSession hands out (section 5.7.2 of OPC 10000-4): one entropy
 value, salted until the result is held by no other live session. As long as a
 slot is free, no entropy value can exhaust the candidates.
 */
module Identifiers {
  import opened Types

  // ----- 32-bit arithmetic

  /** Exclusive or of the low n bits. */
  function XorBits(a: nat, b: nat, n: nat): (r: nat) {
    if n == 0 then 0 else (if a % 2 == b % 2 then 0 else 1) + 2 * XorBits(a / 2, b / 2, n - 1)
  }

  function Power2(n: nat): (r: nat)
    ensures r > 0
  {
    if n == 0 then 1 else 2 * Power2(n - 1)
  }

  lemma {:induction false} XorBound(a: nat, b: nat, n: nat)
    ensures XorBits(a, b, n) < Power2(n)
  {
    if n > 0 { XorBound(a / 2, b / 2, n - 1); }
  }

  /** What was mixed in can be told from the result. */
  lemma {:induction false} XorInjective(a: nat, b: nat, c: nat, n: nat)
    requires b < Power2(n) && c < Power2(n) && XorBits(a, b, n) == XorBits(a, c, n)
    ensures b == c
  {
    if n > 0 {
      XorInjective(a / 2, b / 2, c / 2, n - 1);
    }
  }

  lemma {:induction false} XorZero(a: nat, b: nat, n: nat)
    requires a < Power2(n) && b < Power2(n) && XorBits(a, b, n) == 0
    ensures a == b
  {
    if n > 0 {
      XorZero(a / 2, b / 2, n - 1);
    }
  }

  lemma Power32()
    ensures Power2(32) == TWO32
  {
    Power8(24);
    Power8(16);
    Power8(8);
    Power8(0);
  }

  lemma Power8(n: nat)
    ensures Power2(n + 8) == 256 * Power2(n)
  {
    assert Power2(n + 8) == 2 * Power2(n + 7) == 4 * Power2(n + 6) == 8 * Power2(n + 5) == 16 * Power2(n + 4);
    assert Power2(n + 4) == 2 * Power2(n + 3) == 4 * Power2(n + 2) == 8 * Power2(n + 1) == 16 * Power2(n);
  }

  function Xor(a: u32, b: u32): (r: u32) {
    XorBound(a, b, 32);
    Power32();
    XorBits(a, b, 32)
  }

  const GOLDEN: nat := 0x9E3779B9

  function Salted(salt: nat): (r: u32) {
    GOLDEN * salt % TWO32
  }

  /** The multiplier is odd: 340573321 is its inverse modulo 2^32. */
  lemma OddMultiplier(d: int, m: int)
    requires GOLDEN * d == TWO32 * m
    ensures d == TWO32 * (340573321 * m - 210485888 * d)
  {
    assert 340573321 * (GOLDEN * d) == d + TWO32 * (210485888 * d);
  }

  /** So no two salts collide. */
  lemma SaltedInjective(s: u32, t: u32)
    requires Salted(s) == Salted(t)
    ensures s == t
  {
    var p, q := GOLDEN * s / TWO32, GOLDEN * t / TWO32;
    assert GOLDEN * (s - t) == TWO32 * (p - q);
    OddMultiplier(s - t, p - q);
    NoMultipleBetween(s - t, 340573321 * (p - q) - 210485888 * (s - t));
  }

  lemma NoMultipleBetween(d: int, k: int)
    requires -TWO32 < d < TWO32 && d == TWO32 * k
    ensures d == 0
  {
  }

  // ----- Candidates

  datatype Kind = SessionId | AuthenticationToken

  /** What salting makes of the entropy value. */
  function Raw(k: Kind, base: u32, salt: u32): (r: u32) {
    if k.SessionId? then Xor(base, Salted(salt)) else (Xor(base, 0xA5A5_A5A5) + Salted(salt)) % TWO32
  }

  /** The same, with something else in place of zero. */
  function Candidate(k: Kind, base: u32, salt: u32): (r: u32) {
    if Raw(k, base, salt) != 0 then Raw(k, base, salt)
    else if k.SessionId? then Xor(0x85EB_CA6B, salt) else Xor(0xC2B2_AE35, salt)
  }

  lemma RawInjective(k: Kind, base: u32, s: u32, t: u32)
    requires Raw(k, base, s) == Raw(k, base, t)
    ensures s == t
  {
    hide XorBits, Salted;
    if k.SessionId? {
      Power32();
      XorInjective(base, Salted(s), Salted(t), 32);
    } else {
      ShiftInjective(Xor(base, 0xA5A5_A5A5), Salted(s), Salted(t));
    }
    SaltedInjective(s, t);
  }

  lemma ShiftInjective(x: u32, a: u32, b: u32)
    requires (x + a) % TWO32 == (x + b) % TWO32
    ensures a == b
  {
  }

  const MAX_SESSIONS: nat := 0x7FFF_FFFF

  lemma CandidateNotZero(k: Kind, base: u32, salt: u32)
    requires salt <= MAX_SESSIONS
    ensures Candidate(k, base, salt) != 0
  {
    hide XorBits, Raw;
    Power32();
    if Xor(0x85EB_CA6B, salt) == 0 { XorZero(0x85EB_CA6B, salt, 32); }
    if Xor(0xC2B2_AE35, salt) == 0 { XorZero(0xC2B2_AE35, salt, 32); }
  }

  lemma {:induction false} XorNothing(a: nat, n: nat)
    requires a < Power2(n)
    ensures XorBits(a, 0, n) == a
  {
    if n > 0 { XorNothing(a / 2, n - 1); }
  }

  /** Bit i of the result is set exactly if it is set in one of the two. */
  lemma {:induction false} XorBit(a: nat, b: nat, n: nat, i: nat)
    requires i < n
    ensures XorBits(a, b, n) / Power2(i) % 2 == if a / Power2(i) % 2 == b / Power2(i) % 2 then 0 else 1
  {
    var x := XorBits(a, b, n);
    if i == 0 {
      assert x == (if a % 2 == b % 2 then 0 else 1) + 2 * XorBits(a / 2, b / 2, n - 1);
    } else {
      XorBit(a / 2, b / 2, n - 1, i - 1);
      assert x / 2 == XorBits(a / 2, b / 2, n - 1);
      HalfFirst(x, i);
      HalfFirst(a, i);
      HalfFirst(b, i);
    }
  }

  lemma HalfFirst(x: nat, i: nat)
    requires i > 0
    ensures x / Power2(i) == x / 2 / Power2(i - 1)
  {
    var p := Power2(i - 1);
    assert Power2(i) == 2 * p;
    DivTwice(x, p);
  }

  lemma DivTwice(x: nat, p: nat)
    requires p > 0
    ensures x / (2 * p) == x / 2 / p
  {
    var h := x / 2;
    var q, t := h / p, h % p;
    assert x == 2 * p * q + (2 * t + x % 2);
    assert 2 * t + x % 2 < 2 * p;
    Quotient(x, 2 * p, q, 2 * t + x % 2);
  }

  lemma Quotient(x: nat, m: nat, q: nat, t: nat)
    requires m > 0 && t < m && x == m * q + t
    ensures x / m == q
  {
    var p, s := x / m, x % m;
    assert m * p + s == m * q + t;
    if p < q {
      AtLeast(m, q - p);
    } else if p > q {
      AtLeast(m, p - q);
    }
  }

  lemma {:induction false} AtLeast(m: nat, d: nat)
    requires d >= 1
    ensures m * d >= m
  {
    if d > 1 {
      AtLeast(m, d - 1);
      assert m * d == m * (d - 1) + m;
    }
  }

  /**
   Without a collision the id is the entropy value itself, and the token that
   value with the bits of 0xA5A5A5A5 turned over; each salt after that moves on
   by 0x9E3779B9.
   */
  lemma FirstCandidates(base: u32)
    requires base != 0
    ensures Candidate(SessionId, base, 0) == base
    ensures Xor(base, 0xA5A5_A5A5) != 0 ==> Candidate(AuthenticationToken, base, 0) == Xor(base, 0xA5A5_A5A5)
    ensures Salted(0) == 0 && Salted(1) == 0x9E3779B9
  {
    hide XorBits;
    Power32();
    XorNothing(base, 32);
  }

  /** The first of the candidates that no live session holds. */
  ghost predicate FirstFree(k: Kind, base: u32, held: Held, v: u32) {
    exists salt: u32 :: salt <= |held| && IsFirst(k, base, held, v, salt)
  }

  ghost predicate IsFirst(k: Kind, base: u32, held: Held, v: u32, salt: u32) {
    v == Candidate(k, base, salt) && Some(v) !in held && forall s :: 0 <= s < salt ==> Some(Candidate(k, base, s)) in held
  }

  // ----- Why one of them is free

  /** The numbers of the live sessions, slot by slot. */
  type Held = seq<Option<u32>>

  ghost predicate Exhausted(k: Kind, base: u32, held: Held)
    requires |held| <= MAX_SESSIONS
  {
    forall salt :: 0 <= salt <= |held| ==> Some(Candidate(k, base, salt)) in held
  }

  function CountHeld(held: Held): (r: nat)
    ensures r <= |held|
  {
    if held == [] then 0 else CountHeld(held[1..]) + if held[0].Some? then 1 else 0
  }

  lemma {:induction false} RoomLeft(held: Held, i: nat)
    requires i < |held| && held[i].None?
    ensures CountHeld(held) < |held|
  {
    if i > 0 { RoomLeft(held[1..], i - 1); }
  }

  ghost function HeldNumbers(held: Held): (r: set<u32>)
    ensures |r| <= CountHeld(held)
    ensures forall v :: Some(v) in held ==> v in r
  {
    if held == [] then {}
    else
      assert forall v :: Some(v) in held ==> Some(v) == held[0] || Some(v) in held[1..];
      HeldNumbers(held[1..]) + if held[0].Some? then {held[0].value} else {}
  }

  ghost function RawNumbers(k: Kind, base: u32, n: nat): (r: set<u32>)
    requires n <= TWO32
    ensures |r| == n
    ensures forall v :: v in r ==> exists s :: 0 <= s < n && v == Raw(k, base, s)
  {
    if n == 0 then {}
    else
      assert Raw(k, base, n - 1) !in RawNumbers(k, base, n - 1) by {
        forall s: nat | s < n - 1 ensures Raw(k, base, s) != Raw(k, base, n - 1) {
          if Raw(k, base, s) == Raw(k, base, n - 1) { RawInjective(k, base, s, n - 1); }
        }
      }
      RawNumbers(k, base, n - 1) + {Raw(k, base, n - 1)}
  }

  lemma {:induction false} SubsetSize(a: set<u32>, b: set<u32>)
    requires a <= b
    ensures |a| <= |b|
  {
    if a != {} {
      var x :| x in a;
      SubsetSize(a - {x}, b - {x});
    }
  }

  /** Of n + 1 salted values at most one is zero, and fewer than n numbers are held. */
  lemma NeverExhausted(k: Kind, base: u32, held: Held, i: nat)
    requires |held| <= MAX_SESSIONS && i < |held| && held[i].None?
    ensures !Exhausted(k, base, held)
  {
    hide Raw, HeldNumbers, RawNumbers, CountHeld;
    if Exhausted(k, base, held) {
      RoomLeft(held, i);
      var raws := RawNumbers(k, base, |held| + 1);
      var nonzero := raws - {0};
      forall v | v in nonzero ensures v in HeldNumbers(held) {
        var s :| 0 <= s < |held| + 1 && v == Raw(k, base, s);
        assert Candidate(k, base, s) == v;
      }
      SubsetSize(raws, nonzero + {0});
      SubsetSize(nonzero, HeldNumbers(held));
    }
  }

  /** mu_session_generate_session_id and mu_session_generate_authentication_token, given the entropy drawn. */
  method Generate(k: Kind, held: Held, entropy: Option<u32>) returns (r: Option<u32>)
    requires |held| <= MAX_SESSIONS
    ensures entropy.None? ==> r.None?
    ensures entropy.Some? && r.None? ==> Exhausted(k, entropy.value, held)
    ensures r.Some? ==> r.value != 0 && r !in held && FirstFree(k, entropy.value, held, r.value)
  {
    hide Candidate;
    if entropy.None? {
      return None;
    }
    var base := entropy.value;
    for salt := 0 to |held| + 1
      invariant forall s :: 0 <= s < salt ==> Some(Candidate(k, base, s)) in held
    {
      var candidate := Candidate(k, base, salt);
      CandidateNotZero(k, base, salt);
      var active := Active(held, candidate);
      if !active {
        assert IsFirst(k, base, held, candidate, salt);
        return Some(candidate);
      }
    }
    return None;
  }

  /** session_id_active, authentication_token_active. */
  method Active(held: Held, v: u32) returns (r: bool)
    ensures r <==> Some(v) in held
  {
    for i := 0 to |held|
      invariant Some(v) !in held[..i]
    {
      if held[i] == Some(v) {
        return true;
      }
    }
    return false;
  }
}
