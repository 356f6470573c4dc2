/**
 Durations on the wire are IEEE-754 doubles; the server converts them with
 integer arithmetic only (src/core/service_dispatch.c, src/services/session.c).
 Here a bit pattern gets its exact value, and the conversions are proved to be
 truncation of that value, clamped.
 */
module Durations {
  import opened Types

  const TWO52: int := 0x10_0000_0000_0000
  const TWO63: int := 0x8000_0000_0000_0000
  /** Exponent field of a double whose mantissa counts units. */
  const UNITS: nat := 1075

  /** x << k and x >> k on unbounded naturals. */
  function Shl(x: nat, k: nat): (r: nat) { if k == 0 then x else 2 * Shl(x, k - 1) }

  function Shr(x: nat, k: nat): (r: nat) { if k == 0 then x else Shr(x, k - 1) / 2 }

  // ----- What a bit pattern is worth

  predicate Negative(bits: u64) { bits >= TWO63 }

  function Exponent(bits: u64): (r: nat)
    ensures r < 2048
  {
    bits / TWO52 % 2048
  }

  function Fraction(bits: u64): (r: nat)
    ensures r < TWO52
  {
    bits % TWO52
  }

  /** The significand of a normal double, whose value is Mantissa * 2^(Exponent - 1075). */
  function Mantissa(bits: u64): (r: nat)
    ensures TWO52 <= r < 2 * TWO52
  {
    TWO52 + Fraction(bits)
  }

  /** m * 2^(e - 1075), truncated. */
  function Scaled(m: nat, e: nat): (r: nat) {
    if e >= UNITS then Shl(m, e - UNITS) else Shr(m, UNITS - e)
  }

  /** The absolute value, truncated; an infinity or NaN pattern is past every finite number. */
  function Truncated(bits: u64): (r: nat) {
    if Exponent(bits) == 0 then 0 else Scaled(Mantissa(bits), Exponent(bits))
  }

  function Clamp(x: nat, lo: nat, hi: nat): (r: nat) {
    if x < lo then lo else if x > hi then hi else x
  }

  /** What a Duration conversion promises: negative patterns give lo, others their truncation within [lo, hi]. */
  function ClampedTruncation(bits: u64, lo: nat, hi: nat): (r: nat) {
    if Negative(bits) then lo else Clamp(Truncated(bits), lo, hi)
  }

  /** The value is exactly the integer n. */
  predicate IsInteger(bits: u64, n: nat) {
    !Negative(bits) && 0 < Exponent(bits) <= UNITS && Mantissa(bits) == Shl(n, UNITS - Exponent(bits))
  }

  // ----- Shifts

  lemma {:induction false} ShrInner(x: nat, k: nat)
    ensures Shr(x, k + 1) == Shr(x / 2, k)
  {
    if k > 0 { ShrInner(x, k - 1); }
  }

  lemma {:induction false} ShrMono(x: nat, y: nat, k: nat)
    requires x <= y
    ensures Shr(x, k) <= Shr(y, k)
  {
    if k > 0 { ShrMono(x, y, k - 1); }
  }

  lemma {:induction false} ShlMono(x: nat, y: nat, k: nat)
    requires x <= y
    ensures Shl(x, k) <= Shl(y, k)
  {
    if k > 0 { ShlMono(x, y, k - 1); }
  }

  lemma {:induction false} ShlInner(x: nat, k: nat)
    ensures Shl(x, k + 1) == Shl(2 * x, k)
  {
    if k > 0 { ShlInner(x, k - 1); }
  }

  lemma {:induction false} ShlAdd(x: nat, y: nat, k: nat)
    ensures Shl(x + y, k) == Shl(x, k) + Shl(y, k)
  {
    if k > 0 { ShlAdd(x, y, k - 1); }
  }

  lemma {:induction false} ShlTwice(x: nat, j: nat, k: nat)
    ensures Shl(Shl(x, j), k) == Shl(x, j + k)
  {
    if k > 0 { ShlTwice(x, j, k - 1); }
  }

  lemma {:induction false} ShlShr(x: nat, k: nat)
    ensures Shr(Shl(x, k), k) == x
  {
    if k > 0 {
      ShrInner(Shl(x, k), k - 1);
      ShlShr(x, k - 1);
    }
  }

  // ----- Order

  lemma Parts(bits: u64)
    requires !Negative(bits)
    ensures bits == Exponent(bits) * TWO52 + Fraction(bits)
  {
  }

  lemma ScaledInMantissa(m: nat, n: nat, e: nat)
    requires m <= n
    ensures Scaled(m, e) <= Scaled(n, e)
  {
    if e >= UNITS { ShlMono(m, n, e - UNITS); } else { ShrMono(m, n, UNITS - e); }
  }

  /** One exponent up is worth a factor of two, so a normal mantissa never falls behind. */
  lemma ScaledInExponent(m: nat, n: nat, e: nat)
    requires m <= 2 * n
    ensures Scaled(m, e) <= Scaled(n, e + 1)
  {
    if e >= UNITS {
      ShlMono(m, 2 * n, e - UNITS);
      ShlInner(n, e - UNITS);
    } else {
      var k := UNITS - e - 1;
      ShrInner(m, k);
      ShrMono(m / 2, n, k);
    }
  }

  lemma {:induction false} ScaledClimbs(m: nat, n: nat, e: nat, f: nat)
    requires m <= 2 * n && e < f
    ensures Scaled(m, e) <= Scaled(n, f)
    decreases f - e
  {
    hide Scaled;
    ScaledInExponent(m, n, e);
    if e + 1 < f { ScaledClimbs(n, n, e + 1, f); }
  }

  /** The order of non-negative patterns is the order of their truncations. */
  lemma TruncatedMonotone(a: u64, b: u64)
    requires a <= b && !Negative(b)
    ensures Truncated(a) <= Truncated(b)
  {
    hide Scaled;
    Parts(a);
    Parts(b);
    var e, f := Exponent(a), Exponent(b);
    assert e <= f && (e == f ==> Mantissa(a) <= Mantissa(b));
    if e > 0 {
      if e == f {
        ScaledInMantissa(Mantissa(a), Mantissa(b), e);
      } else {
        ScaledClimbs(Mantissa(a), Mantissa(b), e, f);
      }
    }
  }

  lemma IntegerTruncates(bits: u64, n: nat)
    requires IsInteger(bits, n)
    ensures Truncated(bits) == n
  {
    hide Mantissa, Exponent;
    ShlShr(n, UNITS - Exponent(bits));
  }

  /** A conversion that keeps to the promise is monotone on non-negative patterns. */
  lemma ClampedMonotone(a: u64, b: u64, lo: nat, hi: nat)
    requires a <= b && !Negative(b) && lo <= hi
    ensures ClampedTruncation(a, lo, hi) <= ClampedTruncation(b, lo, hi)
  {
    hide Truncated;
    TruncatedMonotone(a, b);
  }

  // ----- The conversions

  /** The shared body of publishing_interval_bits_to_ms and duration_bits_to_ms, with its machine widths. */
  function BitsToMs(bits: u64): (r: u32) {
    var mantissa := TWO52 + bits % TWO52;
    var unbiased := (bits / TWO52 % 2048 - 1023) % TWO32;
    if unbiased >= 52 then Shl(mantissa, unbiased - 52) % TWO64 % TWO32
    else Shr(mantissa, 52 - unbiased) % TWO32
  }

  lemma BitsToMsIsTruncation(bits: u64)
    requires 1023 <= Exponent(bits) && Truncated(bits) < TWO32
    ensures BitsToMs(bits) == Truncated(bits)
  {
    hide Shl, Shr;
    var e := Exponent(bits);
    assert (e - 1023) % TWO32 == e - 1023;
  }

  const PUBLISHING_MIN: u64 := 0x4049_0000_0000_0000
  const PUBLISHING_MAX: u64 := 0x40ed_4c00_0000_0000
  const SESSION_MIN: u64 := 0x40c3_8800_0000_0000
  const SESSION_MAX: u64 := 0x414b_7740_0000_0000

  function PublishingBitsToMs(bits: u64): (r: u32) {
    if bits >= TWO63 || bits < PUBLISHING_MIN then 50
    else if bits > PUBLISHING_MAX then 60000
    else BitsToMs(bits)
  }

  function ClampSessionBits(bits: u64): (r: u64) {
    if bits >= TWO63 then SESSION_MIN
    else if bits < SESSION_MIN then SESSION_MIN
    else if bits > SESSION_MAX then SESSION_MAX
    else bits
  }

  function SessionBitsToMs(bits: u64): (r: u32) {
    BitsToMs(ClampSessionBits(bits))
  }

  /** A pattern outside [min, max] truncates outside [lo, hi], one inside truncates inside and converts exactly. */
  lemma BoundsExact(bits: u64, min: u64, max: u64, lo: nat, hi: nat)
    requires !Negative(bits) && min <= max && !Negative(max)
    requires IsInteger(min, lo) && IsInteger(max, hi) && 1023 <= Exponent(min) && hi < TWO32
    ensures bits < min ==> Truncated(bits) <= lo
    ensures bits > max ==> Truncated(bits) >= hi
    ensures min <= bits <= max ==> lo <= Truncated(bits) <= hi && BitsToMs(bits) == Truncated(bits)
  {
    hide Truncated, BitsToMs, IsInteger;
    IntegerTruncates(min, lo);
    IntegerTruncates(max, hi);
    if bits < min { TruncatedMonotone(bits, min); }
    if bits > max { TruncatedMonotone(max, bits); }
    if min <= bits <= max {
      TruncatedMonotone(min, bits);
      TruncatedMonotone(bits, max);
      Parts(min);
      Parts(bits);
      BitsToMsIsTruncation(bits);
    }
  }

  /** For every pattern, the publishing conversion is the value truncated within [50, 60000] ms. */
  lemma PublishingConversionExact(bits: u64)
    ensures PublishingBitsToMs(bits) == ClampedTruncation(bits, 50, 60000)
  {
    hide Truncated, BitsToMs, IsInteger;
    if !Negative(bits) {
      PublishingBounds();
      BoundsExact(bits, PUBLISHING_MIN, PUBLISHING_MAX, 50, 60000);
    }
  }

  /** For every pattern, the session conversion is the value truncated within [10000, 3600000] ms. */
  lemma SessionConversionExact(bits: u64)
    ensures SessionBitsToMs(bits) == ClampedTruncation(bits, 10000, 3600000)
  {
    hide Truncated, BitsToMs, IsInteger;
    SessionBounds();
    BoundsExact(SESSION_MIN, SESSION_MIN, SESSION_MAX, 10000, 3600000);
    BoundsExact(SESSION_MAX, SESSION_MIN, SESSION_MAX, 10000, 3600000);
    IntegerTruncates(SESSION_MIN, 10000);
    IntegerTruncates(SESSION_MAX, 3600000);
    if !Negative(bits) {
      BoundsExact(bits, SESSION_MIN, SESSION_MAX, 10000, 3600000);
    }
  }

  lemma ShlByte(x: nat, k: nat)
    ensures Shl(x, k + 8) == 256 * Shl(x, k)
  {
    var y := Shl(x, k);
    assert Shl(x, k + 4) == 16 * y by { assert Shl(x, k + 1) == 2 * y && Shl(x, k + 2) == 4 * y && Shl(x, k + 3) == 8 * y; }
    assert Shl(x, k + 6) == 64 * y by { assert Shl(x, k + 5) == 32 * y; }
    assert Shl(x, k + 7) == 128 * y;
  }

  lemma ShlLow(x: nat)
    ensures Shl(x, 5) == 32 * x && Shl(x, 7) == 128 * x
  {
    assert Shl(x, 1) == 2 * x && Shl(x, 2) == 4 * x && Shl(x, 3) == 8 * x && Shl(x, 4) == 16 * x;
    assert Shl(x, 5) == 32 * x && Shl(x, 6) == 64 * x;
  }

  lemma PublishingBounds()
    ensures IsInteger(PUBLISHING_MIN, 50) && IsInteger(PUBLISHING_MAX, 60000) && 1023 <= Exponent(PUBLISHING_MIN)
  {
    hide Shl;
    ShlLow(50);
    ShlByte(50, 7);
    ShlByte(50, 15);
    ShlByte(50, 23);
    ShlByte(50, 31);
    ShlByte(50, 39);
    ShlLow(60000);
    ShlByte(60000, 5);
    ShlByte(60000, 13);
    ShlByte(60000, 21);
    ShlByte(60000, 29);
    assert Exponent(PUBLISHING_MIN) == 1028 && Exponent(PUBLISHING_MAX) == 1038;
  }

  lemma SessionBounds()
    ensures IsInteger(SESSION_MIN, 10000) && IsInteger(SESSION_MAX, 3600000) && 1023 <= Exponent(SESSION_MIN)
  {
    hide Shl;
    ShlLow(10000);
    ShlByte(10000, 7);
    ShlByte(10000, 15);
    ShlByte(10000, 23);
    ShlByte(10000, 31);
    ShlLow(3600000);
    ShlByte(3600000, 7);
    ShlByte(3600000, 15);
    ShlByte(3600000, 23);
    assert Exponent(SESSION_MIN) == 1036 && Exponent(SESSION_MAX) == 1044;
  }

  // ----- Writing a Duration

  /** publishing_interval_ms_to_bits: the pattern written for a positive interval is worth exactly that interval. */
  method MsToBits(interval: u32) returns (bits: u64)
    requires interval > 0
    ensures IsInteger(bits, interval)
  {
    hide Shl;
    var value: nat := interval;
    var exponent := 0;
    WordShift();
    ShlZero();
    while value / 2 != 0
      invariant value > 0 && exponent < 32 && value < Shl(1, 32 - exponent)
      invariant Shl(value, exponent) <= interval < Shl(value + 1, exponent)
    {
      Halves(value, exponent, interval);
      value := value / 2;
      exponent := exponent + 1;
    }
    var leading := Shl(1, exponent);
    var fraction := Shl(interval - leading, 52 - exponent);
    Normal(interval, exponent);
    bits := (exponent + 1023) * TWO52 + fraction;
  }

  lemma WordShift()
    ensures Shl(1, 32) == TWO32
  {
    hide Shl;
    ShlZero();
    ShlByte(1, 0);
    ShlByte(1, 8);
    ShlByte(1, 16);
    ShlByte(1, 24);
  }

  lemma ShlZero()
    ensures forall x: nat :: Shl(x, 0) == x
  {
  }

  lemma Halves(value: nat, e: nat, n: nat)
    requires value / 2 > 0 && e < 32 && value < Shl(1, 32 - e)
    requires Shl(value, e) <= n < Shl(value + 1, e)
    ensures e + 1 < 32 && value / 2 < Shl(1, 31 - e)
    ensures Shl(value / 2, e + 1) <= n < Shl(value / 2 + 1, e + 1)
  {
    assert Shl(1, 1) == 2;
    ShlInner(value / 2, e);
    ShlInner(value / 2 + 1, e);
    ShlMono(2 * (value / 2), value, e);
    ShlMono(value + 1, 2 * (value / 2 + 1), e);
  }

  /** A number with its leading one at bit e fills a 53-bit significand when shifted up by 52 - e. */
  lemma Normal(n: nat, e: nat)
    requires e < 32 && Shl(1, e) <= n < Shl(2, e)
    ensures Shl(n - Shl(1, e), 52 - e) < TWO52
    ensures TWO52 + Shl(n - Shl(1, e), 52 - e) == Shl(n, 52 - e)
  {
    var k := 52 - e;
    var leading := Shl(1, e);
    ShlAdd(leading, n - leading, k);
    ShlTwice(1, e, k);
    ShlTwice(2, e, k);
    assert Shl(1, 52) == TWO52 && Shl(2, 52) == 2 * TWO52 by { BigShifts(); }
    ShlStrict(n, Shl(2, e), k);
  }

  lemma {:induction false} ShlStrict(x: nat, y: nat, k: nat)
    requires x < y
    ensures Shl(x, k) < Shl(y, k)
  {
    if k > 0 { ShlStrict(x, y, k - 1); }
  }

  lemma BigShifts()
    ensures Shl(1, 52) == TWO52 && Shl(2, 52) == 2 * TWO52
  {
    hide Shl;
    forall x | x == 1 || x == 2 ensures Shl(x, 52) == x * TWO52 {
      Shl4(x);
      ShlByte(x, 4);
      ShlByte(x, 12);
      ShlByte(x, 20);
      ShlByte(x, 28);
      ShlByte(x, 36);
      ShlByte(x, 44);
    }
  }

  lemma Shl4(x: nat)
    ensures Shl(x, 4) == 16 * x
  {
    assert Shl(x, 1) == 2 * x && Shl(x, 2) == 4 * x && Shl(x, 3) == 8 * x;
  }

  /** Reading back a written interval within the clamp range gives the interval. */
  lemma IntervalRoundTrip(bits: u64, interval: u32)
    requires 50 <= interval <= 60000 && IsInteger(bits, interval)
    ensures PublishingBitsToMs(bits) == interval
  {
    hide IsInteger, Truncated;
    PublishingConversionExact(bits);
    IntegerTruncates(bits, interval);
    NotNegative(bits, interval);
  }

  lemma NotNegative(bits: u64, n: nat)
    requires IsInteger(bits, n)
    ensures !Negative(bits)
  {
  }
}
