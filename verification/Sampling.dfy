/**
 What a client sees of sampling: exactly which samples are reported, in terms of
 types, values, trigger and deadband alone, and what the numbers compared are.
 */
module Samplings {
  import opened Types
  import opened Codec
  import opened Durations
  import opened Timers
  import opened Ledgers
  import opened ItemStates
  import opened PoolStates

  // ----- Which samples are reported

  predicate IsNumber(v: Variant) {
    v.VSByte? || v.VByte? || v.VInt16? || v.VUInt16? || v.VInt32? || v.VUInt32? || v.VInt64? || v.VUInt64? || v.VFloat? || v.VDouble?
  }

  /** The types whose values are compared; a value of any other type is never found unchanged. */
  predicate Compared(v: Variant) {
    v.VBoolean? || IsNumber(v) || v.VDateTime?
  }

  /** Two numbers less than the deadband apart, or with an infinity or a NaN that makes the comparison fail. */
  predicate Within(a: Num, b: Num, d: Num) {
    || a.NaN? || b.NaN? || d.NaN?
    || (a.Infinite? && a == b)
    || (a.Finite? && b.Finite? && (d == Infinite(false) || (d.Finite? && -d.r < a.r - b.r < d.r)))
  }

  /** An absolute deadband keeps the number from being reported. */
  predicate Covered(config: Config, last: Variant, cur: Variant)
    requires IsNumber(last) && IsNumber(cur)
  {
    NumbersAre(last);
    NumbersAre(cur);
    config.deadbandType == 1 && Within(NumberOf(cur).value, NumberOf(last).value, config.deadband)
  }

  lemma NumbersAre(v: Variant)
    ensures NumberOf(v).Some? <==> IsNumber(v)
  {
  }

  /** A sample is news: the first, of another status, or of another value that trigger and deadband let through. */
  predicate IsNews(s: ItemState, e: Entry) {
    || !s.hasValue
    || e.status != s.last.status
    || (s.config.trigger != 0 && !(e.value == s.last.value && Compared(e.value))
        && !(IsNumber(e.value) && IsNumber(s.last.value) && Covered(s.config, s.last.value, e.value)))
  }

  /**
   A sample is enqueued exactly if it is news, after the value that waited, if
   one did; it then is the last value, which otherwise stays. With an aggregate
   nothing is enqueued and the sample is the last value.
   */
  lemma ReportedExactly(s: ItemState, e: Entry, now: u64)
    requires s.Valid()
    ensures s.Fits()
    ensures var r := s.Sampled(e, now);
      var waiting := if s.pending && s.ledger.Queued() == [] && s.hasValue then [s.last] else [];
      if s.config.hasAggregate then r.ledger == s.ledger && r.last == e
      else
        && r.ledger.enqueued == s.ledger.enqueued + waiting + (if IsNews(s, e) then [e] else [])
        && r.last == (if IsNews(s, e) then e else s.last)
  {
    hide Enqueue, Ordered, Faithful, NumberOf, AdvanceSampleTimer, Within, AtLeastApart;
    ValidCore(s);
    NumbersAre(e.value);
    NumbersAre(s.last.value);
    if IsNumber(e.value) && IsNumber(s.last.value) {
      WithinIsNotApart(NumberOf(e.value).value, NumberOf(s.last.value).value, s.config.deadband);
    }
    WokenValid(s);
  }

  lemma WithinIsNotApart(a: Num, b: Num, d: Num)
    ensures Within(a, b, d) <==> !AtLeastApart(a, b, d)
  {
  }

  /** The same Boolean, number or DateTime with the same status again: nothing but what waited is enqueued. */
  lemma UnchangedIsNotReported(s: ItemState, now: u64)
    requires s.Valid() && s.hasValue && !s.config.hasAggregate && Compared(s.last.value)
    ensures s.Fits() && s.Sampled(s.last, now).ledger.enqueued == s.ledger.enqueued + s.Pending()
  {
    hide ItemState.Sampled, ItemState.Valid, NumberOf;
    ReportedExactly(s, s.last, now);
    Nothing(s.ledger.enqueued + s.Pending());
  }

  lemma Nothing(q: seq<Entry>)
    ensures q + [] == q
  {
  }

  /** The integer a Variant holds, if it holds one. */
  function IntegerIn(v: Variant): (r: Option<int>) {
    match v
    case VSByte(x) => Some(x)
    case VByte(x) => Some(x)
    case VInt16(x) => Some(x)
    case VUInt16(x) => Some(x)
    case VInt32(x) => Some(x)
    case VUInt32(x) => Some(x)
    case VInt64(x) => Some(x)
    case VUInt64(x) => Some(x)
    case _ => None
  }

  lemma IntegersCovered(config: Config, last: Variant, cur: Variant, x: int, y: int)
    requires IntegerIn(last) == Some(x) && IntegerIn(cur) == Some(y) && config.deadbandType == 1 && config.deadband.Finite?
    ensures IsNumber(last) && IsNumber(cur)
    ensures Covered(config, last, cur) <==> -config.deadband.r < (y - x) as real < config.deadband.r
  {
    hide NumberOf, IntegerIn, IsNumber;
    IntegerIsNumber(last);
    IntegerIsNumber(cur);
    assert (y - x) as real == y as real - x as real;
  }

  lemma IntegerIsNumber(v: Variant)
    requires IntegerIn(v).Some?
    ensures IsNumber(v) && NumberOf(v) == Some(Finite(IntegerIn(v).value as real))
  {
  }

  /**
   Whole numbers, of the same type or not, with an absolute deadband d above 0:
   the new one is reported exactly if it is at least d away from the last.
   */
  lemma IntegersByDeadband(s: ItemState, e: Entry, now: u64)
    requires s.Valid() && s.hasValue && s.hasReported && !s.config.hasAggregate && s.config.trigger != 0 && s.last.status == e.status
    requires s.config.deadbandType == 1 && s.config.deadband.Finite? && s.config.deadband.r > 0.0
    requires IntegerIn(s.last.value).Some? && IntegerIn(e.value).Some?
    ensures var d := (IntegerIn(e.value).value - IntegerIn(s.last.value).value) as real;
      s.Fits() && s.Sampled(e, now).ledger.enqueued ==
        s.ledger.enqueued + if d <= -s.config.deadband.r || d >= s.config.deadband.r then [e] else []
  {
    hide ItemState.Sampled, Covered, IntegerIn, Ordered, Faithful;
    ReportedExactly(s, e, now);
    IntegersCovered(s.config, s.last.value, e.value, IntegerIn(s.last.value).value, IntegerIn(e.value).value);
    Nothing(s.ledger.enqueued);
  }

  // ----- What a floating-point pattern is worth

  /** Halving as often as it was doubled. */
  lemma {:induction false} Times2Undoes(n: nat, k: nat)
    ensures Times2(Shl(n, k) as real, 0 - k) == n as real
  {
    if k > 0 {
      assert Shl(n, k) as real / 2.0 == Shl(n, k - 1) as real;
      Times2Undoes(n, k - 1);
    }
  }

  /** A double whose pattern is that of a positive integer is that integer. */
  lemma IntegerDouble(bits: u64, n: nat)
    requires IsInteger(bits, n)
    ensures DoubleValue(bits) == Finite(n as real)
  {
    Times2Undoes(n, UNITS - Exponent(bits));
  }

  /** The sign bit changes the sign and nothing else. */
  lemma NegatedDouble(bits: u64)
    requires bits < TWO63
    ensures DoubleValue(bits + TWO63) == match DoubleValue(bits)
      case Finite(r) => Finite(-r)
      case Infinite(_) => Infinite(true)
      case NaN => NaN
  {
    SignApart(bits);
  }

  lemma SignApart(bits: u64)
    requires bits < TWO63
    ensures Exponent(bits + TWO63) == Exponent(bits) && Fraction(bits + TWO63) == Fraction(bits)
  {
    assert TWO63 == 2048 * TWO52;
    var q, t := bits / TWO52, bits % TWO52;
    assert bits + TWO63 == TWO52 * (q + 2048) + t;
  }

  /** The double with the value of a normal float: exponent rebased, fraction in front. */
  function Widened(bits: u32): (r: u64)
    requires 0 < bits / 0x80_0000 % 256 < 255
  {
    (if bits >= 0x8000_0000 then TWO63 else 0) + (bits / 0x80_0000 % 256 + 896) * TWO52 + bits % 0x80_0000 * 0x2000_0000
  }

  function Doubled(m: real, j: nat): (r: real)
    decreases j
  {
    if j == 0 then m else 2.0 * Doubled(m, j - 1)
  }

  lemma {:induction false} Times2Shifts(m: real, j: nat, k: int)
    ensures Times2(Doubled(m, j), k) == Times2(m, k + j)
    decreases j
  {
    hide Times2;
    if j > 0 {
      Times2Doubles(Doubled(m, j - 1), k);
      Times2Shifts(m, j - 1, k + 1);
    }
  }

  lemma {:induction false} Times2Doubles(m: real, k: int)
    ensures Times2(2.0 * m, k) == Times2(m, k + 1)
    decreases if k < 0 then -k else k
  {
    if k < 0 {
      assert 2.0 * m / 2.0 == m && 2.0 * (m / 2.0) == m;
      if k < -1 { Times2Doubles(m / 2.0, k + 1); }
    }
  }

  lemma {:induction false} DoubledTwice(m: real, i: nat, j: nat)
    ensures Doubled(Doubled(m, i), j) == Doubled(m, i + j)
    decreases j
  {
    if j > 0 { DoubledTwice(m, i, j - 1); }
  }

  lemma DoubledFive(m: real)
    ensures Doubled(m, 4) == 16.0 * m && Doubled(m, 5) == 32.0 * m
  {
    assert Doubled(m, 2) == 4.0 * m;
    assert Doubled(m, 4) == 2.0 * Doubled(m, 3);
  }

  lemma Doubled29(m: real)
    ensures Doubled(m, 29) == 536870912.0 * m
  {
    hide Doubled;
    DoubledFive(m);
    DoubledFive(32.0 * m);
    DoubledFive(1024.0 * m);
    DoubledFive(32768.0 * m);
    DoubledFive(1048576.0 * m);
    DoubledFive(33554432.0 * m);
    DoubledTwice(m, 5, 5);
    DoubledTwice(m, 10, 5);
    DoubledTwice(m, 15, 5);
    DoubledTwice(m, 20, 5);
    DoubledTwice(m, 25, 4);
  }

  /** A float is worth what the double it widens to is worth. */
  lemma FloatIsItsDouble(bits: u32)
    requires 0 < bits / 0x80_0000 % 256 < 255
    ensures FloatValue(bits) == DoubleValue(Widened(bits))
  {
    hide Times2, Doubled, Widened, Negative, Exponent, Fraction;
    var e, f := bits / 0x80_0000 % 256, bits % 0x80_0000;
    WidenedParts(bits);
    var m := (0x80_0000 + f) as real;
    Doubled29(m);
    assert (TWO52 + f * 0x2000_0000) as real == 536870912.0 * m;
    Times2Shifts(m, 29, e + 896 - 1075);
    assert e + 896 - 1075 + 29 == e - 150;
  }

  lemma WidenedParts(bits: u32)
    requires 0 < bits / 0x80_0000 % 256 < 255
    ensures var w := Widened(bits);
      && Negative(w) == (bits >= 0x8000_0000)
      && Exponent(w) == bits / 0x80_0000 % 256 + 896 && Fraction(w) == bits % 0x80_0000 * 0x2000_0000
  {
    var e, f := bits / 0x80_0000 % 256, bits % 0x80_0000;
    var p := (e + 896) * TWO52 + f * 0x2000_0000;
    assert 0 <= f * 0x2000_0000 < TWO52;
    assert p < TWO63;
    assert p / TWO52 == e + 896 && p % TWO52 == f * 0x2000_0000;
    if bits >= 0x8000_0000 { SignApart(p); }
  }

  // ----- When items are sampled

  /**
   One item in one tick. One that is off is left alone, and without an aggregate
   so is one that is not due; one that is due is sampled, and due again later
   unless time has run out.
   */
  lemma SampledOnTime(s: ItemState, now: u64, aggregate: Option<Entry>, e: Entry)
    requires s.Fits() && !s.config.hasAggregate
    ensures var r := Ticked(s, now, aggregate, e);
      && (!s.inUse || s.mode == 0 || now < s.nextSample ==> r == s)
      && (s.inUse && s.mode != 0 && s.nextSample <= now ==> r == s.Sampled(e, now))
  {
    hide ItemState.Sampled;
  }

  /** With an aggregate: one that is on reports it when there is one, and nothing else. */
  lemma AggregatedOnTime(s: ItemState, now: u64, aggregate: Option<Entry>, e: Entry)
    requires s.Fits() && s.config.hasAggregate
    ensures Ticked(s, now, aggregate, e).ledger.enqueued ==
      s.ledger.enqueued + if s.inUse && s.mode != 0 && aggregate.Some? then [aggregate.value] else []
  {
    hide AdvanceSampleTimer, Enqueue;
    Nothing(s.ledger.enqueued);
  }

  /** x is j intervals after where the timer stood. */
  predicate OnGrid(from: nat, interval: nat, j: nat, x: nat) {
    x == from + j * interval
  }

  /**
   A sampled item is due again after now, a whole number of intervals from where
   its timer stood and no later than the first such point, unless time runs out
   or the step count wraps.
   */
  lemma DueAgain(s: ItemState, e: Entry, now: u64)
    requires s.Fits() && s.nextSample <= now && !(s.config.samplingInterval <= 1 && s.nextSample == 0 && now == 0xFFFF_FFFF_FFFF_FFFF)
    ensures var i, next := if s.config.samplingInterval == 0 then 1 else s.config.samplingInterval, s.Sampled(e, now).nextSample;
      next == 0xFFFF_FFFF_FFFF_FFFF || (now < next <= now + i && exists j: nat :: OnGrid(s.nextSample, i, j, next))
  {
    hide ItemState.Noted, AdvanceSampleTimer, OnGrid;
    TimerAgain(s.nextSample, s.config.samplingInterval, now);
  }

  lemma TimerAgain(next: u64, interval: u32, now: u64)
    requires next <= now && !(interval <= 1 && next == 0 && now == 0xFFFF_FFFF_FFFF_FFFF)
    ensures var i, r := if interval == 0 then 1 else interval, AdvanceSampleTimer(next, interval, now);
      r == 0xFFFF_FFFF_FFFF_FFFF || (now < r <= now + i && exists j: nat :: OnGrid(next, i, j, r))
  {
    hide AdvanceSampleTimer;
    var i := Effective(interval);
    SampleTimerExact(next, interval, now);
    var t := NextTick(next, i, now);
    assert OnGrid(next, i, (now - next) / i + 1, t);
    assert now < t <= now + i by { NextTickIsLeast(next, i, now); }
  }
}
