/**
 The two catch-up timers of src/services/subscription.c: the sampling timer,
 which divides, and the publishing timer, which adds until it has passed now.
 Both are meant to give the next point of the timer's grid after now.
 */
module Timers {
  import opened Types

  const MAX64: u64 := 0xFFFF_FFFF_FFFF_FFFF

  /** An interval of zero counts as one millisecond. */
  function Effective(interval: u32): (r: nat)
    ensures r > 0
  {
    if interval == 0 then 1 else interval
  }

  function Saturated(x: nat): (r: u64) {
    if x > MAX64 then MAX64 else x
  }

  /** advance_sample_timer, with the 64-bit wrap of its step count written out. */
  function AdvanceSampleTimer(next: u64, interval: u32, now: u64): (r: u64) {
    var i := Effective(interval);
    if next > now then next
    else
      var elapsed := now - next;
      if elapsed < i then
        if next > MAX64 - i then MAX64 else next + i
      else
        CatchUp(next, i, (elapsed / i + 1) % TWO64)
  }

  function CatchUp(next: u64, i: nat, steps: nat): (r: u64)
    requires i > 0
  {
    var maxSteps := (MAX64 - next) / i;
    if steps > maxSteps then MAX64
    else
      StepsFit(next, steps, i);
      next + steps * i
  }

  lemma StepsFit(next: u64, steps: nat, i: nat)
    requires i > 0 && steps <= (MAX64 - next) / i
    ensures next + steps * i <= MAX64
  {
    var room := MAX64 - next;
    assert steps * i <= room / i * i by { MulMono(steps, room / i, i); }
  }

  lemma MulMono(a: nat, b: nat, c: nat)
    requires a <= b
    ensures a * c <= b * c
  {
  }

  /** The first point after now on the grid that starts at next. */
  function NextTick(next: nat, i: nat, now: nat): (r: nat)
    requires i > 0 && next <= now
  {
    next + ((now - next) / i + 1) * i
  }

  /** NextTick is on the grid, after now, and the grid point before it is not. */
  lemma NextTickIsLeast(next: nat, i: nat, now: nat)
    requires i > 0 && next <= now
    ensures now < NextTick(next, i, now) <= now + i
    ensures NextTick(next, i, now) == next + ((now - next) / i + 1) * i
    ensures forall k: nat :: next + k * i > now ==> NextTick(next, i, now) <= next + k * i
  {
    var e := now - next;
    var q := e / i;
    assert e == q * i + e % i;
    assert (q + 1) * i == q * i + i;
    forall k: nat | next + k * i > now ensures NextTick(next, i, now) <= next + k * i {
      if k <= q { MulMono(k, q, i); assert false; }
      MulMono(q + 1, k, i);
    }
  }

  /** The one input family on which the step count wraps to zero and the sampling timer stands still. */
  predicate StepCountWraps(next: u64, interval: u32, now: u64) {
    interval <= 1 && next == 0 && now == MAX64
  }

  /**
   A due sampling timer moves to the next tick, or to the maximum when that tick
   is out of range, if and only if its step count does not wrap.
   */
  lemma SampleTimerExact(next: u64, interval: u32, now: u64)
    requires next <= now
    ensures AdvanceSampleTimer(next, interval, now) == Saturated(NextTick(next, Effective(interval), now))
      <==> !StepCountWraps(next, interval, now)
  {
    hide CatchUp, NextTick;
    var i, e := Effective(interval), now - next;
    if e < i {
      OneStep(next, i, now);
    } else if StepCountWraps(next, interval, now) {
      SampleTimerStalls(interval);
    } else {
      StepCountFits(next, i, now);
      CatchUpExact(next, i, now);
    }
  }

  lemma OneStep(next: nat, i: nat, now: nat)
    requires next <= now < next + i
    ensures NextTick(next, i, now) == next + i
  {
    assert (now - next) / i == 0;
  }

  lemma StepCountFits(next: u64, i: nat, now: u64)
    requires next <= now && i > 0 && !(i == 1 && next == 0 && now == MAX64)
    ensures ((now - next) / i + 1) % TWO64 == (now - next) / i + 1
  {
    if i > 1 { HalfAtMost(now - next, i); }
  }

  lemma CatchUpExact(next: u64, i: nat, now: u64)
    requires next <= now && i > 0
    ensures CatchUp(next, i, (now - next) / i + 1) == Saturated(NextTick(next, i, now))
  {
    var steps, room := (now - next) / i + 1, MAX64 - next;
    if steps > room / i {
      MulMono(room / i + 1, steps, i);
    } else {
      StepsFit(next, steps, i);
    }
  }

  lemma HalfAtMost(e: nat, i: nat)
    requires i > 1
    ensures e / i <= e / 2
  {
    assert e / i * i <= e;
    MulMono(2, i, e / i);
  }

  /** The wrap as the code performs it: a timer at zero, sampled at the last tick of the clock, does not move. */
  lemma SampleTimerStalls(interval: u32)
    requires interval <= 1
    ensures AdvanceSampleTimer(0, interval, MAX64) == 0 && Saturated(NextTick(0, Effective(interval), MAX64)) == MAX64
  {
    assert Effective(interval) == 1 && (MAX64 / 1 + 1) % TWO64 == 0;
  }

  /** advance_publish_timer: the loop terminates, and ends at the next tick or at the maximum. */
  method AdvancePublishTimer(next: u64, interval: u32, now: u64) returns (r: u64)
    ensures next <= now ==> r == Saturated(NextTick(next, Effective(interval), now))
    ensures next > now ==> r == Saturated(next + Effective(interval))
  {
    var i := Effective(interval);
    r := next;
    ghost var k := 0;
    while true
      invariant r == next + k * i
      invariant k > 0 ==> r <= now
      decreases MAX64 - r
    {
      if r > MAX64 - i {
        if next <= now { Overshoots(next, i, now, k); }
        return MAX64;
      }
      r := r + i;
      k := k + 1;
      if r > now {
        if next <= now { Lands(next, i, now, k); }
        return;
      }
    }
  }

  lemma Lands(next: nat, i: nat, now: nat, k: nat)
    requires i > 0 && next <= now && k > 0
    requires next + k * i > now >= next + (k - 1) * i
    ensures NextTick(next, i, now) == next + k * i
  {
    NextTickIsLeast(next, i, now);
    var q := (now - next) / i + 1;
    if q < k { MulMono(q, k - 1, i); }
  }

  lemma Overshoots(next: nat, i: nat, now: nat, k: nat)
    requires i > 0 && next + k * i <= now <= MAX64 < next + k * i + i
    ensures NextTick(next, i, now) > MAX64
  {
    NextTickIsLeast(next, i, now);
    var q := (now - next) / i + 1;
    if q <= k { MulMono(q, k, i); }
    MulMono(k + 1, q, i);
  }
}
