/**
 SequenceNumbers of message chunks (section 6.7.2.4 of OPC 10000-6): the
 inbound validator, and the numbers the server puts on what it sends.
 */
module Sequence {
  import opened Types

  /** UInt32.MaxValue - 1024; no early wrap-around up to here. */
  const LAST_BEFORE_WRAP: nat := 4294966271
  const FIRST_AFTER_WRAP_BELOW: nat := 1024

  /** A number follows another: the next one, or one of the first after one of the last. */
  predicate Follows(last: u32, n: u32) {
    n == (last + 1) % TWO32 || (last > LAST_BEFORE_WRAP && n < FIRST_AFTER_WRAP_BELOW)
  }

  /** Every number follows the one before it. */
  ghost predicate Chain(a: seq<u32>) {
    forall i :: 0 < i < |a| ==> Follows(a[i - 1], a[i])
  }

  class SequenceValidator {
    var initialized: bool
    var last: u32

    ghost var accepted: seq<u32>

    ghost predicate Valid()
      reads this
    {
      && Chain(accepted)
      && (initialized <==> |accepted| > 0)
      && (initialized ==> last == accepted[|accepted| - 1])
    }

    /** mu_sequence_validator_init. */
    constructor ()
      ensures Valid() && accepted == []
    {
      initialized, last, accepted := false, 0, [];
    }

    /** mu_sequence_validate: what is accepted makes a chain, and nothing that would go on with it is refused. */
    method Validate(n: u32) returns (s: Status)
      requires Valid()
      modifies this
      ensures Valid()
      ensures s == Good <==> Chain(old(accepted) + [n])
      ensures s == Good <==>
        old(accepted) == []
        || var l := old(accepted)[|old(accepted)| - 1]; n - 1 == l || (l == 0xFFFF_FFFF && n == 0) || (l > 4294966271 && n < 1024)
      ensures accepted == if s == Good then old(accepted) + [n] else old(accepted)
      ensures s == Good || s == BadSecurityChecksFailed
    {
      hide Follows;
      ChainGrows(accepted, n);
      if |accepted| > 0 { FollowsExactly(accepted[|accepted| - 1], n); }
      if !initialized {
        last, initialized, accepted := n, true, accepted + [n];
        return Good;
      }
      var next := IsNext(last, n);
      if next {
        last, accepted := n, accepted + [n];
        return Good;
      }
      return BadSecurityChecksFailed;
    }
  }

  /** The two tests the validator makes, in its order. */
  method IsNext(last: u32, n: u32) returns (r: bool)
    ensures r <==> Follows(last, n)
  {
    var expected := (last + 1) % TWO32;
    if n == expected {
      return true;
    }
    return last > LAST_BEFORE_WRAP && n < FIRST_AFTER_WRAP_BELOW;
  }

  /** The number after the last, through 0; or any below 1024 after one above UInt32.MaxValue - 1024. */
  lemma FollowsExactly(last: u32, n: u32)
    ensures Follows(last, n) <==> n == last + 1 || (last == 0xFFFF_FFFF && n == 0) || (last > 4294966271 && n < 1024)
  {
  }

  lemma ChainGrows(a: seq<u32>, n: u32)
    requires Chain(a)
    ensures Chain(a + [n]) <==> |a| == 0 || Follows(a[|a| - 1], n)
  {
    hide Follows;
    var b := a + [n];
    assert forall i :: 0 <= i < |a| ==> b[i] == a[i];
    if |a| > 0 {
      assert b[|a| - 1] == a[|a| - 1] && b[|a|] == n;
    }
  }

  // ----- How soon a number can come back

  /** Fewer than this many acceptances never lead back to the same number. */
  const SHORTEST_CYCLE: nat := 4294965250

  /** d steps on, with d short of a cycle: straight on, or once around and still behind. */
  predicate Within(from: u32, d: nat, n: u32) {
    n == from + d || (d >= 1 && n <= 1022 + d && n + SHORTEST_CYCLE <= from + d)
  }

  lemma WithinStep(from: u32, d: nat, n: u32, next: u32)
    requires Within(from, d, n) && Follows(n, next) && d + 1 < SHORTEST_CYCLE
    ensures Within(from, d + 1, next)
  {
  }

  lemma {:induction false} ChainWithin(a: seq<u32>, i: nat, d: nat)
    requires Chain(a) && i + d < |a| && d < SHORTEST_CYCLE
    ensures Within(a[i], d, a[i + d])
    decreases d
  {
    hide Within, Follows;
    if d > 0 {
      ChainWithin(a, i, d - 1);
      assert Follows(a[i + d - 1], a[i + d]);
      WithinStep(a[i], d - 1, a[i + d - 1], a[i + d]);
    } else {
      WithinStart(a[i]);
    }
  }

  lemma WithinStart(n: u32)
    ensures Within(n, 0, n)
  {
  }

  /** In any run of the validator, the same number is accepted twice only this many acceptances apart. */
  lemma NoEarlyRepeat(a: seq<u32>, i: nat, j: nat)
    requires Chain(a) && i < j < |a| && a[i] == a[j]
    ensures j - i >= 4294965250
  {
    hide Follows;
    if j - i < SHORTEST_CYCLE {
      ChainWithin(a, i, j - i);
    }
  }

  /** And no bound above this one would hold. */
  lemma RepeatAtTheBound() returns (a: seq<u32>)
    ensures Chain(a) && |a| == 4294965251 && a[0] == a[4294965250]
  {
    a := seq(SHORTEST_CYCLE + 1, i => if i < SHORTEST_CYCLE then 1023 + i else 1023);
  }

  // ----- Outbound

  const SYMMETRIC_HEADER: nat := 24

  /** The n-th number, counting from 1 and through 0 on wrap-around. */
  function NthNumber(n: nat): (r: u32) {
    (n + 1) % TWO32
  }

  /** The first message is number 1, and every later one has the number after the one before it, through 0. */
  lemma NumbersCount(n: nat)
    ensures NthNumber(0) == 1 && NthNumber(n + 1) == if NthNumber(n) == 0xFFFF_FFFF then 0 else NthNumber(n) + 1
  {
  }

  lemma ConsecutiveIsChain(a: seq<u32>)
    requires forall i :: 0 <= i < |a| ==> a[i] == NthNumber(i)
    ensures Chain(a)
  {
    hide Follows, NthNumber;
    forall i | 0 < i < |a| ensures Follows(a[i - 1], a[i]) {
      NumberFollows(i - 1);
    }
  }

  lemma NumberFollows(n: nat)
    ensures Follows(NthNumber(n), NthNumber(n + 1))
  {
    hide NthNumber;
    NumbersCount(n);
  }

  /** The outbound counter of a secure channel. */
  class Outbound {
    var number: u32

    ghost var framed: seq<u32>    // the numbers that went out
    ghost var taken: nat          // how often the counter was advanced

    ghost predicate Valid()
      reads this
    {
      && number == taken % TWO32
      && |framed| <= taken
    }

    /** Nothing was taken that did not go out. */
    ghost predicate Gapless()
      reads this
    {
      |framed| == taken && forall i :: 0 <= i < |framed| ==> framed[i] == NthNumber(i)
    }

    constructor ()
      ensures Valid() && Gapless() && framed == []
    {
      number, framed, taken := 0, [], 0;
    }

    method Advance() returns (n: u32)
      requires Valid()
      modifies `number, `taken
      ensures taken == old(taken) + 1 && number == n == taken % TWO32
    {
      number := (number + 1) % TWO32;
      taken := taken + 1;
      return number;
    }

    /** mu_server_emit_message without security: the size is checked before a number is taken. */
    method EmitPlain(bodyLength: nat, sendBuffer: nat) returns (s: Status)
      requires Valid() && Gapless()
      modifies this
      ensures Valid() && Gapless() && Chain(framed)
      ensures s == Good <==> bodyLength + 24 <= sendBuffer
      ensures framed == if s == Good then old(framed) + [NthNumber(|old(framed)|)] else old(framed)
    {
      if bodyLength > sendBuffer || SYMMETRIC_HEADER > sendBuffer || bodyLength > sendBuffer - SYMMETRIC_HEADER {
        ConsecutiveIsChain(framed);
        return BadResponseTooLarge;
      }
      var n := Advance();
      framed := framed + [n];
      ConsecutiveIsChain(framed);
      return Good;
    }

    /** The response of handle_data_chunk_plaintext: its body was written into what the header leaves of the buffer. */
    method RespondPlain(payload: nat, header: nat, sendBuffer: nat)
      requires Valid() && Gapless() && header + payload <= sendBuffer
      modifies this
      ensures Valid() && Gapless() && Chain(framed)
      ensures framed == if payload > 0 then old(framed) + [NthNumber(|old(framed)|)] else old(framed)
    {
      if payload > 0 {
        var n := Advance();
        framed := framed + [n];
      }
      ConsecutiveIsChain(framed);
    }

    /** A secured response or message: the number is taken before wrapping, which may fail. */
    method EmitSecured(wrapped: Status) returns (s: Status)
      requires Valid()
      modifies this
      ensures Valid() && s == wrapped
      ensures taken == old(taken) + 1
      ensures framed == if s == Good then old(framed) + [NthNumber(old(taken))] else old(framed)
    {
      var n := Advance();
      if wrapped == Good {
        framed := framed + [n];
      }
      return wrapped;
    }
  }

  /** A failed wrap leaves a gap that the peer refuses, unless the failures happen to carry the counter around its end. */
  lemma GapRefused(taken: nat, failures: nat)
    requires 0 < failures < TWO32
    ensures var last, next := NthNumber(taken), NthNumber(taken + 1 + failures);
      Follows(last, next) <==> last > LAST_BEFORE_WRAP && (last + 1 + failures) % TWO32 < FIRST_AFTER_WRAP_BELOW
  {
  }

  /** One failure after the first message is enough. */
  lemma OneFailureBreaksTheChain()
    ensures !Chain([NthNumber(0), NthNumber(2)])
  {
    var a := [NthNumber(0), NthNumber(2)];
    assert !Follows(a[0], a[1]);
  }
}
