/**
 Stream reassembly in the receive loop of mu_server_poll (section 7.1.2 of
 OPC 10000-6): however the transport cuts the byte stream into reads, the
 messages handed on are the size-prefixed framing of the whole stream.
 */
module Framing {
  import opened Types
  import opened Wire

  const HEADER: nat := 8
  const MIN_CHUNK_SIZE: nat := 8192

  /** MessageSize, the UInt32 at offset 4. */
  function SizeOf(s: seq<byte>): (r: nat)
    requires |s| >= HEADER
  {
    FromLE(s[4..8])
  }

  /** A stream cut into messages; `bad` if it stopped at a size that cannot be. */
  datatype Framed = Framed(messages: seq<seq<byte>>, rest: seq<byte>, bad: bool)

  predicate BadSize(n: nat, capacity: nat) {
    n < HEADER || n > capacity
  }

  function Frame(s: seq<byte>, capacity: nat): (f: Framed)
    ensures !f.bad && |f.rest| >= HEADER ==> |f.rest| < capacity
    decreases |s|
  {
    if |s| < HEADER then Framed([], s, false)
    else if BadSize(SizeOf(s), capacity) then Framed([], s, true)
    else if SizeOf(s) > |s| then Framed([], s, false)
    else
      var f := Frame(s[SizeOf(s)..], capacity);
      f.(messages := [s[..SizeOf(s)]] + f.messages)
  }

  /** Framing what is left together with what comes next is framing it all at once. */
  lemma {:induction false} FrameConcat(a: seq<byte>, b: seq<byte>, capacity: nat)
    requires !Frame(a, capacity).bad
    ensures var f, g := Frame(a, capacity), Frame(Frame(a, capacity).rest + b, capacity);
      Frame(a + b, capacity) == Framed(f.messages + g.messages, g.rest, g.bad)
    decreases |a|
  {
    hide FromLE, Frame, BadSize;
    if |a| < HEADER {
      FrameShort(a, capacity);
      assert Frame(a + b, capacity) == Framed([] + Frame(a + b, capacity).messages, Frame(a + b, capacity).rest, Frame(a + b, capacity).bad);
    } else {
      var n := SizeOf(a);
      FrameStep(a, capacity);
      if n > |a| {
        assert [] + Frame(a + b, capacity).messages == Frame(a + b, capacity).messages;
      } else {
        assert (a + b)[4..8] == a[4..8];
        assert (a + b)[..n] == a[..n] && (a + b)[n..] == a[n..] + b;
        FrameConcat(a[n..], b, capacity);
        FrameStep(a + b, capacity);
        var f, g, h := Frame(a, capacity), Frame(Frame(a, capacity).rest + b, capacity), Frame(a + b, capacity);
        assert f.messages == [a[..n]] + f.messages[1..] && h.messages == [a[..n]] + h.messages[1..];
        assert [a[..n]] + (f.messages[1..] + g.messages) == f.messages + g.messages;
      }
    }
  }

  /**
   What is left after framing starts with no complete message: it has no whole
   header, or its size is beyond the bytes there are, or it is one that cannot
   be, below 8 bytes or above the buffer, and that is when the stream is bad.
   */
  lemma {:induction false} RestIsFramed(s: seq<byte>, capacity: nat)
    ensures var f := Frame(s, capacity);
      && Frame(f.rest, capacity) == Framed([], f.rest, f.bad)
      && (f.bad <==> |f.rest| >= 8 && (FromLE(f.rest[4..8]) < 8 || FromLE(f.rest[4..8]) > capacity))
      && (|f.rest| < 8 || f.bad || FromLE(f.rest[4..8]) > |f.rest|)
    decreases |s|
  {
    hide FromLE;
    if |s| >= HEADER && !BadSize(SizeOf(s), capacity) && SizeOf(s) <= |s| {
      RestIsFramed(s[SizeOf(s)..], capacity);
    }
  }

  function Joined(messages: seq<seq<byte>>): (r: seq<byte>) {
    if messages == [] then [] else messages[0] + Joined(messages[1..])
  }

  /** The messages and what is left make up the stream, and each message says its own length. */
  lemma {:induction false} FramePartition(s: seq<byte>, capacity: nat)
    ensures var f := Frame(s, capacity);
      && Joined(f.messages) + f.rest == s
      && forall m :: m in f.messages ==> 8 <= |m| <= capacity && FromLE(m[4..8]) == |m|
    decreases |s|
  {
    hide Frame, FromLE;
    if |s| < HEADER {
      FrameShort(s, capacity);
    } else {
      FrameStep(s, capacity);
      var f, n := Frame(s, capacity), SizeOf(s);
      if !BadSize(n, capacity) && n <= |s| {
        FramePartition(s[n..], capacity);
        SizeOfPrefix(s, n);
        assert f.messages == [s[..n]] + f.messages[1..];
        Reassociate(s[..n], Joined(f.messages[1..]), f.rest);
        assert s[..n] + s[n..] == s;
      }
    }
  }

  /** A stream of messages, each from 8 bytes to the buffer's size and as long as it says, is framed as those, whatever follows. */
  lemma {:induction false} FrameComplete(ms: seq<seq<byte>>, rest: seq<byte>, capacity: nat)
    requires forall k :: 0 <= k < |ms| ==> 8 <= |ms[k]| <= capacity && FromLE(ms[k][4..8]) == |ms[k]|
    ensures var f, g := Frame(Joined(ms) + rest, capacity), Frame(rest, capacity);
      f == Framed(ms + g.messages, g.rest, g.bad)
  {
    hide FromLE, Frame;
    if ms == [] {
      assert [] + rest == rest;
    } else {
      var m, s := ms[0], Joined(ms) + rest;
      Reassociate(m, Joined(ms[1..]), rest);
      assert s[4..8] == m[4..8] && s[..|m|] == m && s[|m|..] == Joined(ms[1..]) + rest;
      FrameComplete(ms[1..], rest, capacity);
      FrameStep(s, capacity);
      var f, g := Frame(s, capacity), Frame(rest, capacity);
      assert f.messages == [m] + f.messages[1..] && [m] + (ms[1..] + g.messages) == ms + g.messages;
    }
  }

  /** In 8192 bytes a message that says 5000 is complete once it is there, and is handed on. */
  lemma LargeMessageIsFramed(m: seq<byte>, rest: seq<byte>)
    requires |m| == 5000 && FromLE(m[4..8]) == 5000
    ensures [m] <= Frame(m + rest, 8192).messages
  {
    hide FromLE, Frame;
    FrameComplete([m], rest, 8192);
    assert m + [] == m && [m][1..] == [];
    assert Joined([m]) == m + Joined([m][1..]);
  }

  lemma SizeOfPrefix(s: seq<byte>, n: nat)
    requires HEADER <= n <= |s|
    ensures SizeOf(s[..n]) == SizeOf(s)
  {
    assert s[..n][4..8] == s[4..8];
  }

  lemma Reassociate(a: seq<byte>, b: seq<byte>, c: seq<byte>)
    ensures (a + b) + c == a + (b + c)
  {
  }

  // ----- The handler

  /** What handling a message does to the connection and, in place, to the bytes of the message. */
  datatype Reaction = Reaction(closes: bool, rewritten: seq<byte>)

  /** A handler reacts to a message in the light of all that came before it. */
  type Handler = seq<seq<byte>> -> Reaction

  /** The messages a connection gets through: all of them, or up to the first that closes it. */
  function Handled(handler: Handler, messages: seq<seq<byte>>): (r: seq<seq<byte>>)
    ensures r <= messages
    decreases |messages|
  {
    if messages == [] then []
    else
      var n := |messages| - 1;
      var before := Handled(handler, messages[..n]);
      if |before| < n || Closed(handler, before) then before else messages
  }

  predicate Closed(handler: Handler, handled: seq<seq<byte>>) {
    handled != [] && handler(handled).closes
  }

  /** No message but possibly the last closed the connection. */
  ghost predicate OpenUntil(handler: Handler, handled: seq<seq<byte>>) {
    forall k :: 0 < k < |handled| ==> !handler(handled[..k]).closes
  }

  lemma {:induction false} HandledAll(handler: Handler, messages: seq<seq<byte>>)
    requires OpenUntil(handler, messages)
    ensures Handled(handler, messages) == messages
    decreases |messages|
  {
    if messages != [] {
      var n := |messages| - 1;
      assert forall k :: 0 < k < n ==> messages[..n][..k] == messages[..k];
      HandledAll(handler, messages[..n]);
    }
  }

  lemma {:induction false} HandledCut(handler: Handler, a: seq<seq<byte>>, b: seq<seq<byte>>)
    requires OpenUntil(handler, a) && Closed(handler, a)
    ensures Handled(handler, a + b) == a
    decreases |b|
  {
    if b == [] {
      assert a + b == a;
      HandledAll(handler, a);
    } else {
      assert (a + b)[..|a + b| - 1] == a + b[..|b| - 1];
      HandledCut(handler, a, b[..|b| - 1]);
    }
  }

  // ----- The receive buffer

  datatype Read = Failed | Got(bytes: seq<byte>)

  class Receiver {
    const buffer: array<byte>
    const handler: Handler
    var length: nat
    var connected: bool

    var handled: seq<seq<byte>>    // every message passed to process_message

    ghost var stream: seq<byte>    // every byte the connection delivered

    /** What was handled is what the framing of the whole stream says, and a live connection can read on. */
    ghost predicate Valid()
      reads this, buffer
    {
      var f := Frame(stream, buffer.Length);
      && buffer.Length >= MIN_CHUNK_SIZE
      && length <= buffer.Length
      && handled == Handled(handler, f.messages)
      && (connected ==>
            && !f.bad && handled == f.messages && OpenUntil(handler, handled) && !Closed(handler, handled)
            && buffer[..length] == f.rest && length < buffer.Length)
    }

    constructor (buffer: array<byte>, handler: Handler)
      requires buffer.Length >= MIN_CHUNK_SIZE
      ensures Valid() && !connected && this.buffer == buffer && this.handler == handler
    {
      this.buffer, this.handler, length, connected, stream, handled := buffer, handler, 0, false, [], [];
    }

    /** A connection was accepted. */
    method Accept()
      requires Valid() && !connected
      modifies this
      ensures Valid() && connected && stream == [] && handled == []
    {
      length, connected, stream, handled := 0, true, [], [];
      assert buffer[..0] == [];
    }

    /** process_message, on the bytes in place. */
    method Process(at: nat, n: nat)
      requires at + n <= length <= buffer.Length && connected
      modifies this`connected, this`handled, buffer
      ensures handled == old(handled) + [old(buffer[at..length])[..n]]
      ensures connected <==> !handler(handled).closes
      ensures buffer[at + n..length] == old(buffer[at..length])[n..]
    {
      assert buffer[at..length][..n] == buffer[at..at + n] && buffer[at..length][n..] == buffer[at + n..length];
      handled := handled + [buffer[at..at + n]];
      var reaction := handler(handled);
      var k := 0;
      while k < n && k < |reaction.rewritten|
        invariant k <= n && buffer[at + n..length] == old(buffer[at + n..length])
        modifies buffer
      {
        buffer[at + k] := reaction.rewritten[k];
        k := k + 1;
      }
      if reaction.closes {
        connected := false;
      }
    }

    /** The MessageSize of the message that starts at the given offset. */
    method SizeAt(at: nat) returns (size: nat)
      requires at + HEADER <= length <= buffer.Length
      ensures size == SizeOf(buffer[at..length])
    {
      hide FromLE;
      size := FromLE(buffer[at + 4..at + 8]);
      ghost var bytes := buffer[..];
      SliceOfSlice(bytes, at, length, 4, 8);
      assert buffer[at..length] == bytes[at..length] && buffer[at + 4..at + 8] == bytes[at + 4..at + 8];
    }

    /** The loop over the complete messages in the buffer; `count` of them are handled. */
    method HandleComplete(ghost all: seq<byte>) returns (consumed: nat, ghost count: nat)
      requires connected && length <= buffer.Length && buffer[..length] == all
      requires OpenUntil(handler, handled) && !Closed(handler, handled)
      modifies `connected, `handled, `length, buffer
      ensures OpenUntil(handler, handled) && length <= buffer.Length
      ensures var f := Frame(all, buffer.Length);
        && count <= |f.messages| && handled == old(handled) + f.messages[..count]
        && (if connected
            then !f.bad && count == |f.messages| && !Closed(handler, handled) && consumed <= length && buffer[consumed..length] == f.rest
            else (f.bad && count == |f.messages|) || Closed(handler, handled))
    {
      hide SizeOf, BadSize, OpenUntil, Frame;
      consumed, count := 0, 0;
      ghost var f := Frame(all, buffer.Length);
      ghost var before := handled;
      assert buffer[0..length] == all && f.messages[0..] == f.messages && before + f.messages[..0] == before;
      while connected && length - consumed >= HEADER
        invariant consumed <= length == old(length)
        invariant connected && count <= |f.messages| && handled == before + f.messages[..count]
        invariant OpenUntil(handler, handled) && !Closed(handler, handled)
        invariant Frame(buffer[consumed..length], buffer.Length) == Framed(f.messages[count..], f.rest, f.bad)
      {
        ghost var tail := buffer[consumed..length];
        var size := SizeAt(consumed);
        FrameStep(tail, buffer.Length);
        if BadSize(size, buffer.Length) {
          connected, length := false, 0;
          return;
        }
        if size > length - consumed {
          break;
        }
        StillOpen(handler, handled, tail[..size]);
        OneMore(before, f.messages, count);
        Process(consumed, size);
        count := count + 1;
        if !connected {
          length := 0;
          break;
        }
        consumed := consumed + size;
      }
      if connected && length - consumed < HEADER {
        FrameShort(buffer[consumed..length], buffer.Length);
      }
    }
  
    /**
     One mu_server_poll on a live connection, with what the transport's read
     returned: nothing it delivers is framed differently for being cut there.
     */
    method Poll(read: Read)
      requires Valid() && connected && (read.Got? ==> |read.bytes| <= buffer.Length - length)
      modifies this, buffer
      ensures Valid()
      ensures stream == if read.Got? then old(stream) + read.bytes else old(stream)
      ensures connected <==> read.Got? && !Frame(stream, buffer.Length).bad && !Closed(handler, handled)
    {
      hide Frame, OpenUntil;
      if read.Failed? {
        connected, length := false, 0;
        return;
      }
      ghost var f := Frame(stream, buffer.Length);
      ghost var was := handled;
      Append(read.bytes);
      ghost var all := buffer[..length];
      FrameConcat(stream, read.bytes, buffer.Length);
      stream := stream + read.bytes;
      var consumed;
      ghost var count;
      consumed, count := HandleComplete(all);
      ghost var g := Frame(all, buffer.Length);
      HandledSoFar(handler, was, g.messages, count);
      if connected {
        assert g.messages[..count] == g.messages;
        Compact(consumed);
        RestLeavesRoom(all, buffer.Length);
      }
    }

    /** The bytes of a read, placed after those already there. */
    method Append(bytes: seq<byte>)
      requires length + |bytes| <= buffer.Length
      modifies `length, buffer
      ensures length == old(length) + |bytes| && buffer[..length] == old(buffer[..length]) + bytes
    {
      for k := 0 to |bytes|
        invariant buffer[..length + k] == old(buffer[..length]) + bytes[..k]
        modifies buffer
      {
        buffer[length + k] := bytes[k];
      }
      length := length + |bytes|;
    }

    /** The memmove that brings the unconsumed bytes to the front. */
    method Compact(consumed: nat)
      requires consumed <= length <= buffer.Length
      modifies `length, buffer
      ensures length == old(length) - consumed && buffer[..length] == old(buffer[consumed..length])
    {
      if consumed > 0 {
        var remaining := length - consumed;
        for k := 0 to remaining
          invariant forall j :: 0 <= j < k ==> buffer[j] == old(buffer[consumed + j])
          invariant forall j :: consumed + k <= j < length ==> buffer[j] == old(buffer[j])
          modifies buffer
        {
          buffer[k] := buffer[consumed + k];
        }
        length := remaining;
      }
    }
  }

  /** What HandleComplete leaves in `handled` is what the framing of the whole stream says. */
  lemma HandledSoFar(handler: Handler, was: seq<seq<byte>>, ms: seq<seq<byte>>, count: nat)
    requires count <= |ms| && OpenUntil(handler, was + ms[..count])
    requires count == |ms| || Closed(handler, was + ms[..count])
    ensures Handled(handler, was + ms) == was + ms[..count]
  {
    hide OpenUntil, Handled, Closed;
    if count == |ms| {
      assert ms[..count] == ms;
      HandledAll(handler, was + ms);
    } else {
      assert was + ms == (was + ms[..count]) + ms[count..];
      HandledCut(handler, was + ms[..count], ms[count..]);
    }
  }

  lemma RestLeavesRoom(s: seq<byte>, capacity: nat)
    requires !Frame(s, capacity).bad && capacity >= HEADER
    ensures |Frame(s, capacity).rest| < capacity
  {
  }

  lemma SliceOfSlice(s: seq<byte>, i: nat, j: nat, a: nat, b: nat)
    requires i <= j <= |s| && a <= b <= j - i
    ensures s[i..j][a..b] == s[i + a..i + b]
  {
    var l, r := s[i..j][a..b], s[i + a..i + b];
    assert |l| == |r|;
    forall k | 0 <= k < |l| ensures l[k] == r[k] {
      assert l[k] == s[i..j][a + k] && r[k] == s[i + a + k];
    }
  }

  lemma OneMore(before: seq<seq<byte>>, ms: seq<seq<byte>>, count: nat)
    requires count < |ms|
    ensures before + ms[..count] + [ms[count..][0]] == before + ms[..count + 1]
    ensures ms[count..][1..] == ms[count + 1..]
  {
  }

  lemma FrameShort(s: seq<byte>, capacity: nat)
    requires |s| < HEADER
    ensures Frame(s, capacity) == Framed([], s, false)
  {
  }

  lemma FrameStep(s: seq<byte>, capacity: nat)
    requires |s| >= HEADER
    ensures BadSize(SizeOf(s), capacity) ==> Frame(s, capacity) == Framed([], s, true)
    ensures !BadSize(SizeOf(s), capacity) && SizeOf(s) > |s| ==> Frame(s, capacity) == Framed([], s, false)
    ensures !BadSize(SizeOf(s), capacity) && SizeOf(s) <= |s| ==>
      var f, g := Frame(s, capacity), Frame(s[SizeOf(s)..], capacity);
      |f.messages| > 0 && f.messages[0] == s[..SizeOf(s)] && g == Framed(f.messages[1..], f.rest, f.bad)
  {
    hide FromLE;
  }

  lemma StillOpen(handler: Handler, handled: seq<seq<byte>>, message: seq<byte>)
    requires OpenUntil(handler, handled) && !Closed(handler, handled)
    ensures OpenUntil(handler, handled + [message])
  {
    var all := handled + [message];
    forall k | 0 < k < |all| ensures !handler(all[..k]).closes {
      assert all[..k] == handled[..k];
      if k == |handled| { assert handled[..k] == handled; }
    }
  }
}
