/**
 Session slots on the one connection of the server, and the gate in front of
 every service: what a run of Create, Activate and Close leaves in the slots,
 and when a handler that needs a session gets to run (sections 5.7 and 7.38.2
 of OPC 10000-4).
 */
module Sessions {
  import opened Types
  import opened Identifiers

  datatype State = Closed | Created | Activated

  datatype Session = Session(state: State, id: u32, token: u32)

  const CLOSED: Session := Session(Closed, 0, 0)

  // ----- What happened so far

  datatype Event =
    | Accepted                                      // a new connection; every slot starts over
    | ChannelOpened
    | ChannelClosed
    | SlotCreated(slot: nat, id: u32, token: u32)
    | SlotActivated(slot: nat)
    | SlotClosed(slot: nat)

  /** What an event makes of slot i. */
  function After(s: Session, e: Event, i: nat): (r: Session) {
    match e
    case Accepted => CLOSED
    case SlotCreated(k, id, token) => if k == i then Session(Created, id, token) else s
    case SlotActivated(k) => if k == i && s.state != Closed then s.(state := Activated) else s
    case SlotClosed(k) => if k == i then CLOSED else s
    case _ => s
  }

  ghost function SlotFrom(log: seq<Event>, i: nat): (r: Session) {
    if log == [] then CLOSED else After(SlotFrom(log[..|log| - 1], i), log[|log| - 1], i)
  }

  ghost function OpenFrom(log: seq<Event>): (r: bool) {
    if log == [] then false
    else match log[|log| - 1]
      case Accepted => false
      case ChannelOpened => true
      case ChannelClosed => false
      case _ => OpenFrom(log[..|log| - 1])
  }

  /** The event takes slot i out of the life it had. */
  predicate Ends(e: Event, i: nat) {
    e.Accepted? || (e.SlotClosed? && e.slot == i) || (e.SlotCreated? && e.slot == i)
  }

  /** Slot i was created under this token at position a, and nothing ended that life since. */
  ghost predicate BornAt(log: seq<Event>, i: nat, token: u32, a: nat) {
    && a < |log| && log[a].SlotCreated? && log[a].slot == i && log[a].token == token
    && forall k :: a < k < |log| ==> !Ends(log[k], i)
  }

  /** Created, then activated, and neither closed nor replaced since. */
  ghost predicate ActivatedSince(log: seq<Event>, i: nat, token: u32) {
    exists a: nat, b: nat {:trigger log[a], log[b]} :: BornAt(log, i, token, a) && a < b < |log| && log[b] == SlotActivated(i)
  }

  ghost predicate OpenedSince(log: seq<Event>) {
    exists o :: 0 <= o < |log| && log[o].ChannelOpened? && forall k :: o < k < |log| ==> !log[k].Accepted? && !log[k].ChannelClosed?
  }

  lemma {:induction false} LiveWasBorn(log: seq<Event>, i: nat) returns (a: nat)
    requires SlotFrom(log, i).state != Closed
    ensures BornAt(log, i, SlotFrom(log, i).token, a)
  {
    var n := |log| - 1;
    if log[n].SlotCreated? && log[n].slot == i {
      a := n;
    } else {
      a := LiveWasBorn(log[..n], i);
    }
  }

  lemma {:induction false} ActivatedWasActivated(log: seq<Event>, i: nat)
    requires SlotFrom(log, i).state == Activated
    ensures ActivatedSince(log, i, SlotFrom(log, i).token)
  {
    var n := |log| - 1;
    var before := log[..n];
    if log[n] == SlotActivated(i) && SlotFrom(before, i).state != Closed {
      var a := LiveWasBorn(log, i);
      assert a < n;
    } else {
      ActivatedWasActivated(before, i);
      var a: nat, b: nat :| BornAt(before, i, SlotFrom(before, i).token, a) && a < b < |before| && before[b] == SlotActivated(i);
      assert BornAt(log, i, SlotFrom(log, i).token, a) && log[b] == SlotActivated(i);
    }
  }

  lemma {:induction false} OpenWasOpened(log: seq<Event>)
    requires OpenFrom(log)
    ensures OpenedSince(log)
  {
    var n := |log| - 1;
    if log[n].ChannelOpened? {
      assert log[n].ChannelOpened?;
    } else {
      OpenWasOpened(log[..n]);
      var o :| 0 <= o < n && log[..n][o].ChannelOpened? && forall k :: o < k < n ==> !log[..n][k].Accepted? && !log[..n][k].ChannelClosed?;
      assert log[o] == log[..n][o];
      assert forall k :: o < k < n ==> log[k] == log[..n][k];
    }
  }

  // ----- The slots

  function Ids(slots: seq<Session>): (r: Held)
    ensures |r| == |slots| && forall i :: 0 <= i < |slots| ==> r[i] == if slots[i].state != Closed then Some(slots[i].id) else None
  {
    seq(|slots|, i requires 0 <= i < |slots| => if slots[i].state != Closed then Some(slots[i].id) else None)
  }

  function Tokens(slots: seq<Session>): (r: Held)
    ensures |r| == |slots| && forall i :: 0 <= i < |slots| ==> r[i] == if slots[i].state != Closed then Some(slots[i].token) else None
  {
    seq(|slots|, i requires 0 <= i < |slots| => if slots[i].state != Closed then Some(slots[i].token) else None)
  }

  /** No two live slots hold the same number, and none holds zero. */
  ghost predicate Distinct(held: Held) {
    && Some(0) !in held
    && forall i, j :: 0 <= i < j < |held| && held[i].Some? ==> held[i] != held[j]
  }

  datatype Service = Unknown | OpenSecureChannel | Sessionless | WithSession

  class SessionTable {
    const slots: array<Session>
    var channelOpen: bool

    ghost var log: seq<Event>

    ghost predicate Valid()
      reads this, slots
    {
      && slots.Length <= MAX_SESSIONS
      && channelOpen == OpenFrom(log)
      && (forall i :: 0 <= i < slots.Length ==> slots[i] == SlotFrom(log, i))
      && Distinct(Ids(slots[..])) && Distinct(Tokens(slots[..]))
    }

    constructor (count: nat)
      requires count <= MAX_SESSIONS
      ensures Valid() && fresh(slots) && slots.Length == count && log == []
    {
      slots := new Session[count](_ => CLOSED);
      channelOpen, log := false, [];
    }

    /** A connection is accepted: every slot is initialised. */
    method Accept()
      requires Valid()
      modifies this, slots
      ensures Valid() && log == old(log) + [Accepted]
    {
      for i := 0 to slots.Length
        invariant forall k :: 0 <= k < i ==> slots[k] == CLOSED
        modifies slots
      {
        slots[i] := CLOSED;
      }
      channelOpen, log := false, log + [Accepted];
    }

    method OpenChannel()
      requires Valid()
      modifies this
      ensures Valid() && log == old(log) + [ChannelOpened]
    {
      channelOpen, log := true, log + [ChannelOpened];
    }

    method CloseChannel()
      requires Valid()
      modifies this
      ensures Valid() && log == old(log) + [ChannelClosed]
    {
      channelOpen, log := false, log + [ChannelClosed];
    }

    /** mu_session_find_by_token: slots.Length if there is none. */
    method FindByToken(token: u32) returns (i: nat)
      requires Valid()
      ensures i <= slots.Length
      ensures i < slots.Length ==> slots[i].state != Closed && slots[i].token == token
      ensures i == slots.Length ==> Some(token) !in Tokens(slots[..])
    {
      i := 0;
      while i < slots.Length
        invariant i <= slots.Length && forall k :: 0 <= k < i ==> slots[k].state == Closed || slots[k].token != token
      {
        if slots[i].state != Closed && slots[i].token == token {
          return;
        }
        i := i + 1;
      }
    }

    /** Slot i gets a new content, of which the other slots know nothing. */
    method Change(i: nat, to: Session, e: Event)
      requires Valid() && i < slots.Length && to == After(slots[i], e, i)
      requires e.SlotCreated? || e.SlotActivated? || e.SlotClosed?
      requires e.slot == i
      requires to.state != Closed ==> to.id != 0 && to.token != 0
      requires to.state != Closed && (slots[i].state == Closed || to.id != slots[i].id) ==> Some(to.id) !in Ids(slots[..])
      requires to.state != Closed && (slots[i].state == Closed || to.token != slots[i].token) ==> Some(to.token) !in Tokens(slots[..])
      modifies this`log, slots
      ensures Valid() && log == old(log) + [e] && slots[..] == old(slots[..])[i := to]
    {
      hide SlotFrom, OpenFrom;
      ghost var was := slots[..];
      StillDistinct(Ids(was), i, if to.state != Closed then Some(to.id) else None);
      StillDistinct(Tokens(was), i, if to.state != Closed then Some(to.token) else None);
      slots[i] := to;
      assert slots[..] == was[i := to];
      assert Ids(slots[..]) == Ids(was)[i := if to.state != Closed then Some(to.id) else None];
      assert Tokens(slots[..]) == Tokens(was)[i := if to.state != Closed then Some(to.token) else None];
      log := log + [e];
      OpenUnmoved(old(log), e);
      forall k | 0 <= k < slots.Length ensures slots[k] == SlotFrom(log, k) { SlotStep(old(log), e, k); }
    }

    /** mu_session_find_free. */
    method FindFree() returns (i: nat)
      ensures i <= slots.Length
      ensures i < slots.Length ==> slots[i].state == Closed
      ensures forall k :: 0 <= k < i ==> slots[k].state != Closed
      ensures i == slots.Length ==> forall k :: 0 <= k < slots.Length ==> slots[k].state != Closed
    {
      i := 0;
      while i < slots.Length && slots[i].state != Closed
        invariant i <= slots.Length && forall k :: 0 <= k < i ==> slots[k].state != Closed
      {
        i := i + 1;
      }
    }

    /**
     CreateSession: with the nonce and both entropy values drawn, it succeeds
     whenever a slot is free, whatever those values are.
     */
    method CreateSession(nonce: bool, idEntropy: Option<u32>, tokenEntropy: Option<u32>) returns (s: Status, slot: nat)
      requires Valid()
      modifies this`log, slots
      ensures Valid()
      ensures s == Good <==>
        nonce && idEntropy.Some? && tokenEntropy.Some? && exists k :: 0 <= k < slots.Length && old(slots[k].state) == Closed
      ensures s == Good ==> slot < slots.Length && slots[slot].state == Created && log == old(log) + [SlotCreated(slot, slots[slot].id, slots[slot].token)]
      ensures s == Good ==> slots[slot].id != 0 && old(slots[slot].state) == Closed && slots[..] == old(slots[..])[slot := slots[slot]]
      ensures s == Good ==> forall k :: 0 <= k < slot ==> old(slots[k].state) != Closed
      ensures s == Good ==>
        && FirstFree(SessionId, idEntropy.value, old(Ids(slots[..])), slots[slot].id)
        && FirstFree(AuthenticationToken, tokenEntropy.value, old(Tokens(slots[..])), slots[slot].token)
      ensures s != Good ==> log == old(log) && slots[..] == old(slots[..])
    {
      hide SlotFrom, OpenFrom, Exhausted, Distinct, FirstFree;
      slot := 0;
      if !nonce {
        return BadSecurityChecksFailed, slot;
      }
      slot := FindFree();
      if slot == slots.Length {
        return BadTooManySessions, slot;
      }
      var held, tokens := Ids(slots[..]), Tokens(slots[..]);
      if idEntropy.Some? { NeverExhausted(SessionId, idEntropy.value, held, slot); }
      if tokenEntropy.Some? { NeverExhausted(AuthenticationToken, tokenEntropy.value, tokens, slot); }
      var id := Generate(SessionId, held, idEntropy);
      if id.None? {
        return BadSecurityChecksFailed, slot;
      }
      var token := Generate(AuthenticationToken, tokens, tokenEntropy);
      if token.None? {
        return BadSecurityChecksFailed, slot;
      }
      Change(slot, Session(Created, id.value, token.value), SlotCreated(slot, id.value, token.value));
      s := Good;
    }

    /** ActivateSession; `checks` is what the channel, signature and identity checks came to. */
    method ActivateSession(token: u32, identity: u32, checks: Status) returns (s: Status)
      requires Valid()
      modifies this`log, slots
      ensures Valid()
      ensures s == Good <==> Some(token) in old(Tokens(slots[..])) && checks == Good && (identity == 321 || identity == 324 || identity == 327)
      ensures s == Good ==> exists i ::
        && 0 <= i < slots.Length && old(slots[i].state) != Closed && old(slots[i].token) == token
        && log == old(log) + [SlotActivated(i)] && slots[..] == old(slots[..])[i := old(slots[i]).(state := Activated)]
      ensures s != Good ==> log == old(log) && slots[..] == old(slots[..])
    {
      hide SlotFrom, OpenFrom;
      var i := FindByToken(token);
      if i == slots.Length {
        return BadSessionIdInvalid;
      }
      assert Tokens(slots[..])[i] == Some(token) && Ids(slots[..])[i] == Some(slots[i].id);
      if checks != Good {
        return checks;
      }
      if identity != 321 && identity != 324 && identity != 327 {
        return BadIdentityTokenInvalid;
      }
      Change(i, slots[i].(state := Activated), SlotActivated(i));
      s := Good;
    }

    /** CloseSession, for the slot the gate let through. */
    method CloseSession(i: nat, token: u32) returns (s: Status)
      requires Valid() && i < slots.Length
      modifies this`log, slots
      ensures Valid()
      ensures s == Good <==> old(slots[i].state) != Closed && old(slots[i].token) == token
      ensures s == Good ==> log == old(log) + [SlotClosed(i)] && slots[..] == old(slots[..])[i := CLOSED]
      ensures s != Good ==> log == old(log) && slots[..] == old(slots[..])
    {
      if slots[i].state == Closed || slots[i].token != token {
        return BadSessionIdInvalid;
      }
      Change(i, CLOSED, SlotClosed(i));
      s := Good;
    }

    /**
     mu_service_dispatch up to the handler. A handler that needs a session runs
     only on an open channel, for the one slot with the request's token, which
     was created and activated and neither closed nor replaced since.
     */
    method Gate(service: Service, decoded: Status, token: u32) returns (s: Status, active: Option<nat>)
      requires Valid()
      ensures s == Good <==>
        && service != Unknown
        && (service != OpenSecureChannel ==> channelOpen)
        && (service == WithSession ==>
              decoded == Good && exists i :: 0 <= i < slots.Length && slots[i].state == Activated && slots[i].token == token)
      ensures s == Good && service != OpenSecureChannel ==> OpenedSince(log)
      ensures s == Good && service == WithSession ==>
        && active.Some? && active.value < slots.Length && token != 0
        && (forall j :: 0 <= j < slots.Length ==> (slots[j].state != Closed && slots[j].token == token <==> j == active.value))
        && ActivatedSince(log, active.value, token)
    {
      hide SlotFrom, OpenFrom, ActivatedSince, OpenedSince;
      active := None;
      if service == Unknown {
        return BadServiceUnsupported, active;
      }
      if service != OpenSecureChannel {
        if !channelOpen {
          return BadSecureChannelIdInvalid, active;
        }
        OpenWasOpened(log);
      }
      if service == WithSession {
        if decoded != Good {
          return decoded, active;
        }
        if token == 0 {
          ZeroIsNoToken(slots[..]);
          return BadSessionIdInvalid, active;
        }
        var i := FindByToken(token);
        if i == slots.Length {
          NoToken(slots[..], token);
          return BadSessionIdInvalid, active;
        }
        OnlyHolder(slots[..], i, token);
        if slots[i].state != Activated {
          return BadSessionNotActivated, active;
        }
        ActivatedWasActivated(log, i);
        active := Some(i);
      }
      s := Good;
    }
  }

  lemma SlotStep(log: seq<Event>, e: Event, i: nat)
    ensures SlotFrom(log + [e], i) == After(SlotFrom(log, i), e, i)
  {
    assert (log + [e])[..|log|] == log;
  }

  lemma OpenUnmoved(log: seq<Event>, e: Event)
    requires e.SlotCreated? || e.SlotActivated? || e.SlotClosed?
    ensures OpenFrom(log + [e]) == OpenFrom(log)
  {
    assert (log + [e])[..|log|] == log;
  }

  lemma StillDistinct(held: Held, i: nat, v: Option<u32>)
    requires Distinct(held) && i < |held| && v != Some(0) && (v.Some? && v != held[i] ==> v !in held)
    ensures Distinct(held[i := v])
  {
  }

  lemma ZeroIsNoToken(slots: seq<Session>)
    requires Distinct(Tokens(slots))
    ensures forall i :: 0 <= i < |slots| ==> slots[i].state == Closed || slots[i].token != 0
  {
    forall i | 0 <= i < |slots| ensures slots[i].state == Closed || slots[i].token != 0 {
      assert Tokens(slots)[i] != Some(0);
    }
  }

  lemma NoToken(slots: seq<Session>, token: u32)
    requires Some(token) !in Tokens(slots)
    ensures forall i :: 0 <= i < |slots| ==> slots[i].state == Closed || slots[i].token != token
  {
    forall i | 0 <= i < |slots| ensures slots[i].state == Closed || slots[i].token != token {
      assert Tokens(slots)[i] != Some(token);
    }
  }

  lemma OnlyHolder(slots: seq<Session>, i: nat, token: u32)
    requires Distinct(Tokens(slots)) && i < |slots| && slots[i].state != Closed && slots[i].token == token
    ensures forall j :: 0 <= j < |slots| && slots[j].state != Closed && slots[j].token == token ==> j == i
  {
    var held := Tokens(slots);
    forall j | 0 <= j < |slots| && slots[j].state != Closed && slots[j].token == token ensures j == i {
      assert held[i] == Some(token) && held[j] == Some(token);
    }
  }
}
