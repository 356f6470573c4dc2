/**
 A Subscription as a value: its parameters, its counters, the message retained
 for Republish, and the history of the data messages it sent.
 */
module SubStates {
  import opened Types
  import opened Timers
  import opened Selection
  import opened Responses

  const MAX_NUMBER: nat := 0xFFFF_FFFF
  const RETRANSMIT_BYTES: nat := 256

  /** A NotificationMessage under its number. */
  datatype Sent = Sent(number: u32, message: seq<byte>)

  /** A data message that went out: what it was about, and its bytes. */
  datatype Posted = Posted(number: u32, time: i64, notices: seq<Notice>, message: seq<byte>)

  /** The k-th data message carries 1, 2, 3, … and 1 again after the last 32-bit number. */
  function NumberAt(k: nat): (r: u32)
    ensures 1 <= r
  {
    k % MAX_NUMBER + 1
  }

  /** advance_sequence_number. */
  function NumberAfter(n: u32): (r: u32) {
    if (n + 1) % TWO32 == 0 then 1 else (n + 1) % TWO32
  }

  lemma NextNumber(k: nat)
    ensures NumberAt(k + 1) == NumberAfter(NumberAt(k)) == if NumberAt(k) == MAX_NUMBER then 1 else NumberAt(k) + 1
  {
  }

  /** The k-th message has the k-th number, and its bytes say what it is about. */
  predicate Genuine(sent: seq<Posted>, k: nat)
    requires k < |sent|
  {
    var p := sent[k];
    p.number == NumberAt(k) && Sendable(p.notices) && p.message == Message(p.number, p.time, p.notices)
  }

  ghost predicate Numbered(sent: seq<Posted>) {
    forall k :: 0 <= k < |sent| ==> Genuine(sent, k)
  }

  /** revise_subscription_counts: lifetime and keep-alive count. */
  function Revised(lifetimeAsked: u32, keepAliveAsked: u32): (r: (u32, u32))
    ensures 1 <= r.1 && 3 * r.1 <= r.0
    ensures r.1 == keepAliveAsked <==> 1 <= keepAliveAsked <= MAX_NUMBER / 3
    ensures r.0 == lifetimeAsked <==> 3 * r.1 <= lifetimeAsked
  {
    var k := if keepAliveAsked == 0 then 1 else if keepAliveAsked > MAX_NUMBER / 3 then MAX_NUMBER / 3 else keepAliveAsked;
    (if lifetimeAsked < 3 * k then 3 * k else lifetimeAsked, k)
  }

  datatype SubState = SubState(
    inUse: bool, id: u32, session: u32, interval: u32, maxKeepAlive: u32, lifetime: u32, maxNotifications: u32,
    enabled: bool, number: u32, keepAlive: u32, nextPublish: u64, more: bool, resend: bool,
    retained: Option<Sent>, sent: seq<Posted>)
  {
    ghost predicate Valid() {
      && Numbered(sent)
      && (inUse ==> number == NumberAt(|sent|) && 1 <= maxKeepAlive && 3 * maxKeepAlive <= lifetime)
      && (retained.Some? ==> |sent| > 0 && retained.value == Latest() && |retained.value.message| <= RETRANSMIT_BYTES)
    }

    /** The message sent last. */
    function Latest(): (r: Sent)
      requires |sent| > 0
    {
      Sent(sent[|sent| - 1].number, sent[|sent| - 1].message)
    }

    /** mu_subscription_apply_parameters. */
    function Modified(interval: u32, lifetimeAsked: u32, keepAliveAsked: u32, maxNotifications: u32): (r: SubState) {
      var counts := Revised(lifetimeAsked, keepAliveAsked);
      this.(interval := interval, lifetime := counts.0, maxKeepAlive := counts.1, maxNotifications := maxNotifications)
    }

    /** A data message went out: it is numbered, recorded, and retained if short enough. */
    function Posting(time: i64, notices: seq<Notice>): (r: SubState)
      requires Sendable(notices)
    {
      var message := Message(number, time, notices);
      this.(keepAlive := 0, number := NumberAfter(number), sent := sent + [Posted(number, time, notices, message)],
            retained := if |message| <= RETRANSMIT_BYTES then Some(Sent(number, message)) else None)
    }

    /** The number is that of the retained message. */
    predicate Retains(number: u32) {
      retained.Some? && retained.value.number == number
    }

    /** mu_subscription_acknowledge, once the Subscription is found. */
    function Acknowledged(number: u32): (r: SubState) {
      if Retains(number) then this.(retained := None) else this
    }
  }

  /** A slot after memset. */
  const BLANK: SubState := SubState(false, 0, 0, 0, 0, 0, 0, false, 0, 0, 0, false, false, None, [])

  /** As mu_subscription_create leaves a Subscription. */
  function Started(id: u32, session: u32, interval: u32, lifetimeAsked: u32, keepAliveAsked: u32, maxNotifications: u32, enabled: bool, now: u64): (r: SubState) {
    BLANK.Modified(interval, lifetimeAsked, keepAliveAsked, maxNotifications)
      .(inUse := true, id := id, session := session, enabled := enabled, number := 1, nextPublish := (now + interval) % TWO64)
  }

  lemma StartedValid(id: u32, session: u32, interval: u32, lifetimeAsked: u32, keepAliveAsked: u32, maxNotifications: u32, enabled: bool, now: u64)
    ensures Started(id, session, interval, lifetimeAsked, keepAliveAsked, maxNotifications, enabled, now).Valid()
  {
  }

  lemma ModifiedValid(s: SubState, interval: u32, lifetimeAsked: u32, keepAliveAsked: u32, maxNotifications: u32)
    requires s.Valid()
    ensures s.Modified(interval, lifetimeAsked, keepAliveAsked, maxNotifications).Valid()
  {
    hide Numbered, NumberAt;
  }

  lemma PostingValid(s: SubState, time: i64, notices: seq<Notice>)
    requires s.Valid() && s.inUse && Sendable(notices)
    ensures s.Posting(time, notices).Valid()
  {
    hide NumberAt, NumberAfter, Sendable, Message;
    NextNumber(|s.sent|);
    var r := s.Posting(time, notices);
    forall k | 0 <= k < |r.sent| ensures Genuine(r.sent, k) {
      if k < |s.sent| { assert Genuine(s.sent, k); }
    }
  }

  lemma AcknowledgedValid(s: SubState, number: u32)
    requires s.Valid()
    ensures s.Acknowledged(number).Valid()
  {
  }
}
