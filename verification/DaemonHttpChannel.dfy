/** The sequenced queue of the HTTPS fallback relay: src/worker/daemon-http-channel.ts. */
module DaemonHttpChannel {

  const MAXIMUM_QUEUED_MESSAGES := 64
  const MAXIMUM_QUEUED_BYTES := 16777216
  const MAXIMUM_MESSAGE_BYTES := 8388608
  const MAXIMUM_ENVELOPE_BYTES := 8454144
  const RESPONSE_FIELD_BYTES := 512
  const MAX_SAFE_INTEGER := 0x1F_FFFF_FFFF_FFFF

  /** What the Worker sends to a daemon. */
  datatype Payload = ResumeCalls(ids: seq<nat>) | AuthorityRevoke(id: nat) | ReadyAck | Other(content: nat)

  datatype Message = Message(number: nat, payload: Payload, bytes: nat)

  /** The length of encoded JSON: of a payload, and of a payload wrapped with its sequence number. */
  datatype Encoding = Encoding(payload: Payload -> nat, entry: (nat, Payload) -> nat)

  datatype Channel = Channel(closed: bool, activatedAtMs: nat, verifiedReadyAtMs: nat,
                             nextWorkerSeq: nat, acknowledgedWorkerSeq: nat, acknowledgedDaemonSeq: nat,
                             queuedBytes: nat, outbound: seq<Message>)
  {
    predicate Activated() { !closed && activatedAtMs > 0 }

    predicate Ready() { !closed && verifiedReadyAtMs > 0 }
  }

  /** A channel on which nothing has happened but its activation; never activated when `activatedAtMs` is 0. */
  function Unused(activatedAtMs: nat): Channel {
    Channel(false, activatedAtMs, 0, 1, 0, 0, 0, [])
  }

  function Total(messages: seq<Message>): nat {
    if messages == [] then 0 else messages[0].bytes + Total(messages[1..])
  }

  /** Numbered one after the other, from `first` on. */
  predicate Consecutive(messages: seq<Message>, first: nat) {
    forall i :: 0 <= i < |messages| ==> messages[i].number == first + i
  }

  ghost predicate Valid(c: Channel) {
    && c.acknowledgedWorkerSeq < c.nextWorkerSeq
    && Consecutive(c.outbound, c.acknowledgedWorkerSeq + 1)
    && (if c.closed then c.outbound == [] else |c.outbound| == c.nextWorkerSeq - 1 - c.acknowledgedWorkerSeq)
    && c.queuedBytes == Total(c.outbound) <= MAXIMUM_QUEUED_BYTES
    && |c.outbound| <= MAXIMUM_QUEUED_MESSAGES
    && (forall m :: m in c.outbound ==> m.bytes <= MAXIMUM_MESSAGE_BYTES)
    && (c.verifiedReadyAtMs > 0 ==> c.activatedAtMs > 0)
  }

  // ---- what the methods do ----

  datatype Sent = Queued | Deferred | NotActivated | CapacityExceeded

  predicate Fits(c: Channel, bytes: nat) {
    && bytes <= MAXIMUM_MESSAGE_BYTES
    && |c.outbound| < MAXIMUM_QUEUED_MESSAGES
    && c.queuedBytes + bytes <= MAXIMUM_QUEUED_BYTES
  }

  function SendResult(c: Channel, bytes: nat, deferWhenFull: bool): Sent {
    if !c.Activated() then NotActivated
    else if Fits(c, bytes) then Queued
    else if deferWhenFull then Deferred
    else CapacityExceeded
  }

  function AfterSend(c: Channel, payload: Payload, bytes: nat): Channel {
    if !c.Activated() || !Fits(c, bytes) then c
    else c.(outbound := c.outbound + [Message(c.nextWorkerSeq, payload, bytes)],
            nextWorkerSeq := c.nextWorkerSeq + 1,
            queuedBytes := c.queuedBytes + bytes)
  }

  predicate Acknowledgeable(c: Channel, sequence: int) {
    0 <= sequence < c.nextWorkerSeq && sequence <= MAX_SAFE_INTEGER
  }

  /** Everything numbered up to `sequence` is taken off the front. */
  function After(messages: seq<Message>, sequence: int): seq<Message> {
    if messages != [] && messages[0].number <= sequence then After(messages[1..], sequence) else messages
  }

  function AfterAcknowledge(c: Channel, sequence: int): Channel {
    if !Acknowledgeable(c, sequence) || sequence <= c.acknowledgedWorkerSeq then c
    else
      var rest := After(c.outbound, sequence);
      c.(acknowledgedWorkerSeq := sequence, outbound := rest, queuedBytes := Total(rest))
  }

  function Closed(c: Channel): Channel {
    c.(closed := true, outbound := [], queuedBytes := 0)
  }

  datatype Acceptance = New | Duplicate | Gap

  function Accept(c: Channel, sequence: int): (r: Acceptance)
    ensures r.New? <==> sequence == c.acknowledgedDaemonSeq + 1 && sequence <= MAX_SAFE_INTEGER
    ensures r.Duplicate? <==> 0 < sequence <= c.acknowledgedDaemonSeq && sequence <= MAX_SAFE_INTEGER
  {
    if sequence > MAX_SAFE_INTEGER || sequence <= 0 then Gap
    else if sequence <= c.acknowledgedDaemonSeq then Duplicate
    else if sequence != c.acknowledgedDaemonSeq + 1 then Gap
    else New
  }

  // ---- what they keep ----

  lemma {:induction false} TotalAppend(a: seq<Message>, b: seq<Message>)
    ensures Total(a + b) == Total(a) + Total(b)
  {
    if a == [] {
      assert a + b == b;
    } else {
      TotalAppend(a[1..], b);
      assert (a + b)[1..] == a[1..] + b;
    }
  }

  /** Taking off the front of a consecutive queue takes exactly the messages numbered up to `sequence`. */
  lemma {:induction false} AfterIsSuffix(messages: seq<Message>, first: nat, sequence: int)
    requires Consecutive(messages, first) && first <= sequence + 1
    ensures After(messages, sequence)
            == if sequence + 1 - first <= |messages| then messages[sequence + 1 - first..] else []
  {
    if messages != [] && first <= sequence {
      AfterIsSuffix(messages[1..], first + 1, sequence);
    }
  }

  /** A queued message gets the next number at the end; a refused one changes nothing. */
  lemma SendKeepsValid(c: Channel, payload: Payload, bytes: nat)
    requires Valid(c)
    ensures Valid(AfterSend(c, payload, bytes))
  {
    TotalAppend(c.outbound, [Message(c.nextWorkerSeq, payload, bytes)]);
  }

  /** An acknowledgement removes exactly the messages up to it, never one beyond it. */
  lemma AcknowledgeKeepsValid(c: Channel, sequence: int)
    requires Valid(c)
    ensures Valid(AfterAcknowledge(c, sequence))
    ensures var c' := AfterAcknowledge(c, sequence);
            forall m :: m in c'.outbound <==> m in c.outbound && m.number > c'.acknowledgedWorkerSeq
    ensures !c.closed && Acknowledgeable(c, sequence) && sequence > c.acknowledgedWorkerSeq ==>
              var gone := sequence - c.acknowledgedWorkerSeq;
              gone <= |c.outbound| && AfterAcknowledge(c, sequence).outbound == c.outbound[gone..]
  {
    if Acknowledgeable(c, sequence) && sequence > c.acknowledgedWorkerSeq {
      AfterIsSuffix(c.outbound, c.acknowledgedWorkerSeq + 1, sequence);
      if !c.closed {
        var gone := sequence - c.acknowledgedWorkerSeq;
        var rest := After(c.outbound, sequence);
        assert rest == c.outbound[gone..];
        assert c.outbound == c.outbound[..gone] + rest;
        TotalAppend(c.outbound[..gone], rest);
        assert forall m :: m in rest ==> m in c.outbound;
      }
    }
  }

  // ---- batches ----

  function BatchBytes(messages: seq<Message>, encoding: Encoding): nat {
    if messages == [] then RESPONSE_FIELD_BYTES
    else BatchBytes(messages[..|messages| - 1], encoding)
         + encoding.entry(messages[|messages| - 1].number, messages[|messages| - 1].payload) + 1
  }

  /** The longest prefix that fits one response. */
  ghost predicate IsBatch(batch: seq<Message>, outbound: seq<Message>, encoding: Encoding) {
    && batch <= outbound
    && BatchBytes(batch, encoding) <= MAXIMUM_ENVELOPE_BYTES
    && (|batch| < |outbound| ==> BatchBytes(outbound[..|batch| + 1], encoding) > MAXIMUM_ENVELOPE_BYTES)
  }

  lemma {:induction false} BatchBytesGrow(messages: seq<Message>, encoding: Encoding, i: nat, j: nat)
    requires i <= j <= |messages|
    ensures BatchBytes(messages[..i], encoding) <= BatchBytes(messages[..j], encoding)
    decreases j
  {
    if i < j {
      assert messages[..j][..j - 1] == messages[..j - 1];
      BatchBytesGrow(messages, encoding, i, j - 1);
    }
  }

  /** Every prefix that fits is part of the batch: no other choice from the front would send more. */
  lemma BatchIsLongest(batch: seq<Message>, outbound: seq<Message>, encoding: Encoding, other: nat)
    requires IsBatch(batch, outbound, encoding) && other <= |outbound|
    ensures BatchBytes(outbound[..other], encoding) <= MAXIMUM_ENVELOPE_BYTES <==> other <= |batch|
  {
    if other <= |batch| {
      BatchBytesGrow(outbound, encoding, other, |batch|);
      assert outbound[..|batch|] == batch;
    } else {
      BatchBytesGrow(outbound, encoding, |batch| + 1, other);
    }
  }

  // ---- the class ----

  class HttpChannel {
    var closed: bool
    var activatedAtMs: nat
    var verifiedReadyAtMs: nat
    var nextWorkerSeq: nat
    var acknowledgedWorkerSeq: nat
    var acknowledgedDaemonSeq: nat
    var queuedBytes: nat
    var outbound: seq<Message>

    ghost function State(): Channel
      reads this
    {
      Channel(closed, activatedAtMs, verifiedReadyAtMs, nextWorkerSeq, acknowledgedWorkerSeq, acknowledgedDaemonSeq,
              queuedBytes, outbound)
    }

    constructor ()
      ensures State() == Unused(0) && Valid(State())
    {
      closed, activatedAtMs, verifiedReadyAtMs := false, 0, 0;
      nextWorkerSeq, acknowledgedWorkerSeq, acknowledgedDaemonSeq := 1, 0, 0;
      queuedBytes, outbound := 0, [];
    }

    predicate IsActivated()
      reads this
    {
      !closed && activatedAtMs > 0
    }

    predicate IsReady()
      reads this
    {
      !closed && verifiedReadyAtMs > 0
    }

    /** False when the channel is closed, where the source throws. */
    method Activate(now: nat) returns (ok: bool)
      requires Valid(State()) && now > 0
      modifies this`activatedAtMs
      ensures ok == !closed && Valid(State())
      ensures State() == if ok then old(State()).(activatedAtMs := now) else old(State())
    {
      if closed {
        return false;
      }
      activatedAtMs := now;
      return true;
    }

    /** False when the channel was not activated, where the source throws. */
    method VerifyReady(now: nat) returns (ok: bool)
      requires Valid(State())
      modifies this`verifiedReadyAtMs
      ensures ok == old(State()).Activated() && Valid(State())
      ensures State() == if ok then old(State()).(verifiedReadyAtMs := now) else old(State())
    {
      if !IsActivated() {
        return false;
      }
      verifiedReadyAtMs := now;
      return true;
    }

    method Send(payload: Payload, bytes: nat, deferWhenFull: bool) returns (r: Sent)
      requires Valid(State())
      modifies this`outbound, this`nextWorkerSeq, this`queuedBytes
      ensures Valid(State())
      ensures r == SendResult(old(State()), bytes, deferWhenFull)
      ensures State() == AfterSend(old(State()), payload, bytes)
    {
      SendKeepsValid(State(), payload, bytes);
      if !IsActivated() {
        return NotActivated;
      }
      if bytes > MAXIMUM_MESSAGE_BYTES || |outbound| >= MAXIMUM_QUEUED_MESSAGES || queuedBytes + bytes > MAXIMUM_QUEUED_BYTES {
        if deferWhenFull {
          return Deferred;
        }
        return CapacityExceeded;
      }
      outbound := outbound + [Message(nextWorkerSeq, payload, bytes)];
      nextWorkerSeq := nextWorkerSeq + 1;
      queuedBytes := queuedBytes + bytes;
      return Queued;
    }

    predicate HasQueuedRevocation(id: nat)
      reads this
    {
      exists i :: 0 <= i < |outbound| && outbound[i].payload == AuthorityRevoke(id)
    }

    method AcknowledgeWorker(sequence: int) returns (ok: bool)
      requires Valid(State())
      modifies this`outbound, this`queuedBytes, this`acknowledgedWorkerSeq
      ensures Valid(State())
      ensures ok == Acknowledgeable(old(State()), sequence)
      ensures State() == AfterAcknowledge(old(State()), sequence)
    {
      AcknowledgeKeepsValid(State(), sequence);
      if sequence > MAX_SAFE_INTEGER || sequence < 0 || sequence >= nextWorkerSeq {
        return false;
      }
      if sequence <= acknowledgedWorkerSeq {
        return true;
      }
      ghost var before := State();
      acknowledgedWorkerSeq := sequence;
      while outbound != [] && outbound[0].number <= sequence
        invariant After(outbound, sequence) == After(before.outbound, sequence)
        invariant queuedBytes == Total(outbound) && acknowledgedWorkerSeq == sequence
        decreases |outbound|
      {
        queuedBytes := queuedBytes - outbound[0].bytes;
        outbound := outbound[1..];
      }
      assert State() == AfterAcknowledge(before, sequence);
      return true;
    }

    method OutboundMessages(encoding: Encoding) returns (selected: seq<Message>)
      ensures IsBatch(selected, outbound, encoding)
    {
      selected := [];
      var bytes := RESPONSE_FIELD_BYTES;
      for i := 0 to |outbound|
        invariant selected == outbound[..i]
        invariant bytes == BatchBytes(selected, encoding) <= MAXIMUM_ENVELOPE_BYTES
      {
        var encodedBytes := encoding.entry(outbound[i].number, outbound[i].payload) + 1;
        assert outbound[..i + 1][..i] == outbound[..i];
        if bytes + encodedBytes > MAXIMUM_ENVELOPE_BYTES {
          break;
        }
        selected := selected + [outbound[i]];
        bytes := bytes + encodedBytes;
      }
    }

    method AcceptDaemonSequence(sequence: int) returns (r: Acceptance)
      ensures r == Accept(State(), sequence)
    {
      if sequence > MAX_SAFE_INTEGER || sequence <= 0 {
        return Gap;
      }
      if sequence <= acknowledgedDaemonSeq {
        return Duplicate;
      }
      if sequence != acknowledgedDaemonSeq + 1 {
        return Gap;
      }
      return New;
    }

    /** False when the commit is not contiguous, where the source throws. */
    method CommitDaemonSequence(sequence: int) returns (ok: bool)
      requires Valid(State())
      modifies this`acknowledgedDaemonSeq
      ensures ok == (sequence == old(acknowledgedDaemonSeq) + 1) && Valid(State())
      ensures State() == if ok then old(State()).(acknowledgedDaemonSeq := sequence) else old(State())
    {
      if sequence != acknowledgedDaemonSeq + 1 {
        return false;
      }
      acknowledgedDaemonSeq := sequence;
      return true;
    }

    method Close()
      requires Valid(State())
      modifies this`closed, this`outbound, this`queuedBytes
      ensures State() == Closed(old(State())) && Valid(State())
    {
      closed, outbound, queuedBytes := true, [], 0;
    }
  }
}
