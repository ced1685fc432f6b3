/**
 * One HTTPS fallback session over any sequence of exchanges, lost, repeated or stale: the relay handler of
 * src/worker/daemon-http-controller.ts on top of the channel.
 */
module DaemonHttpExchange {
  import opened DaemonHttpChannel

  type Time = t: nat | t > 0 witness 1

  /** What the daemon sends; only the announcement of readiness is read by the relay handler itself. */
  datatype DaemonPayload = HttpsReady | Body(content: nat)

  /** How handleReadyDaemonMessage treats one message: its result, and what it tries to send meanwhile. */
  datatype Outcome = Handled | Rejected | Threw
  datatype Handling = Handling(outcome: Outcome, replies: seq<Payload>)

  datatype Inbound = Inbound(number: int, payload: DaemonPayload, handling: Handling)

  /** An authenticated request for this session, with the queued revocations found in storage while serving it. */
  datatype Exchange = Exchange(tokenMatches: bool, ackWorkerSeq: int, messages: seq<Inbound>, revocations: seq<nat>, now: Time)

  /**
   * The channel, its handshake, and two logs that the Worker does not keep: every message that was ever queued and
   * every daemon message whose handling was completed.
   */
  datatype Session = Session(channel: Channel, ids: seq<nat>, offered: bool, sent: seq<Message>, handled: seq<DaemonPayload>)

  // ---- sending ----

  function Queue(s: Session, payload: Payload, encoding: Encoding): Session {
    var bytes := encoding.payload(payload);
    if SendResult(s.channel, bytes, true) == Queued
    then s.(channel := AfterSend(s.channel, payload, bytes), sent := s.sent + [Message(s.channel.nextWorkerSeq, payload, bytes)])
    else s
  }

  predicate Accepts(s: Session, payload: Payload, encoding: Encoding) {
    SendResult(s.channel, encoding.payload(payload), true) == Queued
  }

  function QueueAll(s: Session, payloads: seq<Payload>, encoding: Encoding): Session
    decreases |payloads|
  {
    if payloads == [] then s else QueueAll(Queue(s, payloads[0], encoding), payloads[1..], encoding)
  }

  predicate HasQueuedRevocation(c: Channel, id: nat) {
    exists i :: 0 <= i < |c.outbound| && c.outbound[i].payload == AuthorityRevoke(id)
  }

  /** queueDaemonHttpRevocations: what is queued already is skipped, and the first one that does not fit ends the loop. */
  function QueueRevocations(s: Session, ids: seq<nat>, encoding: Encoding): Session
    decreases |ids|
  {
    if ids == [] then s
    else if HasQueuedRevocation(s.channel, ids[0]) then QueueRevocations(s, ids[1..], encoding)
    else if Accepts(s, AuthorityRevoke(ids[0]), encoding)
    then QueueRevocations(Queue(s, AuthorityRevoke(ids[0]), encoding), ids[1..], encoding)
    else s
  }

  // ---- the handshake ----

  datatype Progress = Progress(session: Session, completed: bool)

  predicate OffersNow(s: Session, revocations: seq<nat>) {
    !s.offered && |s.channel.outbound| == 0 && |revocations| <= MAXIMUM_QUEUED_MESSAGES - 2
  }

  /** advanceHandshake; not completed where a send throws. */
  function Advance(s: Session, revocations: seq<nat>, encoding: Encoding): Progress {
    if OffersNow(s, revocations) then
      if !Accepts(s, ResumeCalls(s.ids), encoding) then Progress(s, false)
      else
        var queued := QueueRevocations(Queue(s, ResumeCalls(s.ids), encoding), revocations, encoding);
        if !Accepts(queued, ReadyAck, encoding) then Progress(queued, false)
        else Progress(Queue(queued, ReadyAck, encoding).(offered := true), true)
    else Progress(QueueRevocations(s, revocations, encoding), true)
  }

  /** A first exchange without a session opens one and activates it at once. */
  function Open(ids: seq<nat>, revocations: seq<nat>, now: Time, encoding: Encoding): Progress {
    Advance(Session(Unused(now), ids, false, [], []), revocations, encoding)
  }

  // ---- consuming the daemon's messages ----

  datatype Verdict = Continue | Invalid | Failed

  datatype Consumption = Consumption(session: Session, verdict: Verdict)

  function Commit(s: Session, payload: DaemonPayload): Session {
    s.(channel := s.channel.(acknowledgedDaemonSeq := s.channel.acknowledgedDaemonSeq + 1), handled := s.handled + [payload])
  }

  /** One message; `probing` says that the channel was not ready when the exchange arrived. */
  function ConsumeOne(s: Session, m: Inbound, probing: bool, now: Time, encoding: Encoding): Consumption {
    match Accept(s.channel, m.number)
    case Duplicate => Consumption(s, Continue)
    case Gap => Consumption(s, Invalid)
    case New =>
      if m.payload.HttpsReady? then
        if !probing || !s.offered || |s.channel.outbound| > 0 || !s.channel.Activated() then Consumption(s, Invalid)
        else Consumption(Commit(s.(channel := s.channel.(verifiedReadyAtMs := now)), HttpsReady), Continue)
      else
        var replied := QueueAll(s, m.handling.replies, encoding);
        match m.handling.outcome
        case Handled => Consumption(Commit(replied, m.payload), Continue)
        case Rejected => Consumption(replied, Invalid)
        case Threw => Consumption(replied, Failed)
  }

  function Consume(s: Session, messages: seq<Inbound>, probing: bool, now: Time, encoding: Encoding): Consumption {
    if messages == [] then Consumption(s, Continue)
    else
      var before := Consume(s, messages[..|messages| - 1], probing, now, encoding);
      if before.verdict != Continue then before
      else ConsumeOne(before.session, messages[|messages| - 1], probing, now, encoding)
  }

  /** Once a message is refused, the messages after it do not matter. */
  lemma {:induction false} StopsThere(s: Session, messages: seq<Inbound>, i: nat, probing: bool, now: Time, encoding: Encoding)
    requires i <= |messages| && Consume(s, messages[..i], probing, now, encoding).verdict != Continue
    ensures Consume(s, messages, probing, now, encoding) == Consume(s, messages[..i], probing, now, encoding)
    decreases |messages|
  {
    if i == |messages| {
      assert messages[..i] == messages;
    } else {
      assert messages[..|messages| - 1][..i] == messages[..i];
      StopsThere(s, messages[..|messages| - 1], i, probing, now, encoding);
    }
  }

  // ---- one exchange ----

  datatype Phase = Probing | Ready

  datatype Response = Relayed(phase: Phase, ackDaemonSeq: nat) | Refused | Invalidated | InternalError | UnknownSession

  datatype Served = Served(session: Session, response: Response)

  predicate Authorized(s: Session, x: Exchange) {
    !s.channel.closed && x.tokenMatches && Acknowledgeable(s.channel, x.ackWorkerSeq)
  }

  function Acknowledged(s: Session, x: Exchange): Session {
    s.(channel := AfterAcknowledge(s.channel, x.ackWorkerSeq))
  }

  /** The end of an exchange: invalidation, or the handshake and the response. */
  function Finish(consumed: Consumption, revocations: seq<nat>, encoding: Encoding): Served {
    match consumed.verdict
    case Invalid => Served(consumed.session.(channel := Closed(consumed.session.channel)), Invalidated)
    case Failed => Served(consumed.session, InternalError)
    case Continue =>
      var advanced := Advance(consumed.session, revocations, encoding);
      var c := advanced.session.channel;
      if !advanced.completed then Served(advanced.session, InternalError)
      else Served(advanced.session, Relayed(if c.Ready() then Ready else Probing, c.acknowledgedDaemonSeq))
  }

  function Serve(s: Session, x: Exchange, encoding: Encoding): Served {
    if s.channel.closed then Served(s, UnknownSession)
    else if !Authorized(s, x) then Served(s, Refused)
    else
      Finish(Consume(Acknowledged(s, x), x.messages, !s.channel.Ready(), x.now, encoding), x.revocations, encoding)
  }

  // ---- runs ----

  /** Between exchanges tool calls are sent, and the session may be closed for reasons outside it. */
  datatype Action = Exchanged(exchange: Exchange) | ToolCall(payload: Payload) | Detached

  function Step(s: Session, a: Action, encoding: Encoding): Session {
    match a
    case Exchanged(x) => Serve(s, x, encoding).session
    case ToolCall(payload) => Queue(s, payload, encoding)
    case Detached => s.(channel := Closed(s.channel))
  }

  function Run(s: Session, actions: seq<Action>, encoding: Encoding): Session {
    if actions == [] then s else Step(Run(s, actions[..|actions| - 1], encoding), actions[|actions| - 1], encoding)
  }

  function RunFromOpen(ids: seq<nat>, revocations: seq<nat>, now: Time, actions: seq<Action>, encoding: Encoding): Session {
    Run(Open(ids, revocations, now, encoding).session, actions, encoding)
  }

  // ---- the invariant ----

  /** A resume_calls at `i` and the ready_ack at `j` that ends the same offer, with nothing but revocations between. */
  ghost predicate OfferAt(sent: seq<Message>, ids: seq<nat>, i: nat, j: nat) {
    && i < j < |sent|
    && sent[i].payload == ResumeCalls(ids) && sent[j].payload == ReadyAck
    && forall k :: i < k < j ==> sent[k].payload.AuthorityRevoke?
  }

  ghost predicate OfferAmong(sent: seq<Message>, ids: seq<nat>, n: nat) {
    exists i: nat, j: nat :: j < n && OfferAt(sent, ids, i, j)
  }

  ghost predicate QueueOk(s: Session) {
    && Valid(s.channel)
    && |s.sent| == s.channel.nextWorkerSeq - 1
    && Consecutive(s.sent, 1)
    && (!s.channel.closed ==> s.channel.Activated() && s.channel.outbound == s.sent[s.channel.acknowledgedWorkerSeq..])
  }

  ghost predicate SizesOk(s: Session, encoding: Encoding) {
    forall i :: 0 <= i < |s.sent| ==> s.sent[i].bytes == encoding.payload(s.sent[i].payload)
  }

  ghost predicate HandshakeOk(s: Session) {
    && |s.handled| == s.channel.acknowledgedDaemonSeq
    && (s.offered ==> OfferAmong(s.sent, s.ids, |s.sent|))
    && (s.channel.verifiedReadyAtMs > 0 <==> HttpsReady in s.handled)
    && (s.channel.verifiedReadyAtMs > 0 ==> s.offered && OfferAmong(s.sent, s.ids, s.channel.acknowledgedWorkerSeq))
  }

  ghost predicate Inv(s: Session, encoding: Encoding) {
    QueueOk(s) && SizesOk(s, encoding) && HandshakeOk(s)
  }

  // ---- sending keeps it ----

  /** `t` is `s` after some more messages were queued, and nothing else. */
  ghost predicate OnlyQueued(s: Session, t: Session) {
    && s.sent <= t.sent
    && t.ids == s.ids && t.offered == s.offered && t.handled == s.handled
    && t.channel.closed == s.channel.closed
    && t.channel.activatedAtMs == s.channel.activatedAtMs
    && t.channel.verifiedReadyAtMs == s.channel.verifiedReadyAtMs
    && t.channel.acknowledgedWorkerSeq == s.channel.acknowledgedWorkerSeq
    && t.channel.acknowledgedDaemonSeq == s.channel.acknowledgedDaemonSeq
  }

  lemma OfferStays(sent: seq<Message>, more: seq<Message>, ids: seq<nat>, n: nat, m: nat)
    requires sent <= more && n <= m && OfferAmong(sent, ids, n)
    ensures OfferAmong(more, ids, m)
  {
    var i: nat, j: nat :| j < n && OfferAt(sent, ids, i, j);
    assert OfferAt(more, ids, i, j);
  }

  lemma QueueKeepsInv(s: Session, payload: Payload, encoding: Encoding)
    requires Inv(s, encoding)
    ensures Inv(Queue(s, payload, encoding), encoding) && OnlyQueued(s, Queue(s, payload, encoding))
  {
    hide OfferAmong;
    var t := Queue(s, payload, encoding);
    SendKeepsValid(s.channel, payload, encoding.payload(payload));
    if s.offered {
      OfferStays(s.sent, t.sent, s.ids, |s.sent|, |t.sent|);
    }
    if s.channel.verifiedReadyAtMs > 0 {
      OfferStays(s.sent, t.sent, s.ids, s.channel.acknowledgedWorkerSeq, s.channel.acknowledgedWorkerSeq);
    }
  }

  lemma {:induction false} QueueAllKeepsInv(s: Session, payloads: seq<Payload>, encoding: Encoding)
    requires Inv(s, encoding)
    ensures Inv(QueueAll(s, payloads, encoding), encoding) && OnlyQueued(s, QueueAll(s, payloads, encoding))
    decreases |payloads|
  {
    if payloads != [] {
      QueueKeepsInv(s, payloads[0], encoding);
      QueueAllKeepsInv(Queue(s, payloads[0], encoding), payloads[1..], encoding);
    }
  }

  /** `t` is `s` after some revocations were queued, and nothing else. */
  ghost predicate OnlyRevocations(s: Session, t: Session) {
    OnlyQueued(s, t) && forall k :: |s.sent| <= k < |t.sent| ==> t.sent[k].payload.AuthorityRevoke?
  }

  lemma OnlyRevocationsTwice(s: Session, t: Session, u: Session)
    requires OnlyRevocations(s, t) && OnlyRevocations(t, u)
    ensures OnlyRevocations(s, u)
  {
  }

  lemma QueueRevocationKeepsInv(s: Session, id: nat, encoding: Encoding)
    requires Inv(s, encoding)
    ensures var t := Queue(s, AuthorityRevoke(id), encoding);
            Inv(t, encoding) && OnlyRevocations(s, t)
  {
    hide Inv;
    QueueKeepsInv(s, AuthorityRevoke(id), encoding);
  }

  lemma {:induction false} QueueRevocationsKeepsInv(s: Session, ids: seq<nat>, encoding: Encoding)
    requires Inv(s, encoding)
    ensures var t := QueueRevocations(s, ids, encoding);
            Inv(t, encoding) && OnlyRevocations(s, t)
    decreases |ids|
  {
    if ids != [] {
      if HasQueuedRevocation(s.channel, ids[0]) {
        QueueRevocationsKeepsInv(s, ids[1..], encoding);
      } else if Accepts(s, AuthorityRevoke(ids[0]), encoding) {
        hide Inv, OnlyRevocations, Queue, Accepts, HasQueuedRevocation;
        var t := Queue(s, AuthorityRevoke(ids[0]), encoding);
        QueueRevocationKeepsInv(s, ids[0], encoding);
        QueueRevocationsKeepsInv(t, ids[1..], encoding);
        OnlyRevocationsTwice(s, t, QueueRevocations(t, ids[1..], encoding));
      }
    }
  }

  lemma NowOffered(s: Session, encoding: Encoding)
    requires Inv(s, encoding) && OfferAmong(s.sent, s.ids, |s.sent|)
    ensures Inv(s.(offered := true), encoding)
  {
  }

  /** The three sends of the offer, all of them queued. */
  lemma OfferIsComplete(s: Session, first: Session, queued: Session, encoding: Encoding)
    requires Inv(s, encoding) && Accepts(s, ResumeCalls(s.ids), encoding) && first == Queue(s, ResumeCalls(s.ids), encoding)
    requires OnlyRevocations(first, queued) && Accepts(queued, ReadyAck, encoding)
    ensures var last := Queue(queued, ReadyAck, encoding);
            OnlyQueued(s, last) && OfferAmong(last.sent, s.ids, |last.sent|)
  {
    hide Inv;
    QueueKeepsInv(s, ResumeCalls(s.ids), encoding);
    var last := Queue(queued, ReadyAck, encoding);
    assert OfferAt(last.sent, s.ids, |s.sent|, |last.sent| - 1);
  }

  lemma AdvanceKeepsInv(s: Session, revocations: seq<nat>, encoding: Encoding)
    requires Inv(s, encoding)
    ensures var t := Advance(s, revocations, encoding).session;
            Inv(t, encoding) && OnlyQueued(s, t.(offered := s.offered)) && (s.offered ==> t.offered)
  {
    hide Inv, Queue, Accepts, QueueRevocations, OfferAmong;
    if OffersNow(s, revocations) {
      if Accepts(s, ResumeCalls(s.ids), encoding) {
        var first := Queue(s, ResumeCalls(s.ids), encoding);
        QueueKeepsInv(s, ResumeCalls(s.ids), encoding);
        var queued := QueueRevocations(first, revocations, encoding);
        QueueRevocationsKeepsInv(first, revocations, encoding);
        if Accepts(queued, ReadyAck, encoding) {
          QueueKeepsInv(queued, ReadyAck, encoding);
          OfferIsComplete(s, first, queued, encoding);
          NowOffered(Queue(queued, ReadyAck, encoding), encoding);
        }
      }
    } else {
      QueueRevocationsKeepsInv(s, revocations, encoding);
    }
  }

  // ---- consuming keeps it ----

  lemma CommitKeepsInv(s: Session, payload: DaemonPayload, encoding: Encoding)
    requires Inv(s, encoding) && payload.Body?
    ensures Inv(Commit(s, payload), encoding)
  {
    assert HttpsReady in s.handled + [payload] <==> HttpsReady in s.handled;
  }

  lemma BecomingReadyKeepsInv(s: Session, now: Time, encoding: Encoding)
    requires Inv(s, encoding) && s.offered && s.channel.outbound == [] && s.channel.Activated()
    ensures Inv(Commit(s.(channel := s.channel.(verifiedReadyAtMs := now)), HttpsReady), encoding)
  {
    assert s.channel.acknowledgedWorkerSeq == |s.sent|;
    assert (s.handled + [HttpsReady])[|s.handled|] == HttpsReady;
  }

  /** What consuming messages may do to a session besides its logs. */
  ghost predicate OnlyConsumed(s: Session, t: Session) {
    && s.sent <= t.sent && s.handled <= t.handled && t.offered == s.offered && t.ids == s.ids
    && t.channel.acknowledgedWorkerSeq == s.channel.acknowledgedWorkerSeq && t.channel.closed == s.channel.closed
  }

  lemma ConsumeOneKeepsInv(s: Session, m: Inbound, probing: bool, now: Time, encoding: Encoding)
    requires Inv(s, encoding)
    ensures var t := ConsumeOne(s, m, probing, now, encoding).session;
            Inv(t, encoding) && OnlyConsumed(s, t)
  {
    hide QueueAll, QueueOk, SizesOk, HandshakeOk;
    if Accept(s.channel, m.number) == New {
      if m.payload.HttpsReady? {
        if probing && s.offered && |s.channel.outbound| == 0 && s.channel.Activated() {
          BecomingReadyKeepsInv(s, now, encoding);
        }
      } else {
        QueueAllKeepsInv(s, m.handling.replies, encoding);
        CommitKeepsInv(QueueAll(s, m.handling.replies, encoding), m.payload, encoding);
      }
    }
  }

  lemma {:induction false} ConsumeKeepsInv(s: Session, messages: seq<Inbound>, probing: bool, now: Time, encoding: Encoding)
    requires Inv(s, encoding)
    ensures var t := Consume(s, messages, probing, now, encoding).session;
            Inv(t, encoding) && OnlyConsumed(s, t)
  {
    if messages != [] {
      var before := Consume(s, messages[..|messages| - 1], probing, now, encoding);
      ConsumeKeepsInv(s, messages[..|messages| - 1], probing, now, encoding);
      ConsumeOneKeepsInv(before.session, messages[|messages| - 1], probing, now, encoding);
    }
  }

  lemma AcknowledgedKeepsInv(s: Session, x: Exchange, encoding: Encoding)
    requires Inv(s, encoding) && Authorized(s, x)
    ensures Inv(Acknowledged(s, x), encoding)
    ensures Acknowledged(s, x).channel.acknowledgedWorkerSeq
            == if x.ackWorkerSeq > s.channel.acknowledgedWorkerSeq then x.ackWorkerSeq else s.channel.acknowledgedWorkerSeq
  {
    AcknowledgeKeepsValid(s.channel, x.ackWorkerSeq);
    var t := Acknowledged(s, x);
    if x.ackWorkerSeq > s.channel.acknowledgedWorkerSeq {
      var a := s.channel.acknowledgedWorkerSeq;
      assert s.sent[a..][x.ackWorkerSeq - a..] == s.sent[x.ackWorkerSeq..];
    }
    if s.channel.verifiedReadyAtMs > 0 {
      OfferStays(s.sent, t.sent, s.ids, s.channel.acknowledgedWorkerSeq, t.channel.acknowledgedWorkerSeq);
    }
  }

  lemma CloseKeepsInv(s: Session, encoding: Encoding)
    requires Inv(s, encoding)
    ensures Inv(s.(channel := Closed(s.channel)), encoding)
  {
  }

  lemma FinishKeepsInv(consumed: Consumption, revocations: seq<nat>, encoding: Encoding)
    requires Inv(consumed.session, encoding)
    ensures var s, t := consumed.session, Finish(consumed, revocations, encoding).session;
            && Inv(t, encoding)
            && s.sent <= t.sent && t.handled == s.handled
            && t.channel.acknowledgedWorkerSeq == s.channel.acknowledgedWorkerSeq
            && t.channel.verifiedReadyAtMs == s.channel.verifiedReadyAtMs
  {
    CloseKeepsInv(consumed.session, encoding);
    AdvanceKeepsInv(consumed.session, revocations, encoding);
  }

  lemma ServeKeepsInv(s: Session, x: Exchange, encoding: Encoding)
    requires Inv(s, encoding)
    ensures Inv(Serve(s, x, encoding).session, encoding)
  {
    if Authorized(s, x) {
      AcknowledgedKeepsInv(s, x, encoding);
      ConsumeKeepsInv(Acknowledged(s, x), x.messages, !s.channel.Ready(), x.now, encoding);
      FinishKeepsInv(Consume(Acknowledged(s, x), x.messages, !s.channel.Ready(), x.now, encoding), x.revocations, encoding);
    }
  }

  lemma StepKeepsInv(s: Session, a: Action, encoding: Encoding)
    requires Inv(s, encoding)
    ensures Inv(Step(s, a, encoding), encoding)
  {
    match a
    case Exchanged(x) => ServeKeepsInv(s, x, encoding);
    case ToolCall(payload) => QueueKeepsInv(s, payload, encoding);
    case Detached => CloseKeepsInv(s, encoding);
  }

  lemma OpenHasInv(ids: seq<nat>, revocations: seq<nat>, now: Time, encoding: Encoding)
    ensures Inv(Open(ids, revocations, now, encoding).session, encoding)
  {
    UnusedHasInv(ids, now, encoding);
    hide Inv, Advance;
    AdvanceKeepsInv(Session(Unused(now), ids, false, [], []), revocations, encoding);
  }

  lemma UnusedHasInv(ids: seq<nat>, now: Time, encoding: Encoding)
    ensures Inv(Session(Unused(now), ids, false, [], []), encoding)
  {
  }

  lemma {:induction false} RunKeepsInv(s: Session, actions: seq<Action>, encoding: Encoding)
    requires Inv(s, encoding)
    ensures Inv(Run(s, actions, encoding), encoding)
  {
    if actions != [] {
      RunKeepsInv(s, actions[..|actions| - 1], encoding);
      StepKeepsInv(Run(s, actions[..|actions| - 1], encoding), actions[|actions| - 1], encoding);
    }
  }

  lemma Reachable(ids: seq<nat>, revocations: seq<nat>, now: Time, actions: seq<Action>, encoding: Encoding)
    ensures Inv(RunFromOpen(ids, revocations, now, actions, encoding), encoding)
  {
    OpenHasInv(ids, revocations, now, encoding);
    RunKeepsInv(Open(ids, revocations, now, encoding).session, actions, encoding);
  }

  // ---- outbound: nothing is lost ----

  /**
   * In every run the messages ever queued are numbered 1, 2, 3 and so on; while the session is open the queue is
   * exactly those after the last acknowledgement, its byte count is their sum, and every cap holds.
   */
  lemma QueueIsTheUnacknowledgedRest(ids: seq<nat>, revocations: seq<nat>, now: Time, actions: seq<Action>, encoding: Encoding)
    ensures var s := RunFromOpen(ids, revocations, now, actions, encoding);
            var c := s.channel;
            && (forall i :: 0 <= i < |s.sent| ==> s.sent[i].number == i + 1)
            && |s.sent| == c.nextWorkerSeq - 1 && c.acknowledgedWorkerSeq <= |s.sent|
            && (!c.closed ==> c.outbound == s.sent[c.acknowledgedWorkerSeq..])
            && c.queuedBytes == Total(c.outbound) <= MAXIMUM_QUEUED_BYTES
            && |c.outbound| <= MAXIMUM_QUEUED_MESSAGES
            && (forall m :: m in c.outbound ==> m.bytes == encoding.payload(m.payload) <= MAXIMUM_MESSAGE_BYTES)
  {
    Reachable(ids, revocations, now, actions, encoding);
    var s := RunFromOpen(ids, revocations, now, actions, encoding);
    if !s.channel.closed {
      forall m | m in s.channel.outbound ensures m.bytes == encoding.payload(m.payload) {
        var i :| 0 <= i < |s.channel.outbound| && s.channel.outbound[i] == m;
        assert s.sent[s.channel.acknowledgedWorkerSeq + i] == m;
      }
    }
  }

  lemma ServeOnlyAppends(s: Session, x: Exchange, encoding: Encoding)
    requires Inv(s, encoding)
    ensures var t := Serve(s, x, encoding).session;
            && s.sent <= t.sent && s.handled <= t.handled
            && t.channel.acknowledgedWorkerSeq
               == if Authorized(s, x) && x.ackWorkerSeq > s.channel.acknowledgedWorkerSeq then x.ackWorkerSeq
                  else s.channel.acknowledgedWorkerSeq
  {
    if Authorized(s, x) {
      AcknowledgedKeepsInv(s, x, encoding);
      ConsumeKeepsInv(Acknowledged(s, x), x.messages, !s.channel.Ready(), x.now, encoding);
      FinishKeepsInv(Consume(Acknowledged(s, x), x.messages, !s.channel.Ready(), x.now, encoding), x.revocations, encoding);
    }
  }

  /**
   * The logs only grow, and a message leaves the queue of a session that stays open only through an exchange with the
   * right token that acknowledges it or one after it.
   */
  lemma OnlyAcknowledgedMessagesLeave(s: Session, a: Action, m: Message, encoding: Encoding)
    requires Inv(s, encoding)
    ensures s.sent <= Step(s, a, encoding).sent && s.handled <= Step(s, a, encoding).handled
    ensures m in s.channel.outbound && m !in Step(s, a, encoding).channel.outbound && !Step(s, a, encoding).channel.closed ==>
              a.Exchanged? && a.exchange.tokenMatches && m.number <= a.exchange.ackWorkerSeq < s.channel.nextWorkerSeq
  {
    hide Serve, Queue, SizesOk, HandshakeOk;
    var t := Step(s, a, encoding);
    StepKeepsInv(s, a, encoding);
    if a.Exchanged? {
      ServeOnlyAppends(s, a.exchange, encoding);
    } else if a.ToolCall? {
      QueueKeepsInv(s, a.payload, encoding);
    }
    if m in s.channel.outbound && !t.channel.closed {
      assert !s.channel.closed;
      var i :| 0 <= i < |s.channel.outbound| && s.channel.outbound[i] == m;
      var k := s.channel.acknowledgedWorkerSeq + i;
      assert s.sent[k] == m && m.number == k + 1;
      if k >= t.channel.acknowledgedWorkerSeq {
        assert t.channel.outbound[k - t.channel.acknowledgedWorkerSeq] == t.sent[k] == m;
      }
    }
  }

  /**
   * As long as wrapping a message with a number that was given out costs at most 65023 bytes, every response carries at
   * least the oldest unacknowledged message.
   */
  lemma NoMessageIsStuck(ids: seq<nat>, revocations: seq<nat>, now: Time, actions: seq<Action>, batch: seq<Message>, encoding: Encoding)
    requires var c := RunFromOpen(ids, revocations, now, actions, encoding).channel;
             && c.outbound != [] && IsBatch(batch, c.outbound, encoding)
             && forall n: nat, p: Payload :: 0 < n < c.nextWorkerSeq ==> encoding.entry(n, p) <= encoding.payload(p) + 65023
    ensures batch != []
  {
    QueueIsTheUnacknowledgedRest(ids, revocations, now, actions, encoding);
    var c := RunFromOpen(ids, revocations, now, actions, encoding).channel;
    var m := c.outbound[0];
    assert m in c.outbound;
    Reachable(ids, revocations, now, actions, encoding);
    assert 0 < m.number < c.nextWorkerSeq;
    assert c.outbound[..1] == [m];
    assert [m][..0] == [];
    assert BatchBytes([m], encoding) == RESPONSE_FIELD_BYTES + encoding.entry(m.number, m.payload) + 1;
    BatchIsLongest(batch, c.outbound, encoding, 1);
  }

  // ---- inbound: exactly once, in order ----

  /** The payload was received under the number `n`. */
  ghost predicate Offered(messages: seq<Inbound>, n: int, payload: DaemonPayload) {
    exists i :: 0 <= i < |messages| && messages[i].number == n && messages[i].payload == payload
  }

  ghost predicate Received(actions: seq<Action>, n: int, payload: DaemonPayload) {
    exists i :: 0 <= i < |actions| && actions[i].Exchanged? && Offered(actions[i].exchange.messages, n, payload)
  }

  /** Consuming one message leaves the handled log, or adds that message's payload under the next number. */
  lemma ConsumesItsPayload(s: Session, m: Inbound, probing: bool, now: Time, encoding: Encoding)
    requires Inv(s, encoding)
    ensures var t := ConsumeOne(s, m, probing, now, encoding).session;
            t.handled == s.handled || (m.number == |s.handled| + 1 && t.handled == s.handled + [m.payload])
  {
    hide QueueAll, QueueOk, SizesOk;
    QueueAllKeepsInv(s, m.handling.replies, encoding);
  }

  lemma {:induction false} ConsumedWasOffered(s: Session, messages: seq<Inbound>, probing: bool, now: Time, encoding: Encoding, i: nat)
    requires Inv(s, encoding)
    requires |s.handled| <= i < |Consume(s, messages, probing, now, encoding).session.handled|
    ensures Offered(messages, i + 1, Consume(s, messages, probing, now, encoding).session.handled[i])
  {
    if messages != [] {
      hide QueueOk, SizesOk, HandshakeOk, ConsumeOne;
      var front, last := messages[..|messages| - 1], messages[|messages| - 1];
      var before := Consume(s, front, probing, now, encoding);
      ConsumeKeepsInv(s, front, probing, now, encoding);
      var t := Consume(s, messages, probing, now, encoding).session;
      if before.verdict == Continue {
        ConsumesItsPayload(before.session, last, probing, now, encoding);
      }
      if i < |before.session.handled| {
        ConsumedWasOffered(s, front, probing, now, encoding, i);
        var j :| 0 <= j < |front| && front[j].number == i + 1 && front[j].payload == before.session.handled[i];
        assert messages[j] == front[j];
        assert t.handled[i] == before.session.handled[i];
      } else {
        assert messages[|messages| - 1].number == i + 1 && messages[|messages| - 1].payload == t.handled[i];
      }
    }
  }

  lemma StepHandlesOffered(s: Session, a: Action, encoding: Encoding, i: nat)
    requires Inv(s, encoding)
    requires |s.handled| <= i < |Step(s, a, encoding).handled|
    ensures a.Exchanged? && Offered(a.exchange.messages, i + 1, Step(s, a, encoding).handled[i])
  {
    match a
    case Exchanged(x) =>
      if Authorized(s, x) {
        AcknowledgedKeepsInv(s, x, encoding);
        var ready := !s.channel.Ready();
        var consumed := Consume(Acknowledged(s, x), x.messages, ready, x.now, encoding);
        ConsumeKeepsInv(Acknowledged(s, x), x.messages, ready, x.now, encoding);
        FinishKeepsInv(consumed, x.revocations, encoding);
        ConsumedWasOffered(Acknowledged(s, x), x.messages, ready, x.now, encoding, i);
      }
    case ToolCall(payload) => QueueKeepsInv(s, payload, encoding);
    case Detached =>
  }

  lemma {:induction false} HandledWasReceived(s: Session, actions: seq<Action>, encoding: Encoding, i: nat)
    requires Inv(s, encoding) && s.handled == []
    requires i < |Run(s, actions, encoding).handled|
    ensures Received(actions, i + 1, Run(s, actions, encoding).handled[i])
  {
    if actions != [] {
      var front, last := actions[..|actions| - 1], actions[|actions| - 1];
      var before := Run(s, front, encoding);
      RunKeepsInv(s, front, encoding);
      if i < |before.handled| {
        HandledWasReceived(s, front, encoding, i);
        StepOnlyAppends(before, last, encoding);
        var j :| 0 <= j < |front| && front[j].Exchanged? && Offered(front[j].exchange.messages, i + 1, before.handled[i]);
        assert actions[j] == front[j];
      } else {
        StepHandlesOffered(before, last, encoding, i);
        assert actions[|actions| - 1] == last;
      }
    }
  }

  lemma StepOnlyAppends(s: Session, a: Action, encoding: Encoding)
    requires Inv(s, encoding)
    ensures s.sent <= Step(s, a, encoding).sent && s.handled <= Step(s, a, encoding).handled
  {
    OnlyAcknowledgedMessagesLeave(s, a, Message(0, ReadyAck, 0), encoding);
  }

  /**
   * However exchanges are lost, repeated or reordered, the handled log holds one entry for each sequence number from
   * 1 to the acknowledged one, in that order, each a payload that was received under that very number.
   */
  lemma ExactlyOnceInOrder(ids: seq<nat>, revocations: seq<nat>, now: Time, actions: seq<Action>, encoding: Encoding)
    ensures var s := RunFromOpen(ids, revocations, now, actions, encoding);
            && |s.handled| == s.channel.acknowledgedDaemonSeq
            && forall i :: 0 <= i < |s.handled| ==> Received(actions, i + 1, s.handled[i])
  {
    Reachable(ids, revocations, now, actions, encoding);
    var first := Open(ids, revocations, now, encoding).session;
    OpenHasInv(ids, revocations, now, encoding);
    AdvanceKeepsInv(Session(Unused(now), ids, false, [], []), revocations, encoding);
    var s := RunFromOpen(ids, revocations, now, actions, encoding);
    forall i: nat | i < |s.handled| ensures Received(actions, i + 1, s.handled[i]) {
      HandledWasReceived(first, actions, encoding, i);
    }
  }

  /** A daemon that always sends the same message under the same number has its log handled as a prefix. */
  lemma HandledIsPrefixOfDaemonLog(ids: seq<nat>, revocations: seq<nat>, now: Time, actions: seq<Action>, encoding: Encoding,
                                   log: seq<DaemonPayload>)
    requires forall n: int, p: DaemonPayload :: Received(actions, n, p) ==> 1 <= n <= |log| && log[n - 1] == p
    ensures RunFromOpen(ids, revocations, now, actions, encoding).handled <= log
  {
    ExactlyOnceInOrder(ids, revocations, now, actions, encoding);
    var handled := RunFromOpen(ids, revocations, now, actions, encoding).handled;
    forall i | 0 <= i < |handled| ensures i < |log| && handled[i] == log[i] {
      assert Received(actions, i + 1, handled[i]);
    }
    if handled != [] {
      var last := handled[|handled| - 1];
      assert |handled| - 1 < |log|;
    }
  }

  /** A response acknowledges exactly what was handled, and is a ready one exactly once the announcement was. */
  lemma ResponseReportsHandled(s: Session, x: Exchange, encoding: Encoding)
    requires Inv(s, encoding) && Serve(s, x, encoding).response.Relayed?
    ensures var served := Serve(s, x, encoding);
            && served.response.ackDaemonSeq == |served.session.handled|
            && (served.response.phase == Ready <==> HttpsReady in served.session.handled)
  {
    ServeKeepsInv(s, x, encoding);
    hide Advance, Consume, Acknowledged, QueueOk, SizesOk;
    assert HandshakeOk(Serve(s, x, encoding).session);
    RelayedStaysOpen(s, x, encoding);
  }

  lemma RelayedStaysOpen(s: Session, x: Exchange, encoding: Encoding)
    requires Inv(s, encoding) && Serve(s, x, encoding).response.Relayed?
    ensures !Serve(s, x, encoding).session.channel.closed
  {
    hide Inv;
    AcknowledgedKeepsInv(s, x, encoding);
    var consumed := Consume(Acknowledged(s, x), x.messages, !s.channel.Ready(), x.now, encoding);
    ConsumeKeepsInv(Acknowledged(s, x), x.messages, !s.channel.Ready(), x.now, encoding);
    AdvanceKeepsInv(consumed.session, x.revocations, encoding);
  }

  // ---- readiness ----

  lemma {:induction false} BecameReadyAt(s: Session, messages: seq<Inbound>, now: Time, encoding: Encoding) returns (k: nat, mid: Session)
    requires Inv(s, encoding) && s.channel.verifiedReadyAtMs == 0
    requires Consume(s, messages, true, now, encoding).session.channel.verifiedReadyAtMs > 0
    ensures k < |messages| && messages[k].payload == HttpsReady
    ensures Consume(s, messages[..k], true, now, encoding) == Consumption(mid, Continue)
    ensures mid.channel.verifiedReadyAtMs == 0 && mid.offered && mid.channel.outbound == []
    ensures Accept(mid.channel, messages[k].number) == New
  {
    k := |messages| - 1;
    var front := messages[..k];
    var before := Consume(s, front, true, now, encoding);
    ConsumeKeepsInv(s, front, true, now, encoding);
    if before.session.channel.verifiedReadyAtMs > 0 {
      k, mid := BecameReadyAt(s, front, now, encoding);
      assert messages[..k] == front[..k];
    } else {
      mid := before.session;
      QueueAllKeepsInv(mid, messages[k].handling.replies, encoding);
    }
  }

  // ---- the offer carries every queued revocation ----

  const REVOCATION_BYTES := 65536

  lemma QueuedStaysQueued(s: Session, payload: Payload, id: nat, encoding: Encoding)
    requires HasQueuedRevocation(s.channel, id)
    ensures HasQueuedRevocation(Queue(s, payload, encoding).channel, id)
  {
    var i :| 0 <= i < |s.channel.outbound| && s.channel.outbound[i].payload == AuthorityRevoke(id);
    assert Queue(s, payload, encoding).channel.outbound[i] == s.channel.outbound[i];
  }

  lemma {:induction false} AllStayQueued(s: Session, ids: seq<nat>, id: nat, encoding: Encoding)
    requires HasQueuedRevocation(s.channel, id)
    ensures HasQueuedRevocation(QueueRevocations(s, ids, encoding).channel, id)
    decreases |ids|
  {
    if ids != [] {
      if HasQueuedRevocation(s.channel, ids[0]) {
        AllStayQueued(s, ids[1..], id, encoding);
      } else if Accepts(s, AuthorityRevoke(ids[0]), encoding) {
        QueuedStaysQueued(s, AuthorityRevoke(ids[0]), id, encoding);
        AllStayQueued(Queue(s, AuthorityRevoke(ids[0]), encoding), ids[1..], id, encoding);
      }
    }
  }

  ghost predicate RoomFor(s: Session, n: nat) {
    s.channel.Activated() && |s.channel.outbound| + n <= MAXIMUM_QUEUED_MESSAGES
    && s.channel.queuedBytes + n * REVOCATION_BYTES <= MAXIMUM_QUEUED_BYTES
  }

  /** Each of these revocations is encoded in no more than 65536 bytes; its fields are identifiers of bounded length. */
  ghost predicate SmallRevocations(ids: seq<nat>, encoding: Encoding) {
    forall i :: 0 <= i < |ids| ==> encoding.payload(AuthorityRevoke(ids[i])) <= REVOCATION_BYTES
  }

  lemma QueuesOne(s: Session, id: nat, n: nat, encoding: Encoding)
    requires RoomFor(s, n + 1) && encoding.payload(AuthorityRevoke(id)) <= REVOCATION_BYTES
    ensures var t := Queue(s, AuthorityRevoke(id), encoding);
            Accepts(s, AuthorityRevoke(id), encoding) && RoomFor(t, n) && RoomFor(s, n) && HasQueuedRevocation(t.channel, id)
  {
    var t := Queue(s, AuthorityRevoke(id), encoding);
    assert t.channel.outbound[|s.channel.outbound|].payload == AuthorityRevoke(id);
  }

  lemma {:induction false} AllAreQueued(s: Session, ids: seq<nat>, id: nat, encoding: Encoding)
    requires RoomFor(s, |ids|) && SmallRevocations(ids, encoding) && id in ids
    ensures HasQueuedRevocation(QueueRevocations(s, ids, encoding).channel, id)
    decreases |ids|
  {
    QueuesOne(s, ids[0], |ids| - 1, encoding);
    var t := if HasQueuedRevocation(s.channel, ids[0]) then s else Queue(s, AuthorityRevoke(ids[0]), encoding);
    assert QueueRevocations(s, ids, encoding) == QueueRevocations(t, ids[1..], encoding);
    if id == ids[0] {
      AllStayQueued(t, ids[1..], id, encoding);
    } else {
      AllAreQueued(t, ids[1..], id, encoding);
    }
  }

  /**
   * A completed offer contains every revocation that was queued in storage, between its resume_calls and its
   * ready_ack; so a session that becomes ready has had all of them acknowledged.
   */
  lemma OfferCarriesRevocations(s: Session, revocations: seq<nat>, id: nat, encoding: Encoding) returns (k: nat)
    requires Inv(s, encoding) && !s.channel.closed && OffersNow(s, revocations) && Advance(s, revocations, encoding).completed
    requires SmallRevocations(revocations, encoding) && id in revocations
    ensures var t := Advance(s, revocations, encoding).session;
            |s.sent| < k < |t.sent| - 1 && t.sent[k].payload == AuthorityRevoke(id)
  {
    var first := Queue(s, ResumeCalls(s.ids), encoding);
    QueueKeepsInv(s, ResumeCalls(s.ids), encoding);
    var queued := QueueRevocations(first, revocations, encoding);
    QueueRevocationsKeepsInv(first, revocations, encoding);
    assert s.channel.queuedBytes == Total([]) == 0;
    AllAreQueued(first, revocations, id, encoding);
    k := QueuedAt(s, queued, id, encoding);
  }

  lemma QueuedAt(s: Session, queued: Session, id: nat, encoding: Encoding) returns (k: nat)
    requires Inv(s, encoding) && Inv(queued, encoding) && s.channel.outbound == [] && !s.channel.closed && !queued.channel.closed
    requires queued.channel.acknowledgedWorkerSeq == s.channel.acknowledgedWorkerSeq && |queued.sent| > |s.sent|
    requires queued.sent[|s.sent|].payload.ResumeCalls? && HasQueuedRevocation(queued.channel, id)
    ensures |s.sent| < k < |queued.sent| && queued.sent[k].payload == AuthorityRevoke(id)
  {
    assert s.channel.acknowledgedWorkerSeq == |s.sent|;
    var i :| 0 <= i < |queued.channel.outbound| && queued.channel.outbound[i].payload == AuthorityRevoke(id);
    k := |s.sent| + i;
    assert queued.sent[|s.sent|..][i] == queued.sent[k];
  }

  /**
   * A session becomes ready only while an exchange is served, at an https_ready message before which the control
   * offer was made (resume_calls, revocations, ready_ack) and every message queued so far, the whole offer among
   * them, had been acknowledged by the daemon.
   */
  lemma ReadyOnlyAfterControlFlush(ids: seq<nat>, revocations: seq<nat>, now: Time, actions: seq<Action>, a: Action, encoding: Encoding)
    returns (k: nat, mid: Session)
    requires !RunFromOpen(ids, revocations, now, actions, encoding).channel.Ready()
    requires Step(RunFromOpen(ids, revocations, now, actions, encoding), a, encoding).channel.Ready()
    ensures a.Exchanged? && k < |a.exchange.messages| && a.exchange.messages[k].payload == HttpsReady
    ensures var s := RunFromOpen(ids, revocations, now, actions, encoding);
            && !s.channel.closed && a.exchange.tokenMatches && 0 <= a.exchange.ackWorkerSeq < s.channel.nextWorkerSeq
            && Consume(Acknowledged(s, a.exchange), a.exchange.messages[..k], true, a.exchange.now, encoding) == Consumption(mid, Continue)
            && s.sent == mid.sent && a.exchange.ackWorkerSeq <= mid.channel.acknowledgedWorkerSeq == |mid.sent|
    ensures !mid.channel.Ready() && mid.channel.outbound == []
    ensures OfferAmong(mid.sent, mid.ids, |mid.sent|)
  {
    Reachable(ids, revocations, now, actions, encoding);
    var s := RunFromOpen(ids, revocations, now, actions, encoding);
    hide Consume, Finish, Queue, Run, SizesOk;
    if a.ToolCall? {
      QueueKeepsInv(s, a.payload, encoding);
    }
    assert a.Exchanged? && Authorized(s, a.exchange);
    var x := a.exchange;
    AcknowledgedKeepsInv(s, x, encoding);
    var consumed := Consume(Acknowledged(s, x), x.messages, true, x.now, encoding);
    ConsumeKeepsInv(Acknowledged(s, x), x.messages, true, x.now, encoding);
    FinishKeepsInv(consumed, x.revocations, encoding);
    k, mid := BecameReadyAt(Acknowledged(s, x), x.messages, x.now, encoding);
    ConsumeKeepsInv(Acknowledged(s, x), x.messages[..k], true, x.now, encoding);
  }
}
