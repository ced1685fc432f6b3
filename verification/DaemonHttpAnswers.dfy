/** Who the relay handler serves, and how far an exchange gets: the answers of src/worker/daemon-http-controller.ts. */
module DaemonHttpAnswers {
  import opened DaemonHttpChannel
  import opened DaemonHttpExchange

  // ---- refusals ----

  /**
   * An open session refuses exactly the exchanges that come without its activation token or acknowledge a message that
   * was not sent, and a refused exchange changes nothing.
   */
  lemma RefusedIff(s: Session, x: Exchange, encoding: Encoding)
    requires !s.channel.closed
    ensures Serve(s, x, encoding) == Served(s, Refused)
            <==> !x.tokenMatches || !(0 <= x.ackWorkerSeq < s.channel.nextWorkerSeq) || x.ackWorkerSeq > MAX_SAFE_INTEGER
    ensures Serve(s, x, encoding).response == Refused ==> Serve(s, x, encoding).session == s
  {
    hide Consume, Advance, Acknowledged;
  }

  /** In every run, whoever lacks the token is told nothing about the session and does nothing to it. */
  lemma OnlyTheTokenIsServed(ids: seq<nat>, revocations: seq<nat>, now: Time, actions: seq<Action>, x: Exchange, encoding: Encoding)
    requires !x.tokenMatches
    ensures var s := RunFromOpen(ids, revocations, now, actions, encoding);
            && Serve(s, x, encoding).response == (if s.channel.closed then UnknownSession else Refused)
            && RunFromOpen(ids, revocations, now, actions + [Exchanged(x)], encoding) == s
  {
    var s := RunFromOpen(ids, revocations, now, actions, encoding);
    assert (actions + [Exchanged(x)])[..|actions|] == actions;
    if !s.channel.closed {
      RefusedIff(s, x, encoding);
    }
  }

  // ---- a window of messages ----

  /** Numbered from `first` on; the ones beyond the `handled` first numbers are ordinary messages that get handled. */
  predicate Window(messages: seq<Inbound>, first: nat, handled: nat) {
    && 0 < first <= handled + 1
    && first + |messages| - 1 <= MAX_SAFE_INTEGER
    && forall i :: 0 <= i < |messages| ==>
         && messages[i].number == first + i
         && (messages[i].number > handled ==> messages[i].payload.Body? && messages[i].handling.outcome == DaemonHttpExchange.Handled)
  }

  /** The payloads of the messages beyond the `handled` first numbers. */
  function NewPayloads(messages: seq<Inbound>, handled: nat): seq<DaemonPayload> {
    if messages == [] then []
    else
      var last := messages[|messages| - 1];
      NewPayloads(messages[..|messages| - 1], handled) + if last.number > handled then [last.payload] else []
  }

  /**
   * A daemon that sends its unacknowledged messages again, together with newer ones, gets exactly the ones not handled
   * yet handled, however much of the window is a repetition.
   */
  lemma {:induction false} WindowIsHandled(s: Session, messages: seq<Inbound>, first: nat, probing: bool, now: Time, encoding: Encoding)
    requires Inv(s, encoding) && Window(messages, first, |s.handled|)
    ensures var c := Consume(s, messages, probing, now, encoding);
            && c.verdict == Continue
            && c.session.handled == s.handled + NewPayloads(messages, |s.handled|)
            && |c.session.handled| == (if first + |messages| > |s.handled| + 1 then first + |messages| - 1 else |s.handled|)
  {
    if messages != [] {
      hide QueueOk, SizesOk, HandshakeOk, QueueAll;
      var front, last := messages[..|messages| - 1], messages[|messages| - 1];
      WindowIsHandled(s, front, first, probing, now, encoding);
      var before := Consume(s, front, probing, now, encoding);
      ConsumeKeepsInv(s, front, probing, now, encoding);
      HandledCount(before.session, encoding);
      QueueAllKeepsInv(before.session, last.handling.replies, encoding);
    }
  }

  lemma HandledCount(s: Session, encoding: Encoding)
    requires Inv(s, encoding)
    ensures s.channel.acknowledgedDaemonSeq == |s.handled|
  {
  }

  /** The right token, and an acknowledgement of messages that were sent. */
  predicate MayBeServed(s: Session, x: Exchange) {
    !s.channel.closed && x.tokenMatches && 0 <= x.ackWorkerSeq < s.channel.nextWorkerSeq && x.ackWorkerSeq <= MAX_SAFE_INTEGER
  }

  /** The number of handled messages once a window was handled. */
  function HandledThrough(s: Session, messages: seq<Inbound>, first: nat): nat {
    if first + |messages| > |s.handled| + 1 then first + |messages| - 1 else |s.handled|
  }

  /** An acknowledgement touches the queue alone. */
  lemma AcknowledgingKeeps(s: Session, x: Exchange, encoding: Encoding)
    requires Inv(s, encoding) && MayBeServed(s, x)
    ensures var t := Acknowledged(s, x);
            && Inv(t, encoding) && Authorized(s, x)
            && t.handled == s.handled && t.offered == s.offered && t.ids == s.ids
            && t.channel.closed == s.channel.closed && t.channel.verifiedReadyAtMs == s.channel.verifiedReadyAtMs
  {
    AcknowledgedKeepsInv(s, x, encoding);
  }

  /** Once the offer was made, such an exchange is answered by acknowledging its whole window. */
  lemma WindowIsAcknowledged(s: Session, x: Exchange, first: nat, encoding: Encoding)
    requires Inv(s, encoding) && MayBeServed(s, x) && s.offered && Window(x.messages, first, |s.handled|)
    ensures var served := Serve(s, x, encoding);
            && served.session.handled == s.handled + NewPayloads(x.messages, |s.handled|)
            && served.response == Relayed(if s.channel.Ready() then Ready else Probing, HandledThrough(s, x.messages, first))
  {
    AcknowledgingKeeps(s, x, encoding);
    hide Consume, Inv, Finish, Window, Acknowledged, Acknowledgeable, NewPayloads;
    var consumed := Consume(Acknowledged(s, x), x.messages, !s.channel.Ready(), x.now, encoding);
    WindowIsHandled(Acknowledged(s, x), x.messages, first, !s.channel.Ready(), x.now, encoding);
    ConsumeKeepsInv(Acknowledged(s, x), x.messages, !s.channel.Ready(), x.now, encoding);
    WindowKeepsReadiness(Acknowledged(s, x), x.messages, first, !s.channel.Ready(), x.now, encoding);
    OfferedAnswer(consumed, x.revocations, encoding);
  }

  /** After the offer the handshake has nothing left that could fail. */
  lemma OfferedAnswer(consumed: Consumption, revocations: seq<nat>, encoding: Encoding)
    requires Inv(consumed.session, encoding) && consumed.verdict == Continue
    requires consumed.session.offered && !consumed.session.channel.closed
    ensures var served := Finish(consumed, revocations, encoding);
            && served.session.handled == consumed.session.handled
            && served.response == Relayed(if consumed.session.channel.Ready() then Ready else Probing, |consumed.session.handled|)
  {
    hide QueueRevocations, QueueOk, SizesOk;
    QueueRevocationsKeepsInv(consumed.session, revocations, encoding);
  }

  lemma {:induction false} WindowKeepsReadiness(s: Session, messages: seq<Inbound>, first: nat, probing: bool, now: Time, encoding: Encoding)
    requires Inv(s, encoding) && Window(messages, first, |s.handled|)
    ensures Consume(s, messages, probing, now, encoding).session.channel.verifiedReadyAtMs == s.channel.verifiedReadyAtMs
  {
    if messages != [] {
      hide QueueOk, SizesOk, HandshakeOk, QueueAll;
      var front, last := messages[..|messages| - 1], messages[|messages| - 1];
      WindowKeepsReadiness(s, front, first, probing, now, encoding);
      WindowIsHandled(s, front, first, probing, now, encoding);
      var before := Consume(s, front, probing, now, encoding);
      ConsumeKeepsInv(s, front, probing, now, encoding);
      HandledCount(before.session, encoding);
      QueueAllKeepsInv(before.session, last.handling.replies, encoding);
    }
  }

  /** After `handled` messages: a number that is out of turn, a message that is refused, or readiness announced too early. */
  predicate Offends(m: Inbound, s: Session, probing: bool) {
    || m.number <= 0 || m.number > |s.handled| + 1 || m.number > MAX_SAFE_INTEGER
    || (m.number == |s.handled| + 1
        && if m.payload.HttpsReady? then !probing || !s.offered || s.channel.outbound != []
           else m.handling.outcome == DaemonHttpExchange.Rejected)
  }

  lemma OffenceStops(s: Session, m: Inbound, probing: bool, now: Time, encoding: Encoding)
    requires Inv(s, encoding) && Offends(m, s, probing)
    ensures var c := ConsumeOne(s, m, probing, now, encoding);
            c.verdict == Invalid && c.session.handled == s.handled
  {
    hide QueueOk, SizesOk, QueueAll;
    QueueAllKeepsInv(s, m.handling.replies, encoding);
  }

  lemma FailureStops(s: Session, m: Inbound, probing: bool, now: Time, encoding: Encoding)
    requires Inv(s, encoding) && m.number == |s.handled| + 1 <= MAX_SAFE_INTEGER && m.payload.Body? && m.handling.outcome == Threw
    ensures var c := ConsumeOne(s, m, probing, now, encoding);
            c.verdict == Failed && c.session.handled == s.handled && c.session.channel.closed == s.channel.closed
  {
    hide QueueOk, SizesOk, QueueAll;
    QueueAllKeepsInv(s, m.handling.replies, encoding);
  }

  /** What is behind the first message that is not handled does not matter. */
  lemma StopsAtOne(s: Session, window: seq<Inbound>, m: Inbound, rest: seq<Inbound>, probing: bool, now: Time, encoding: Encoding)
    requires var c := Consume(s, window, probing, now, encoding);
             c.verdict == Continue && ConsumeOne(c.session, m, probing, now, encoding).verdict != Continue
    ensures Consume(s, window + [m] + rest, probing, now, encoding)
            == ConsumeOne(Consume(s, window, probing, now, encoding).session, m, probing, now, encoding)
  {
    var messages, k := window + [m] + rest, |window| + 1;
    assert (window + [m])[..|window|] == window;
    assert messages[..k] == window + [m];
    StopsThere(s, messages, k, probing, now, encoding);
  }

  /** An offending message closes the session; the window before it stays handled, and nothing from it on is. */
  lemma OffenceCloses(s: Session, x: Exchange, window: seq<Inbound>, m: Inbound, rest: seq<Inbound>, first: nat, encoding: Encoding)
    requires Inv(s, encoding) && MayBeServed(s, x) && x.messages == window + [m] + rest && Window(window, first, |s.handled|)
    requires Offends(m, Consume(Acknowledged(s, x), window, !s.channel.Ready(), x.now, encoding).session, !s.channel.Ready())
    ensures var served := Serve(s, x, encoding);
            && served.response == Invalidated && served.session.channel.closed && served.session.channel.outbound == []
            && served.session.handled == s.handled + NewPayloads(window, |s.handled|)
  {
    AcknowledgingKeeps(s, x, encoding);
    hide Consume, ConsumeOne, Inv, Window, Acknowledged, Acknowledgeable, NewPayloads;
    WindowIsHandled(Acknowledged(s, x), window, first, !s.channel.Ready(), x.now, encoding);
    ConsumeKeepsInv(Acknowledged(s, x), window, !s.channel.Ready(), x.now, encoding);
    var mid := Consume(Acknowledged(s, x), window, !s.channel.Ready(), x.now, encoding).session;
    OffenceStops(mid, m, !s.channel.Ready(), x.now, encoding);
    StopsAtOne(Acknowledged(s, x), window, m, rest, !s.channel.Ready(), x.now, encoding);
  }

  /** A message whose handling throws stays unhandled in a session that stays open, so sending it again is no repetition. */
  lemma FailureCanBeRetried(s: Session, x: Exchange, window: seq<Inbound>, m: Inbound, rest: seq<Inbound>, first: nat, encoding: Encoding)
    requires Inv(s, encoding) && MayBeServed(s, x) && x.messages == window + [m] + rest && Window(window, first, |s.handled|)
    requires m.number == HandledThrough(s, window, first) + 1 <= MAX_SAFE_INTEGER && m.payload.Body? && m.handling.outcome == Threw
    ensures var served := Serve(s, x, encoding);
            && served.response == InternalError && !served.session.channel.closed
            && served.session.handled == s.handled + NewPayloads(window, |s.handled|)
            && Accept(served.session.channel, m.number) == New
  {
    AcknowledgingKeeps(s, x, encoding);
    hide Consume, ConsumeOne, Inv, Window, Acknowledged, Acknowledgeable, NewPayloads;
    WindowIsHandled(Acknowledged(s, x), window, first, !s.channel.Ready(), x.now, encoding);
    ConsumeKeepsInv(Acknowledged(s, x), window, !s.channel.Ready(), x.now, encoding);
    var mid := Consume(Acknowledged(s, x), window, !s.channel.Ready(), x.now, encoding).session;
    FailureStops(mid, m, !s.channel.Ready(), x.now, encoding);
    StopsAtOne(Acknowledged(s, x), window, m, rest, !s.channel.Ready(), x.now, encoding);
    ServeKeepsInv(s, x, encoding);
    HandledCount(Serve(s, x, encoding).session, encoding);
  }

  // ---- readiness ----

  /** With the offer made and all that was sent acknowledged, announcing readiness next makes the session ready. */
  lemma ReadyOnceFlushed(s: Session, x: Exchange, handling: Handling, encoding: Encoding)
    requires Inv(s, encoding) && !s.channel.closed && !s.channel.Ready() && s.offered
    requires x.tokenMatches && x.ackWorkerSeq == s.channel.nextWorkerSeq - 1 <= MAX_SAFE_INTEGER
    requires |s.handled| + 1 <= MAX_SAFE_INTEGER && x.messages == [Inbound(|s.handled| + 1, HttpsReady, handling)]
    ensures var served := Serve(s, x, encoding);
            && served.response == Relayed(Ready, |s.handled| + 1)
            && served.session.channel.Ready() && served.session.handled == s.handled + [HttpsReady]
  {
    AcknowledgedKeepsInv(s, x, encoding);
    var t, m := Acknowledged(s, x), x.messages[0];
    FlushedQueue(s, x, encoding);
    var consumed := Consume(t, x.messages, true, x.now, encoding);
    ConsumesAlone(t, m, true, x.now, encoding);
    ConsumeKeepsInv(t, x.messages, true, x.now, encoding);
    FinishKeepsInv(consumed, x.revocations, encoding);
    hide Inv, Finish, Acknowledged, Consume;
    OfferedAnswer(consumed, x.revocations, encoding);
  }

  lemma ConsumesAlone(s: Session, m: Inbound, probing: bool, now: Time, encoding: Encoding)
    ensures Consume(s, [m], probing, now, encoding) == ConsumeOne(s, m, probing, now, encoding)
  {
    hide ConsumeOne;
    assert [m][..0] == [];
    assert Consume(s, [], probing, now, encoding) == Consumption(s, Continue);
  }

  lemma FlushedQueue(s: Session, x: Exchange, encoding: Encoding)
    requires Inv(s, encoding) && !s.channel.closed && x.tokenMatches && x.ackWorkerSeq == s.channel.nextWorkerSeq - 1 <= MAX_SAFE_INTEGER
    ensures var t := Acknowledged(s, x);
            && t.channel.outbound == [] && !t.channel.closed && t.channel.Activated() && t.offered == s.offered && t.handled == s.handled
            && t.channel.acknowledgedDaemonSeq == |s.handled|
  {
    AcknowledgedKeepsInv(s, x, encoding);
  }

  // ---- sending ----

  /**
   * In every open session a payload is queued, last and under the next number, exactly if it has at most 8 MiB, fewer
   * than 64 messages wait, and with it they have at most 16 MiB; otherwise nothing changes.
   */
  lemma QueuedIff(ids: seq<nat>, revocations: seq<nat>, now: Time, actions: seq<Action>, payload: Payload, encoding: Encoding)
    requires !RunFromOpen(ids, revocations, now, actions, encoding).channel.closed
    ensures var s, bytes := RunFromOpen(ids, revocations, now, actions, encoding), encoding.payload(payload);
            var t := RunFromOpen(ids, revocations, now, actions + [ToolCall(payload)], encoding);
            if bytes <= 8 * 1024 * 1024 && |s.channel.outbound| < 64 && Total(s.channel.outbound) + bytes <= 16 * 1024 * 1024 then
              && t.sent == s.sent + [Message(|s.sent| + 1, payload, bytes)]
              && t.channel.outbound == s.channel.outbound + [Message(|s.sent| + 1, payload, bytes)]
              && t.handled == s.handled && t.channel.acknowledgedWorkerSeq == s.channel.acknowledgedWorkerSeq
            else t == s
  {
    Reachable(ids, revocations, now, actions, encoding);
    assert (actions + [ToolCall(payload)])[..|actions|] == actions;
    assert RunFromOpen(ids, revocations, now, actions + [ToolCall(payload)], encoding)
           == Queue(RunFromOpen(ids, revocations, now, actions, encoding), payload, encoding);
    hide Run, RunFromOpen, Queue;
    QueuesAtTheEnd(RunFromOpen(ids, revocations, now, actions, encoding), payload, encoding);
  }

  lemma QueuesAtTheEnd(s: Session, payload: Payload, encoding: Encoding)
    requires Inv(s, encoding) && !s.channel.closed
    ensures var bytes, t := encoding.payload(payload), Queue(s, payload, encoding);
            if bytes <= 8 * 1024 * 1024 && |s.channel.outbound| < 64 && Total(s.channel.outbound) + bytes <= 16 * 1024 * 1024 then
              && t.sent == s.sent + [Message(|s.sent| + 1, payload, bytes)]
              && t.channel.outbound == s.channel.outbound + [Message(|s.sent| + 1, payload, bytes)]
              && t.handled == s.handled && t.channel.acknowledgedWorkerSeq == s.channel.acknowledgedWorkerSeq
            else t == s
  {
    hide SizesOk, HandshakeOk;
  }

  /** With an empty queue and room for the stored revocations the offer is made, and makes readiness possible. */
  lemma OfferIsMade(s: Session, revocations: seq<nat>, encoding: Encoding)
    requires Inv(s, encoding) && !s.channel.closed && !s.offered && s.channel.outbound == [] && |revocations| <= 62
    requires encoding.payload(ResumeCalls(s.ids)) <= 8 * 1024 * 1024 && encoding.payload(ReadyAck) <= REVOCATION_BYTES
    requires SmallRevocations(revocations, encoding)
    ensures var p := Advance(s, revocations, encoding);
            && p.completed && p.session.offered && OfferAmong(p.session.sent, s.ids, |p.session.sent|)
            && p.session.channel.outbound != [] && p.session.channel.outbound[0].payload == ResumeCalls(s.ids)
  {
    assert s.channel.queuedBytes == Total([]) == 0;
    var first := Queue(s, ResumeCalls(s.ids), encoding);
    QueueKeepsInv(s, ResumeCalls(s.ids), encoding);
    assert RoomFor(first, |revocations| + 1);
    AllFit(first, revocations, 1, encoding);
    var queued := QueueRevocations(first, revocations, encoding);
    QueueRevocationsKeepsInv(first, revocations, encoding);
    var last := Queue(queued, ReadyAck, encoding);
    QueueKeepsInv(queued, ReadyAck, encoding);
    OfferIsComplete(s, first, queued, encoding);
    FirstStays(s, first, last, encoding);
  }

  lemma {:induction false} AllFit(s: Session, ids: seq<nat>, n: nat, encoding: Encoding)
    requires RoomFor(s, |ids| + n) && SmallRevocations(ids, encoding)
    ensures RoomFor(QueueRevocations(s, ids, encoding), n)
    decreases |ids|
  {
    if ids != [] {
      QueuesOne(s, ids[0], |ids| + n - 1, encoding);
      var t := if HasQueuedRevocation(s.channel, ids[0]) then s else Queue(s, AuthorityRevoke(ids[0]), encoding);
      assert QueueRevocations(s, ids, encoding) == QueueRevocations(t, ids[1..], encoding);
      AllFit(t, ids[1..], n, encoding);
    }
  }

  lemma FirstStays(s: Session, first: Session, last: Session, encoding: Encoding)
    requires Inv(s, encoding) && Inv(last, encoding) && !s.channel.closed && !last.channel.closed && s.channel.outbound == []
    requires first.sent == s.sent + [Message(|s.sent| + 1, ResumeCalls(s.ids), encoding.payload(ResumeCalls(s.ids)))]
    requires first.sent <= last.sent && last.channel.acknowledgedWorkerSeq == s.channel.acknowledgedWorkerSeq
    ensures last.channel.outbound != [] && last.channel.outbound[0].payload == ResumeCalls(s.ids)
  {
    assert s.channel.acknowledgedWorkerSeq == |s.sent|;
    assert last.channel.outbound[0] == last.sent[|s.sent|] == first.sent[|s.sent|];
  }

  // ---- revocations after the offer ----

  /** Every revocation found in storage while an exchange is served is on its way afterwards, if there is room for all. */
  lemma RevocationsAreQueued(s: Session, revocations: seq<nat>, id: nat, encoding: Encoding)
    requires RoomFor(s, |revocations|) && SmallRevocations(revocations, encoding) && id in revocations && s.offered
    ensures HasQueuedRevocation(Advance(s, revocations, encoding).session.channel, id)
  {
    AllAreQueued(s, revocations, id, encoding);
  }

  /** No revocation waits in the queue twice. */
  ghost predicate NoRevocationTwice(c: Channel) {
    forall i, j :: 0 <= i < j < |c.outbound| && c.outbound[i].payload.AuthorityRevoke? ==> c.outbound[i].payload != c.outbound[j].payload
  }

  lemma {:induction false} RevocationsQueueOnce(s: Session, revocations: seq<nat>, encoding: Encoding)
    requires NoRevocationTwice(s.channel)
    ensures NoRevocationTwice(QueueRevocations(s, revocations, encoding).channel)
    decreases |revocations|
  {
    if revocations != [] {
      if HasQueuedRevocation(s.channel, revocations[0]) {
        RevocationsQueueOnce(s, revocations[1..], encoding);
      } else if Accepts(s, AuthorityRevoke(revocations[0]), encoding) {
        RevocationsQueueOnce(Queue(s, AuthorityRevoke(revocations[0]), encoding), revocations[1..], encoding);
      }
    }
  }
}
