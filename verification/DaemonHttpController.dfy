/** The relay handler as it runs: src/worker/daemon-http-controller.ts, one channel and its handshake. */
module DaemonHttpController {
  import opened DaemonHttpChannel
  import opened DaemonHttpExchange

  class Controller {
    const channel: HttpChannel
    const ids: seq<nat>
    const encoding: Encoding
    var offered: bool
    ghost var sent: seq<Message>
    ghost var handled: seq<DaemonPayload>

    ghost function State(): Session
      reads this, channel
    {
      Session(channel.State(), ids, offered, sent, handled)
    }

    constructor (channel: HttpChannel, ids: seq<nat>, encoding: Encoding)
      ensures this.channel == channel && this.encoding == encoding
      ensures State() == Session(channel.State(), ids, false, [], [])
    {
      this.channel, this.ids, this.encoding, offered, sent, handled := channel, ids, encoding, false, [], [];
    }

    method TrySend(payload: Payload) returns (queued: bool)
      requires Valid(channel.State())
      modifies this`sent, channel`outbound, channel`nextWorkerSeq, channel`queuedBytes
      ensures State() == Queue(old(State()), payload, encoding) && Valid(channel.State())
      ensures queued == Accepts(old(State()), payload, encoding)
    {
      var number := channel.nextWorkerSeq;
      var r := channel.Send(payload, encoding.payload(payload), true);
      if r == Queued {
        sent := sent + [Message(number, payload, encoding.payload(payload))];
      }
      return r == Queued;
    }

    method SendReplies(payloads: seq<Payload>)
      requires Valid(channel.State())
      modifies this`sent, channel`outbound, channel`nextWorkerSeq, channel`queuedBytes
      ensures State() == QueueAll(old(State()), payloads, encoding) && Valid(channel.State())
    {
      for i := 0 to |payloads|
        invariant Valid(channel.State())
        invariant QueueAll(State(), payloads[i..], encoding) == QueueAll(old(State()), payloads, encoding)
      {
        assert payloads[i..][1..] == payloads[i + 1..];
        var queued := TrySend(payloads[i]);
      }
    }

    /** queueDaemonHttpRevocations */
    method QueueDaemonHttpRevocations(revocations: seq<nat>)
      requires Valid(channel.State())
      modifies this`sent, channel`outbound, channel`nextWorkerSeq, channel`queuedBytes
      ensures State() == QueueRevocations(old(State()), revocations, encoding) && Valid(channel.State())
    {
      var i := 0;
      while i < |revocations|
        invariant 0 <= i <= |revocations|
        invariant Valid(channel.State())
        invariant QueueRevocations(State(), revocations[i..], encoding) == QueueRevocations(old(State()), revocations, encoding)
      {
        assert revocations[i..][1..] == revocations[i + 1..];
        if !channel.HasQueuedRevocation(revocations[i]) {
          var queued := TrySend(AuthorityRevoke(revocations[i]));
          if !queued {
            break;
          }
        }
        i := i + 1;
      }
    }

    /** False where a send throws. */
    method AdvanceHandshake(revocations: seq<nat>) returns (completed: bool)
      requires Valid(channel.State())
      modifies this`sent, this`offered, channel`outbound, channel`nextWorkerSeq, channel`queuedBytes
      ensures Progress(State(), completed) == Advance(old(State()), revocations, encoding)
      ensures Valid(channel.State())
    {
      if !offered && |channel.outbound| == 0 && |revocations| <= MAXIMUM_QUEUED_MESSAGES - 2 {
        var first := TrySend(ResumeCalls(ids));
        if !first {
          return false;
        }
        QueueDaemonHttpRevocations(revocations);
        var last := TrySend(ReadyAck);
        if !last {
          return false;
        }
        offered := true;
        return true;
      }
      QueueDaemonHttpRevocations(revocations);
      return true;
    }

    method ConsumeMessage(m: Inbound, probing: bool, now: Time) returns (verdict: Verdict)
      requires Valid(channel.State())
      modifies this`sent, this`handled, channel
      ensures Consumption(State(), verdict) == ConsumeOne(old(State()), m, probing, now, encoding)
      ensures Valid(channel.State())
    {
      var sequence := channel.AcceptDaemonSequence(m.number);
      if sequence == Duplicate {
        return Continue;
      }
      if sequence == Gap {
        return Invalid;
      }
      if m.payload == HttpsReady {
        if !probing || !offered || |channel.outbound| > 0 {
          return Invalid;
        }
        var ready := channel.VerifyReady(now);
        if !ready {
          return Invalid;
        }
      } else {
        SendReplies(m.handling.replies);
        if m.handling.outcome == Rejected {
          return Invalid;
        }
        if m.handling.outcome == Threw {
          return Failed;
        }
      }
      var committed := channel.CommitDaemonSequence(m.number);
      handled := handled + [m.payload];
      return Continue;
    }

    method ConsumeMessages(messages: seq<Inbound>, probing: bool, now: Time) returns (verdict: Verdict)
      requires Valid(channel.State())
      modifies this`sent, this`handled, channel
      ensures Consumption(State(), verdict) == Consume(old(State()), messages, probing, now, encoding)
      ensures Valid(channel.State())
    {
      verdict := Continue;
      var i := 0;
      assert messages[..0] == [];
      while i < |messages| && verdict == Continue
        invariant 0 <= i <= |messages|
        invariant Consumption(State(), verdict) == Consume(old(State()), messages[..i], probing, now, encoding)
        invariant Valid(channel.State())
      {
        assert messages[..i + 1][..i] == messages[..i];
        verdict := ConsumeMessage(messages[i], probing, now);
        i := i + 1;
      }
      if verdict != Continue {
        StopsThere(old(State()), messages, i, probing, now, encoding);
      }
      assert messages[..|messages|] == messages;
    }

    /** invalidate, or the handshake and the response */
    method FinishExchange(verdict: Verdict, revocations: seq<nat>) returns (response: Response, batch: seq<Message>)
      requires Valid(channel.State())
      modifies this`sent, this`offered, channel
      ensures Served(State(), response) == Finish(Consumption(old(State()), verdict), revocations, encoding)
      ensures if response.Relayed? then IsBatch(batch, channel.outbound, encoding) else batch == []
      ensures Valid(channel.State())
    {
      if verdict == Invalid {
        channel.Close();
        return Invalidated, [];
      }
      if verdict == Failed {
        return InternalError, [];
      }
      var completed := AdvanceHandshake(revocations);
      if !completed {
        return InternalError, [];
      }
      batch := channel.OutboundMessages(encoding);
      response := Relayed(if channel.IsReady() then Ready else Probing, channel.acknowledgedDaemonSeq);
    }

    method HandleExchange(x: Exchange) returns (response: Response, batch: seq<Message>)
      requires Valid(channel.State())
      modifies this`sent, this`handled, this`offered, channel
      ensures Served(State(), response) == Serve(old(State()), x, encoding)
      ensures !old(channel.closed) && (!x.tokenMatches || x.ackWorkerSeq < 0 || x.ackWorkerSeq >= old(channel.nextWorkerSeq)) ==>
                response == Refused && State() == old(State())
      ensures if response.Relayed? then IsBatch(batch, channel.outbound, encoding) else batch == []
      ensures Valid(channel.State())
    {
      if channel.closed {
        return UnknownSession, [];
      }
      var probing := !channel.IsReady();
      if !x.tokenMatches {
        return Refused, [];
      }
      var known := channel.AcknowledgeWorker(x.ackWorkerSeq);
      if !known {
        return Refused, [];
      }
      assert State() == Acknowledged(old(State()), x);
      var verdict := ConsumeMessages(x.messages, probing, x.now);
      response, batch := FinishExchange(verdict, x.revocations);
    }
  }

  /** The first exchange of a session, on the channel that the registry has just made and activated. */
  method OpenSession(channel: HttpChannel, ids: seq<nat>, revocations: seq<nat>, now: Time, encoding: Encoding)
    returns (c: Controller, completed: bool)
    requires channel.State() == Unused(now) && Valid(channel.State())
    modifies channel
    ensures fresh(c) && c.channel == channel && c.encoding == encoding && Valid(channel.State())
    ensures Progress(c.State(), completed) == Open(ids, revocations, now, encoding)
  {
    hide Advance, Valid;
    c := new Controller(channel, ids, encoding);
    OpenAdvances(c.State(), revocations, now, encoding);
    completed := c.AdvanceHandshake(revocations);
  }

  lemma OpenAdvances(s: Session, revocations: seq<nat>, now: Time, encoding: Encoding)
    requires s.channel == Unused(now) && !s.offered && s.sent == [] && s.handled == []
    ensures Open(s.ids, revocations, now, encoding) == Advance(s, revocations, encoding)
  {
    assert s == Session(Unused(now), s.ids, false, [], []);
  }
}
