/** Heartbeats in a proxied event stream: src/worker/mcp-response-proxy.ts. */
module HeartbeatProxy {
  import opened Records
  import opened EventStream

  const HEARTBEAT: seq<byte> := Ascii(": heartbeat\n\n")

  function EndsWithFrameBoundary(chunk: seq<byte>): (b: bool)
    ensures b <==> (exists front :: chunk == front + [LF, LF]) || (exists front :: chunk == front + [CR, LF, CR, LF])
  {
    var len := |chunk|;
    assert len >= 2 ==> chunk == chunk[..len - 2] + chunk[len - 2..];
    assert len >= 4 ==> chunk == chunk[..len - 4] + chunk[len - 4..];
    if len >= 2 && chunk[len - 2] == LF && chunk[len - 1] == LF then
      assert chunk[len - 2..] == [LF, LF];
      true
    else if len >= 4 && chunk[len - 4] == CR && chunk[len - 3] == LF && chunk[len - 2] == CR && chunk[len - 1] == LF then
      assert chunk[len - 4..] == [CR, LF, CR, LF];
      true
    else false
  }

  /**
   * The closure's variables, whether the public stream still takes bytes, and what went through: `forwarded` the
   * upstream bytes, `output` all public bytes, `early` whether a heartbeat preceded the first upstream byte.
   */
  datatype Proxy = Proxy(closed: bool, canEmitHeartbeat: bool, publicClosed: bool,
                         output: seq<byte>, forwarded: seq<byte>, early: bool)

  const OPENED := Proxy(false, true, false, [], [], false)

  datatype Action = Tick | Chunk(chunk: seq<byte>) | Done | Failed | Abort | Settled | ConsumerCancel

  function Step(p: Proxy, a: Action): Proxy {
    match a
    case Tick =>
      if p.closed || !p.canEmitHeartbeat then p
      else if p.publicClosed then p.(closed := true)
      else p.(output := p.output + HEARTBEAT, early := p.early || p.forwarded == [])
    case Chunk(chunk) =>
      var q := if chunk == [] then p else p.(canEmitHeartbeat := EndsWithFrameBoundary(chunk));
      if p.publicClosed then q.(closed := true)
      else q.(output := p.output + chunk, forwarded := p.forwarded + chunk)
    case Done => if p.closed then p else p.(closed := true, publicClosed := true)
    case Failed => if p.closed then p else p.(closed := true, publicClosed := true)
    case Abort => p.(closed := true)
    case Settled => if p.closed then p.(publicClosed := true) else p
    case ConsumerCancel => p.(closed := true, publicClosed := true)
  }

  function Run(p: Proxy, actions: seq<Action>): Proxy {
    if actions == [] then p else Step(Run(p, actions[..|actions| - 1]), actions[|actions| - 1])
  }

  // ---- a frame boundary leaves the parser with nothing pending ----

  lemma BoundaryIsBlank(r: Reader, chunk: seq<byte>)
    requires Proper(r) && EndsWithFrameBoundary(chunk)
    ensures Blank(FeedAll(r, chunk))
  {
    var n := |chunk|;
    var q := FeedAll(r, chunk[..n - 2]);
    assert chunk == chunk[..n - 2] + [chunk[n - 2], chunk[n - 1]];
    FeedAppend(r, chunk[..n - 2], [chunk[n - 2], chunk[n - 1]]);
    FeedTwo(q, chunk[n - 2], chunk[n - 1]);
    if chunk[n - 2] == LF {
      DispatchLeavesBlank(Feed(q, LF).source);
    } else {
      assert chunk[..n - 2] == chunk[..n - 4] + [CR, LF];
      FeedAppend(r, chunk[..n - 4], [CR, LF]);
      FeedTwo(FeedAll(r, chunk[..n - 4]), CR, LF);
      assert q.line == [];
      DispatchLeavesBlank(q.source);
    }
  }

  /** A heartbeat is a comment and a blank line: it changes nothing for a parser that has nothing pending. */
  lemma HeartbeatIsInvisible(r: Reader)
    requires Blank(r)
    ensures FeedAll(r, HEARTBEAT) == r
  {
    var comment := Ascii(": heartbeat");
    assert HEARTBEAT == comment + [LF, LF];
    assert LF !in comment && CR !in comment;
    FeedAppend(r, comment, [LF, LF]);
    FeedText(r, comment);
    assert r.line + comment == comment;
    var q := FeedAll(r, comment);
    assert q == Reader(r.source, comment, false);
    FeedTwo(q, LF, LF);
    assert comment[0] == COLON;
    assert Line(r.source, comment) == r.source;
  }

  // ---- every schedule ----

  function Body(bytes: seq<byte>): seq<byte> {
    if HasBom(bytes) then bytes[3..] else bytes
  }

  /** Enough of both streams is there, and the same, to settle whether they start with a byte order mark. */
  ghost predicate SameStart(a: seq<byte>, b: seq<byte>) {
    && a != [] && b != [] && a[0] == b[0]
    && (a[0] != BOM[0] || (|a| >= 3 && |b| >= 3 && a[..3] == b[..3]))
  }

  ghost predicate SameReading(a: seq<byte>, b: seq<byte>) {
    FeedAll(START, a) == FeedAll(START, b)
  }

  ghost predicate Inv(p: Proxy) {
    && (p.canEmitHeartbeat && !p.publicClosed ==> p.forwarded == [] || EndsWithFrameBoundary(p.forwarded))
    && (p.early ==> HEARTBEAT <= p.output && SameReading(p.output, p.forwarded))
    && (!p.early && p.output != p.forwarded ==>
          SameStart(p.output, p.forwarded) && SameReading(Body(p.output), Body(p.forwarded)))
  }

  lemma BodyExtends(a: seq<byte>, b: seq<byte>, tail: seq<byte>)
    requires SameStart(a, b)
    ensures SameStart(a + tail, b) && SameStart(a + tail, b + tail)
    ensures Body(a + tail) == Body(a) + tail && Body(b + tail) == Body(b) + tail
  {
    if |a| >= 3 {
      assert (a + tail)[..3] == a[..3];
    }
    if |b| >= 3 {
      assert (b + tail)[..3] == b[..3];
    }
    if HasBom(a) {
      assert (a + tail)[3..] == a[3..] + tail;
      assert (b + tail)[3..] == b[3..] + tail;
    }
  }

  lemma BoundaryGrows(front: seq<byte>, chunk: seq<byte>)
    requires EndsWithFrameBoundary(chunk)
    ensures EndsWithFrameBoundary(front + chunk)
  {
  }

  lemma ReadingExtends(a: seq<byte>, b: seq<byte>, tail: seq<byte>)
    requires SameReading(a, b)
    ensures SameReading(a + tail, b + tail)
  {
    FeedAppend(START, a, tail);
    FeedAppend(START, b, tail);
  }

  lemma HeartbeatExtends(a: seq<byte>, b: seq<byte>)
    requires SameReading(a, b) && Blank(FeedAll(START, b))
    ensures SameReading(a + HEARTBEAT, b)
  {
    FeedAppend(START, a, HEARTBEAT);
    HeartbeatIsInvisible(FeedAll(START, a));
  }

  lemma BodyIsBlank(bytes: seq<byte>)
    requires bytes == [] || EndsWithFrameBoundary(bytes)
    ensures Blank(FeedAll(START, bytes)) && Blank(FeedAll(START, Body(bytes)))
  {
    if bytes != [] {
      BoundaryIsBlank(START, bytes);
      if HasBom(bytes) {
        assert bytes[0] == BOM[0] && bytes[1] == BOM[1] && bytes[2] == BOM[2];
        BoundaryIsBlank(START, bytes[3..]);
      }
    }
  }

  lemma TickKeepsInv(p: Proxy)
    requires Inv(p)
    ensures Inv(Step(p, Tick))
  {
    var q := Step(p, Tick);
    if q.output != p.output {
      BodyIsBlank(p.forwarded);
      if q.early {
        HeartbeatExtends(p.output, p.forwarded);
        if !p.early {
          assert p.output + HEARTBEAT == HEARTBEAT;
        }
      } else {
        if p.output == p.forwarded {
          assert SameStart(p.output, p.forwarded);
        }
        BodyExtends(p.output, p.forwarded, HEARTBEAT);
        HeartbeatExtends(Body(p.output), Body(p.forwarded));
      }
    }
  }

  lemma ChunkKeepsInv(p: Proxy, chunk: seq<byte>)
    requires Inv(p)
    ensures Inv(Step(p, Chunk(chunk)))
  {
    if chunk == [] {
      assert p.output + chunk == p.output && p.forwarded + chunk == p.forwarded;
    } else if !p.publicClosed {
      if EndsWithFrameBoundary(chunk) {
        BoundaryGrows(p.forwarded, chunk);
      }
      if p.early {
        ReadingExtends(p.output, p.forwarded, chunk);
      } else if p.output != p.forwarded {
        BodyExtends(p.output, p.forwarded, chunk);
        ReadingExtends(Body(p.output), Body(p.forwarded), chunk);
      }
    }
  }

  lemma {:induction false} RunKeepsInv(actions: seq<Action>)
    ensures Inv(Run(OPENED, actions))
  {
    if actions != [] {
      hide SameReading, SameStart, Body, EndsWithFrameBoundary;
      var p := Run(OPENED, actions[..|actions| - 1]);
      RunKeepsInv(actions[..|actions| - 1]);
      match actions[|actions| - 1]
      case Tick => TickKeepsInv(p);
      case Chunk(chunk) => ChunkKeepsInv(p, chunk);
      case _ =>
    }
  }

  /**
   * Whatever the chunks and however the timer falls between them, a page interprets the proxied stream exactly as
   * it would have interpreted the upstream bytes; a heartbeat before the first byte only costs those bytes the byte
   * order mark rule.
   */
  lemma HeartbeatsAreInvisible(actions: seq<Action>)
    ensures var p := Run(OPENED, actions);
            Parse(p.output) == if p.early then Raw(p.forwarded) else Parse(p.forwarded)
    ensures var p := Run(OPENED, actions);
            !HasBom(p.forwarded) ==> Parse(p.output) == Parse(p.forwarded)
  {
    var p := Run(OPENED, actions);
    RunKeepsInv(actions);
    RawIsReading(p.output);
    RawIsReading(p.forwarded);
    RawIsReading(Body(p.output));
    RawIsReading(Body(p.forwarded));
    if p.early {
      assert p.output[0] == HEARTBEAT[0] == COLON;
      BomFirst(p.output);
    }
  }

  // ---- what was forwarded ----

  function Received(actions: seq<Action>): seq<byte> {
    if actions == [] then []
    else
      var last := actions[|actions| - 1];
      Received(actions[..|actions| - 1]) + if last.Chunk? then last.chunk else []
  }

  /** The proxy forwards what it received, in order and without a gap, until the public stream is closed. */
  lemma {:induction false} ForwardsInOrder(actions: seq<Action>)
    ensures Run(OPENED, actions).forwarded <= Received(actions)
    ensures !Run(OPENED, actions).publicClosed ==> Run(OPENED, actions).forwarded == Received(actions)
  {
    if actions != [] {
      ForwardsInOrder(actions[..|actions| - 1]);
    }
  }

  /** The last chunk that had any bytes. */
  function LastChunk(actions: seq<Action>): seq<byte> {
    if actions == [] then []
    else
      var last := actions[|actions| - 1];
      if last.Chunk? && last.chunk != [] then last.chunk else LastChunk(actions[..|actions| - 1])
  }

  lemma {:induction false} GateFollowsLastChunk(actions: seq<Action>)
    ensures var p := Run(OPENED, actions);
            && (p.canEmitHeartbeat <==> LastChunk(actions) == [] || EndsWithFrameBoundary(LastChunk(actions)))
            && (p.publicClosed ==> p.closed)
  {
    if actions != [] {
      hide EndsWithFrameBoundary;
      GateFollowsLastChunk(actions[..|actions| - 1]);
    }
  }

  /** While the stream is open, a timer sends a heartbeat exactly where the last bytes ended a frame, or none came yet. */
  lemma QuietStreamGetsHeartbeats(actions: seq<Action>)
    requires !Run(OPENED, actions).closed
    ensures Run(OPENED, actions + [Tick]).output
            == Run(OPENED, actions).output + if LastChunk(actions) == [] || EndsWithFrameBoundary(LastChunk(actions)) then HEARTBEAT else []
  {
    GateFollowsLastChunk(actions);
    assert (actions + [Tick])[..|actions|] == actions;
  }

  // ---- the end of the stream ----

  /** The upstream ended or failed before any abort, an abort was followed by its settlement, or the consumer cancelled. */
  ghost predicate Ends(actions: seq<Action>) {
    || (exists i :: 0 <= i < |actions| && actions[i] == ConsumerCancel)
    || (exists i :: 0 <= i < |actions| && (actions[i] == Done || actions[i] == Failed) && Abort !in actions[..i])
    || (exists i, j :: 0 <= i < j < |actions| && actions[i] == Abort && actions[j] == Settled)
  }

  lemma EndsOnce(actions: seq<Action>, a: Action)
    ensures Ends(actions + [a]) <==>
            || Ends(actions)
            || a == ConsumerCancel
            || ((a == Done || a == Failed) && Abort !in actions)
            || (a == Settled && Abort in actions)
  {
    var more, n := actions + [a], |actions|;
    assert more[..n] == actions && more[n] == a;
    assert forall i :: 0 <= i < n ==> more[i] == actions[i] && more[..i] == actions[..i];
    if Ends(more) && !Ends(actions) {
      if i :| 0 <= i < |more| && more[i] == ConsumerCancel {
        assert i == n;
      } else if i :| 0 <= i < |more| && (more[i] == Done || more[i] == Failed) && Abort !in more[..i] {
        assert i == n;
      } else {
        var i, j :| 0 <= i < j < |more| && more[i] == Abort && more[j] == Settled;
        assert j == n;
      }
    }
    EndsLater(actions, a);
  }

  lemma EndsLater(actions: seq<Action>, a: Action)
    ensures Ends(actions) ==> Ends(actions + [a])
    ensures a == Settled && Abort in actions ==> Ends(actions + [a])
  {
    var more, n := actions + [a], |actions|;
    assert more[n] == a;
    if i :| 0 <= i < n && actions[i] == ConsumerCancel {
      assert more[i] == ConsumerCancel;
    }
    if i :| 0 <= i < n && (actions[i] == Done || actions[i] == Failed) && Abort !in actions[..i] {
      assert more[i] == actions[i] && more[..i] == actions[..i];
    }
    if i, j :| 0 <= i < j < n && actions[i] == Abort && actions[j] == Settled {
      assert more[i] == Abort && more[j] == Settled;
    }
    if i :| 0 <= i < n && actions[i] == Abort {
      assert more[i] == Abort;
    }
  }

  /**
   * In every run the public stream is closed exactly when the stream has ended; and the closure considers itself finished
   * exactly then, or once the request was aborted.
   */
  lemma {:induction false} ClosedIff(actions: seq<Action>)
    ensures Run(OPENED, actions).publicClosed <==> Ends(actions)
    ensures Run(OPENED, actions).closed <==> Ends(actions) || Abort in actions
  {
    if actions != [] {
      hide Ends, EndsWithFrameBoundary;
      var front, last := actions[..|actions| - 1], actions[|actions| - 1];
      assert actions == front + [last];
      ClosedIff(front);
      EndsOnce(front, last);
    } else {
      assert !Ends(actions);
    }
  }

  /** What was received is complete when the upstream ends: all of it went out, and the client sees the end. */
  lemma UpstreamEndIsPublicEnd(actions: seq<Action>, last: Action)
    requires !Run(OPENED, actions).closed && (last == Done || last == Failed)
    ensures var p := Run(OPENED, actions + [last]);
            && p.closed && p.publicClosed
            && p.forwarded == Received(actions) && p.output == Run(OPENED, actions).output
  {
    hide EndsWithFrameBoundary;
    var front := actions + [last];
    assert front[..|front| - 1] == actions;
    GateFollowsLastChunk(actions);
    ForwardsInOrder(actions);
  }

  /** Once the public stream is closed it stays closed, and not a byte is written to it. */
  lemma {:induction false} NothingAfterTheEnd(actions: seq<Action>, later: seq<Action>)
    requires Run(OPENED, actions).publicClosed
    ensures var p, q := Run(OPENED, actions), Run(OPENED, actions + later);
            q.publicClosed && q.closed && q.output == p.output && q.forwarded == p.forwarded
  {
    hide EndsWithFrameBoundary;
    if later == [] {
      assert actions + later == actions;
      GateFollowsLastChunk(actions);
    } else {
      var front := later[..|later| - 1];
      NothingAfterTheEnd(actions, front);
      assert (actions + later)[..|actions + later| - 1] == actions + front;
    }
  }

  /** After an abort no further heartbeat is sent. */
  lemma NoHeartbeatAfterAbort(actions: seq<Action>)
    requires Abort in actions
    ensures Run(OPENED, actions + [Tick]) == Run(OPENED, actions)
  {
    ClosedIff(actions);
    assert (actions + [Tick])[..|actions|] == actions;
  }

  // ---- the closure ----

  /** The variables that the timer and the pump share. */
  class ResponseStream {
    var closed: bool
    var canEmitHeartbeat: bool
    var publicClosed: bool
    var output: seq<byte>
    ghost var forwarded: seq<byte>
    ghost var early: bool

    ghost function State(): Proxy
      reads this
    {
      Proxy(closed, canEmitHeartbeat, publicClosed, output, forwarded, early)
    }

    constructor ()
      ensures State() == OPENED
    {
      closed, canEmitHeartbeat, publicClosed, output, forwarded, early := false, true, false, [], [], false;
    }

    method Finish() returns (first: bool)
      modifies this`closed
      ensures closed && first == !old(closed)
    {
      if closed {
        return false;
      }
      closed := true;
      return true;
    }

    /** `target.enqueue`, which throws once the public stream is closed. */
    method Enqueue(bytes: seq<byte>) returns (ok: bool)
      modifies this`output
      ensures ok == !publicClosed
      ensures output == if ok then old(output) + bytes else old(output)
    {
      if publicClosed {
        return false;
      }
      output := output + bytes;
      return true;
    }

    method OnTimer()
      modifies this
      ensures State() == Step(old(State()), Tick)
    {
      if closed || !canEmitHeartbeat {
        return;
      }
      var ok := Enqueue(HEARTBEAT);
      if ok {
        early := early || forwarded == [];
      } else {
        var first := Finish();
      }
    }

    /** One round of the pump loop, with a chunk; `running` is false when the loop has ended. */
    method OnChunk(chunk: seq<byte>) returns (running: bool)
      modifies this
      ensures State() == Step(old(State()), Chunk(chunk))
      ensures running == !publicClosed
    {
      if |chunk| > 0 {
        canEmitHeartbeat := EndsWithFrameBoundary(chunk);
      }
      running := Enqueue(chunk);
      if running {
        forwarded := forwarded + chunk;
      } else {
        var first := Finish();
      }
    }

    method OnUpstreamDone()
      modifies this
      ensures State() == Step(old(State()), Done)
      ensures !old(closed) ==> publicClosed
    {
      var first := Finish();
      if first {
        publicClosed := true;
      }
    }

    method OnUpstreamError()
      modifies this
      ensures State() == Step(old(State()), Failed)
      ensures !old(closed) ==> publicClosed
    {
      var first := Finish();
      if first {
        publicClosed := true;
      }
    }

    /** The client's request is aborted: the upstream is cancelled, and the public stream waits for that to settle. */
    method OnAbort()
      modifies this
      ensures State() == Step(old(State()), Abort)
    {
      var first := Finish();
    }

    method OnCancellationSettled()
      modifies this
      ensures State() == Step(old(State()), Settled)
    {
      if closed {
        publicClosed := true;
      }
    }
  }
}
