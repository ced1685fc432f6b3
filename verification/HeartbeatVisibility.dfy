/**
 * The one way a heartbeat can show: in front of an upstream that starts with a byte order mark. When that is, and when a
 * page notices.
 */
module HeartbeatVisibility {
  import opened Records
  import opened Lists
  import opened EventStream
  import opened HeartbeatProxy

  // ---- what one line does ----

  function FieldName(line: seq<byte>): seq<byte> { line[..IndexOf(line, COLON)] }

  function FieldValue(line: seq<byte>): seq<byte> {
    var i := IndexOf(line, COLON);
    var value := if i < |line| then line[i + 1..] else [];
    if value != [] && value[0] == SPACE then value[1..] else value
  }

  predicate IsField(line: seq<byte>, name: seq<byte>) {
    line != [] && line[0] != COLON && FieldName(line) == name
  }

  predicate DataField(line: seq<byte>) { IsField(line, Ascii("data")) }

  predicate EventField(line: seq<byte>) { IsField(line, Ascii("event")) }

  predicate IdField(line: seq<byte>) { IsField(line, Ascii("id")) && 0 !in FieldValue(line) }

  predicate RetryField(line: seq<byte>) { IsField(line, Ascii("retry")) && Digits(FieldValue(line)) }

  /** A line that changes an interpretation that has nothing yet: a field that is known, and given a value that counts. */
  predicate Effective(line: seq<byte>) {
    || DataField(line)
    || (EventField(line) && FieldValue(line) != [])
    || (IdField(line) && FieldValue(line) != [])
    || RetryField(line)
  }

  lemma FieldNames()
    ensures Ascii("data")[0] == 100 && Ascii("event")[0] == 101 && Ascii("id")[0] == 105 && Ascii("retry")[0] == 114
    ensures |Ascii("data")| == 4 && |Ascii("event")| == 5 && |Ascii("id")| == 2 && |Ascii("retry")| == 5
  {
  }

  lemma FieldIsNotBlank(line: seq<byte>)
    ensures DataField(line) || EventField(line) || IdField(line) || RetryField(line) ==> line != []
  {
  }

  /** What a line that is not blank does. */
  lemma LineCases(s: Source, line: seq<byte>)
    requires line != []
    ensures Line(s, line) == if DataField(line) then s.(data := s.data + FieldValue(line) + [LF])
                             else if EventField(line) then s.(kind := FieldValue(line))
                             else if IdField(line) then s.(id := FieldValue(line))
                             else if RetryField(line) then s.(reconnection := Some(Decimal(FieldValue(line))))
                             else s
    ensures DataField(line) ==> !EventField(line) && !IdField(line)
    ensures EventField(line) ==> !IdField(line)
  {
    FieldNames();
  }

  lemma EffectiveLineChanges(line: seq<byte>)
    ensures Effective(line) <==> Line(FRESH_SOURCE, line) != FRESH_SOURCE
  {
    if line != [] {
      LineCases(FRESH_SOURCE, line);
    }
  }

  /** With the mark in front of it, any line is a field of an unknown name. */
  lemma MarkedLineIsIgnored(s: Source, line: seq<byte>)
    ensures Line(s, BOM + line) == s
  {
    var marked := BOM + line;
    assert marked[0] == 0xEF;
    var i := IndexOf(marked, COLON);
    assert i >= 1 && marked[..i][0] == 0xEF;
    assert Ascii("event")[0] == 101 && Ascii("data")[0] == 100 && Ascii("id")[0] == 105 && Ascii("retry")[0] == 114;
  }

  lemma {:induction false} MarkedLines(rest: seq<byte>)
    ensures LineEnd(BOM + rest) == 3 + LineEnd(rest)
    ensures Lines(BOM + rest) == if Lines(rest) == [] then [] else [BOM + Lines(rest)[0]] + Lines(rest)[1..]
  {
    var marked, i := BOM + rest, LineEnd(rest);
    MarkedLineEnd(rest);
    hide LineEnd, Lines;
    FirstAndOthers(rest);
    FirstAndOthers(marked);
    if i < |rest| {
      var skip := if rest[i] == CR && i + 1 < |rest| && rest[i + 1] == LF then 2 else 1;
      assert marked[..3 + i] == BOM + rest[..i];
      assert marked[3 + i + skip..] == rest[i + skip..];
      assert ([rest[..i]] + Lines(rest[i + skip..]))[1..] == Lines(rest[i + skip..]);
    }
  }

  lemma {:induction false} MarkedLineEnd(rest: seq<byte>)
    ensures LineEnd(BOM + rest) == 3 + LineEnd(rest)
  {
    assert LineEnd([0xBF] + rest) == 1 + LineEnd(rest) by {
      assert ([0xBF] + rest)[1..] == rest;
    }
    assert LineEnd([0xBB, 0xBF] + rest) == 2 + LineEnd(rest) by {
      assert ([0xBB, 0xBF] + rest)[1..] == [0xBF] + rest;
    }
    assert (BOM + rest)[1..] == [0xBB, 0xBF] + rest;
  }

  lemma {:induction false} FirstAndOthers(bytes: seq<byte>)
    ensures var i := LineEnd(bytes);
            Lines(bytes) == if i == |bytes| then []
                            else
                              var skip := if bytes[i] == CR && i + 1 < |bytes| && bytes[i + 1] == LF then 2 else 1;
                              [bytes[..i]] + Lines(bytes[i + skip..])
  {
  }

  /** A mark that is not dropped costs the stream exactly its first line. */
  lemma MarkHidesFirstLine(rest: seq<byte>)
    ensures Raw(BOM + rest) == if Lines(rest) == [] then FRESH_SOURCE else Interpret(FRESH_SOURCE, Lines(rest)[1..])
  {
    MarkedLines(rest);
    if Lines(rest) != [] {
      MarkedLineIsIgnored(FRESH_SOURCE, Lines(rest)[0]);
      assert ([BOM + Lines(rest)[0]] + Lines(rest)[1..])[1..] == Lines(rest)[1..];
    }
  }

  /** The first line that the upstream completes after its mark. */
  predicate FirstLineMatters(upstream: seq<byte>) {
    && HasBom(upstream)
    && Lines(upstream[3..]) != []
    && Effective(Lines(upstream[3..])[0])
  }

  lemma WithoutEffect(bytes: seq<byte>)
    requires HasBom(bytes) && !FirstLineMatters(bytes)
    ensures Raw(bytes) == Raw(bytes[3..])
  {
    var rest := bytes[3..];
    assert bytes == BOM + rest;
    MarkHidesFirstLine(rest);
    if Lines(rest) != [] {
      EffectiveLineChanges(Lines(rest)[0]);
    }
  }

  lemma {:induction false} FirstLineIs(bytes: seq<byte>)
    ensures Lines(bytes) != [] <==> LineEnd(bytes) < |bytes|
    ensures Lines(bytes) != [] ==> Lines(bytes)[0] == bytes[..LineEnd(bytes)]
  {
  }

  lemma {:induction false} LineEndOfPrefix(a: seq<byte>, b: seq<byte>)
    requires a <= b
    ensures LineEnd(a) < |a| ==> LineEnd(b) == LineEnd(a)
  {
    if a != [] && a[0] != LF && a[0] != CR {
      LineEndOfPrefix(a[1..], b[1..]);
    }
  }

  /** If no first line matters, neither does one of what has arrived so far. */
  lemma PrefixMatters(part: seq<byte>, upstream: seq<byte>)
    requires part <= upstream && FirstLineMatters(part)
    ensures FirstLineMatters(upstream)
  {
    assert upstream[..3] == part[..3];
    var a, b := part[3..], upstream[3..];
    FirstLineIs(a);
    FirstLineIs(b);
    hide Effective, Lines, LineEnd;
    assert a <= b;
    LineEndOfPrefix(a, b);
    assert a[..LineEnd(a)] == b[..LineEnd(a)];
  }

  /**
   * On which streams a heartbeat can, at some moment, leave a parser in another state, what it has pending included:
   * exactly on those that start with a byte order mark whose first line is a known field with a value that counts.
   */
  lemma StateDiffersOnlyAfterTheMark(upstream: seq<byte>)
    ensures (forall actions :: Run(OPENED, actions).forwarded <= upstream
                               ==> Parse(Run(OPENED, actions).output) == Parse(Run(OPENED, actions).forwarded))
            <==> !FirstLineMatters(upstream)
  {
    hide Run, Parse, LineEnd, Effective, Lines;
    if FirstLineMatters(upstream) {
      FirstLineIsLost(upstream);
      var schedule := [Tick, Chunk(upstream[..4 + LineEnd(upstream[3..])])];
      assert Run(OPENED, schedule).forwarded <= upstream;
      assert Parse(Run(OPENED, schedule).output) != Parse(Run(OPENED, schedule).forwarded);
    } else {
      forall actions | Run(OPENED, actions).forwarded <= upstream
        ensures Parse(Run(OPENED, actions).output) == Parse(Run(OPENED, actions).forwarded)
      {
        NothingIsLost(actions, upstream);
      }
    }
  }

  lemma NothingIsLost(actions: seq<Action>, upstream: seq<byte>)
    requires Run(OPENED, actions).forwarded <= upstream && !FirstLineMatters(upstream)
    ensures Parse(Run(OPENED, actions).output) == Parse(Run(OPENED, actions).forwarded)
  {
    var part := Run(OPENED, actions).forwarded;
    HeartbeatsAreInvisible(actions);
    hide Run, FirstLineMatters, Lines;
    if FirstLineMatters(part) {
      PrefixMatters(part, upstream);
    } else if HasBom(part) {
      WithoutEffect(part);
    }
  }

  /** A heartbeat, and then the mark and that line in one chunk. */
  lemma {:induction false} FirstLineIsLost(upstream: seq<byte>)
    requires FirstLineMatters(upstream)
    ensures LineEnd(upstream[3..]) < |upstream| - 3
    ensures var part := upstream[..4 + LineEnd(upstream[3..])];
            var p := AfterHeartbeat(part);
            p.forwarded == part && Parse(p.output) == FRESH_SOURCE != Parse(part)
  {
    hide Effective, Lines, Line, Run, Raw, Parse, LineEnd;
    var rest := upstream[3..];
    FirstLineIs(rest);
    var i := LineEnd(rest);
    var part, line := upstream[..4 + i], rest[..i];
    assert part == BOM + (line + [rest[i]]) by {
      assert upstream == upstream[..3] + rest;
    }
    MarkedLineAlone(line, rest[i]);
    TickThenChunk(part);
    HeartbeatsAreInvisible([Tick, Chunk(part)]);
  }

  lemma {:induction false} MarkedLineAlone(line: seq<byte>, end: byte)
    requires LF !in line && CR !in line && (end == LF || end == CR) && Effective(line)
    ensures Raw(BOM + (line + [end])) == FRESH_SOURCE != Parse(BOM + (line + [end]))
  {
    var part := BOM + (line + [end]);
    assert part[..3] == BOM && part[3..] == line + [end];
    OneLine(line, end);
    MarkHidesFirstLine(line + [end]);
    EffectiveLineChanges(line);
    hide Effective, Line, Raw;
  }

  lemma {:induction false} OneLine(line: seq<byte>, end: byte)
    requires LF !in line && CR !in line && (end == LF || end == CR)
    ensures Lines(line + [end]) == [line] && Raw(line + [end]) == Line(FRESH_SOURCE, line)
  {
    var bytes := line + [end];
    assert LineEnd(bytes) == |line| by {
      assert bytes[|line|] == end;
      assert forall j :: 0 <= j < |line| ==> bytes[j] == line[j];
    }
    assert bytes[..|line|] == line && bytes[|line| + 1..] == [];
    assert Lines([]) == [];
    var lines := [line];
    assert lines[1..] == [] && Interpret(FRESH_SOURCE, lines) == Interpret(Line(FRESH_SOURCE, line), []);
  }

  lemma TickThenChunk(upstream: seq<byte>)
    ensures Run(OPENED, [Tick, Chunk(upstream)]).forwarded == upstream
    ensures Run(OPENED, [Tick, Chunk(upstream)]).early
  {
    var schedule := [Tick, Chunk(upstream)];
    assert schedule[..1] == [Tick];
    assert [Tick][..0] == [];
    assert Run(OPENED, [Tick]) == Step(Run(OPENED, []), Tick);
  }

  // ---- what a page observes ----

  /** The events that were dispatched, the last event id and the reconnection time; nothing that is still pending. */
  datatype Seen = Seen(events: seq<Event>, lastEventId: seq<byte>, reconnection: Option<nat>)

  function SeenOf(s: Source): Seen {
    Seen(s.events, s.lastEventId, s.reconnection)
  }

  function BlankLine(): seq<byte> -> bool { line => line == [] }

  function BlankOrId(): seq<byte> -> bool { line => line == [] || IdField(line) }

  function BlankOrEvent(): seq<byte> -> bool { line => line == [] || EventField(line) }

  /**
   * A page notices that `line` is missing in front of `tail`: a retry field at once, data at the next blank line, an id
   * if a blank line comes before the next id, and a type other than the default if the next blank line dispatches some
   * data before the type is set again.
   */
  predicate Noticed(line: seq<byte>, tail: seq<seq<byte>>) {
    || RetryField(line)
    || (DataField(line) && [] in tail)
    || (IdField(line) && FieldValue(line) != []
        && var b := Find(tail, BlankOrId()); b < |tail| && tail[b] == [])
    || (EventField(line) && FieldValue(line) != [] && FieldValue(line) != Ascii("message")
        && var b := Find(tail, BlankOrEvent());
           b < |tail| && tail[b] == [] && exists i :: 0 <= i < b && DataField(tail[i]))
  }

  lemma {:induction false} InterpretAppend(s: Source, a: seq<seq<byte>>, b: seq<seq<byte>>)
    ensures Interpret(s, a + b) == Interpret(Interpret(s, a), b)
    decreases |a|
  {
    if a == [] {
      assert a + b == b;
    } else {
      InterpretAppend(Line(s, a[0]), a[1..], b);
      assert (a + b)[1..] == a[1..] + b;
    }
  }

  /** Without a blank line nothing is dispatched; data is gathered line by line. */
  lemma {:induction false} Gathers(s: Source, lines: seq<seq<byte>>)
    requires [] !in lines && (s.data == [] || s.data[|s.data| - 1] == LF)
    ensures var t := Interpret(s, lines);
            && t.events == s.events && t.lastEventId == s.lastEventId
            && (t.data == [] || t.data[|t.data| - 1] == LF)
            && (t.data == [] <==> s.data == [] && forall i :: 0 <= i < |lines| ==> !DataField(lines[i]))
    decreases |lines|
  {
    if lines != [] {
      hide Line, DataField, EventField, IdField, RetryField, FieldValue;
      LineCases(s, lines[0]);
      Gathers(Line(s, lines[0]), lines[1..]);
      assert forall i :: 0 < i < |lines| ==> lines[i] == lines[1..][i - 1];
      assert forall i :: 0 <= i < |lines| - 1 ==> lines[1..][i] == lines[i + 1];
    }
  }

  lemma {:induction false} DataAhead(s: Source, d: seq<byte>, lines: seq<seq<byte>>)
    requires [] !in lines
    ensures Interpret(s.(data := d + s.data), lines) == Interpret(s, lines).(data := d + Interpret(s, lines).data)
    decreases |lines|
  {
    if lines != [] {
      hide Line, DataField, EventField, IdField, RetryField, FieldValue;
      LineCases(s, lines[0]);
      LineCases(s.(data := d + s.data), lines[0]);
      assert d + s.data + FieldValue(lines[0]) + [LF] == d + (s.data + FieldValue(lines[0]) + [LF]);
      DataAhead(Line(s, lines[0]), d, lines[1..]);
    }
  }

  lemma {:induction false} KindAhead(s: Source, kind: seq<byte>, lines: seq<seq<byte>>)
    requires forall i :: 0 <= i < |lines| ==> lines[i] != [] && !EventField(lines[i])
    ensures Interpret(s.(kind := kind), lines) == Interpret(s, lines).(kind := kind) && Interpret(s, lines).kind == s.kind
    decreases |lines|
  {
    if lines != [] {
      hide Line, DataField, EventField, IdField, RetryField, FieldValue;
      LineCases(s, lines[0]);
      LineCases(s.(kind := kind), lines[0]);
      KindAhead(Line(s, lines[0]), kind, lines[1..]);
    }
  }

  lemma {:induction false} IdAhead(s: Source, id: seq<byte>, lines: seq<seq<byte>>)
    requires forall i :: 0 <= i < |lines| ==> lines[i] != [] && !IdField(lines[i])
    ensures Interpret(s.(id := id), lines) == Interpret(s, lines).(id := id) && Interpret(s, lines).id == s.id
    decreases |lines|
  {
    if lines != [] {
      hide Line, DataField, EventField, IdField, RetryField, FieldValue;
      LineCases(s, lines[0]);
      LineCases(s.(id := id), lines[0]);
      IdAhead(Line(s, lines[0]), id, lines[1..]);
    }
  }

  ghost predicate DiffersAt(line: seq<byte>, tail: seq<seq<byte>>, k: nat)
    requires k <= |tail|
  {
    SeenOf(Interpret(Line(FRESH_SOURCE, line), tail[..k])) != SeenOf(Interpret(FRESH_SOURCE, tail[..k]))
  }

  lemma {:induction false} OneMoreLine(s: Source, tail: seq<seq<byte>>, b: nat)
    requires b < |tail|
    ensures Interpret(s, tail[..b + 1]) == Line(Interpret(s, tail[..b]), tail[b])
  {
    assert tail[..b + 1] == tail[..b] + [tail[b]];
    InterpretAppend(s, tail[..b], [tail[b]]);
    var one := [tail[b]];
    assert one[1..] == [];
    assert Interpret(Interpret(s, tail[..b]), one) == Interpret(Line(Interpret(s, tail[..b]), tail[b]), []);
  }

  /** Once both interpretations agree they agree for good. */
  lemma {:induction false} AgreeFrom(line: seq<byte>, tail: seq<seq<byte>>, b: nat, k: nat)
    requires b <= k <= |tail|
    requires Interpret(Line(FRESH_SOURCE, line), tail[..b]) == Interpret(FRESH_SOURCE, tail[..b])
    ensures !DiffersAt(line, tail, k)
  {
    assert tail[..k] == tail[..b] + tail[b..k];
    InterpretAppend(Line(FRESH_SOURCE, line), tail[..b], tail[b..k]);
    InterpretAppend(FRESH_SOURCE, tail[..b], tail[b..k]);
  }

  // ---- data ----

  lemma DataShows(line: seq<byte>, tail: seq<seq<byte>>, k: nat)
    requires DataField(line) && k <= |tail|
    ensures [] !in tail[..k] ==> !DiffersAt(line, tail, k)
    ensures k > 0 && [] !in tail[..k - 1] && tail[k - 1] == [] ==> DiffersAt(line, tail, k)
  {
    hide Interpret, Line, DataField, FieldValue;
    var d := FieldValue(line) + [LF];
    FieldIsNotBlank(line);
    LineCases(FRESH_SOURCE, line);
    assert [] + FieldValue(line) + [LF] == d && d + [] == d;
    if [] !in tail[..k] {
      DataAhead(FRESH_SOURCE, d, tail[..k]);
    } else if [] !in tail[..k - 1] && tail[k - 1] == [] {
      var s := Interpret(FRESH_SOURCE, tail[..k - 1]);
      DataAhead(FRESH_SOURCE, d, tail[..k - 1]);
      Gathers(FRESH_SOURCE, tail[..k - 1]);
      OneMoreLine(FRESH_SOURCE, tail, k - 1);
      OneMoreLine(Line(FRESH_SOURCE, line), tail, k - 1);
      BlankDispatches(s);
      BlankDispatches(s.(data := d + s.data));
      DispatchedDataDiffers(s, d);
    }
  }

  lemma BlankDispatches(s: Source)
    ensures Line(s, []) == Dispatch(s)
  {
  }

  lemma DispatchedDataDiffers(s: Source, d: seq<byte>)
    requires d != [] && d[|d| - 1] == LF && (s.data == [] || s.data[|s.data| - 1] == LF)
    ensures Dispatch(s.(data := d + s.data)).events != Dispatch(s).events
  {
    var all := d + s.data;
    assert all[|all| - 1] == LF;
    var t := Dispatch(s.(data := all));
    assert t.events[|s.events|].data == all[..|all| - 1];
    if s.data != [] {
      assert Dispatch(s).events[|s.events|].data == s.data[..|s.data| - 1];
      assert |all[..|all| - 1]| > |s.data[..|s.data| - 1]|;
    }
  }

  // ---- ids ----

  lemma IdShows(line: seq<byte>, tail: seq<seq<byte>>, k: nat)
    requires IdField(line) && FieldValue(line) != [] && k <= |tail|
    ensures var b := Find(tail, BlankOrId());
            && (b < |tail| && tail[b] == [] && k == b + 1 ==> DiffersAt(line, tail, k))
            && (!(b < |tail| && tail[b] == []) ==> !DiffersAt(line, tail, k))
  {
    hide Interpret, Line, IdField, FieldValue, DataField;
    var id, b := FieldValue(line), Find(tail, BlankOrId());
    FieldIsNotBlank(line);
    LineCases(FRESH_SOURCE, line);
    var m := if k <= b then k else b;
    IdAhead(FRESH_SOURCE, id, tail[..m]);
    if k > b {
      var s := Interpret(FRESH_SOURCE, tail[..b]);
      OneMoreLine(FRESH_SOURCE, tail, b);
      OneMoreLine(Line(FRESH_SOURCE, line), tail, b);
      if tail[b] == [] {
        BlankDispatches(s);
        BlankDispatches(s.(id := id));
      } else {
        LineCases(s, tail[b]);
        LineCases(s.(id := id), tail[b]);
        AgreeFrom(line, tail, b + 1, k);
      }
    }
  }

  // ---- event types ----

  /** Up to the next blank line or type, only the pending type differs. */
  lemma KindPending(line: seq<byte>, tail: seq<seq<byte>>, k: nat)
    requires EventField(line) && k <= Find(tail, BlankOrEvent())
    ensures var s := Interpret(FRESH_SOURCE, tail[..k]);
            && Interpret(Line(FRESH_SOURCE, line), tail[..k]) == s.(kind := FieldValue(line)) && s.kind == []
            && (s.data != [] <==> exists i :: 0 <= i < k && DataField(tail[i]))
  {
    hide Interpret, Line, EventField, FieldValue, DataField, IdField;
    FieldIsNotBlank(line);
    LineCases(FRESH_SOURCE, line);
    KindAhead(FRESH_SOURCE, FieldValue(line), tail[..k]);
    Gathers(FRESH_SOURCE, tail[..k]);
    assert forall i :: 0 <= i < k ==> tail[..k][i] == tail[i];
  }

  /** The blank line or type that comes next. */
  lemma KindSettled(line: seq<byte>, tail: seq<seq<byte>>, b: nat)
    requires EventField(line) && FieldValue(line) != [] && b == Find(tail, BlankOrEvent()) < |tail|
    ensures var dispatches := tail[b] == [] && FieldValue(line) != Ascii("message") && exists i :: 0 <= i < b && DataField(tail[i]);
            && (dispatches ==> DiffersAt(line, tail, b + 1))
            && (!dispatches ==> Interpret(Line(FRESH_SOURCE, line), tail[..b + 1]) == Interpret(FRESH_SOURCE, tail[..b + 1]))
  {
    hide Interpret, Line, EventField, FieldValue, DataField, IdField, RetryField, Ascii;
    var kind, s := FieldValue(line), Interpret(FRESH_SOURCE, tail[..b]);
    KindPending(line, tail, b);
    OneMoreLine(FRESH_SOURCE, tail, b);
    OneMoreLine(Line(FRESH_SOURCE, line), tail, b);
    if tail[b] == [] {
      BlankDispatches(s);
      BlankDispatches(s.(kind := kind));
      KindDispatches(s, kind);
    } else {
      LineCases(s, tail[b]);
      LineCases(s.(kind := kind), tail[b]);
    }
  }

  lemma KindShows(line: seq<byte>, tail: seq<seq<byte>>, k: nat)
    requires EventField(line) && FieldValue(line) != [] && k <= |tail|
    ensures var b := Find(tail, BlankOrEvent());
            var dispatches := b < |tail| && tail[b] == [] && FieldValue(line) != Ascii("message")
                              && exists i :: 0 <= i < b && DataField(tail[i]);
            && (dispatches && k == b + 1 ==> DiffersAt(line, tail, k))
            && (!dispatches ==> !DiffersAt(line, tail, k))
  {
    hide Interpret, Line, EventField, FieldValue, DataField, Ascii, BlankOrEvent, Find;
    var b := Find(tail, BlankOrEvent());
    if k <= b {
      KindNotYet(line, tail, k);
    } else {
      KindSettled(line, tail, b);
      hide DiffersAt;
      if Interpret(Line(FRESH_SOURCE, line), tail[..b + 1]) == Interpret(FRESH_SOURCE, tail[..b + 1]) {
        AgreeFrom(line, tail, b + 1, k);
      }
    }
  }

  lemma KindNotYet(line: seq<byte>, tail: seq<seq<byte>>, k: nat)
    requires EventField(line) && k <= Find(tail, BlankOrEvent())
    ensures !DiffersAt(line, tail, k)
  {
    hide Interpret, Line, EventField, FieldValue, DataField, BlankOrEvent, Find;
    KindPending(line, tail, k);
  }

  lemma KindDispatches(s: Source, kind: seq<byte>)
    requires s.kind == [] && kind != []
    ensures s.data == [] || kind == Ascii("message") ==> Dispatch(s.(kind := kind)) == Dispatch(s)
    ensures s.data != [] && kind != Ascii("message") ==> Dispatch(s.(kind := kind)).events != Dispatch(s).events
  {
    if s.data != [] {
      assert Dispatch(s.(kind := kind)).events[|s.events|].kind == kind;
      assert Dispatch(s).events[|s.events|].kind == Ascii("message");
    }
  }

  /** The condition is exact: it holds of a line if and only if a page can see the difference at some line of the tail. */
  lemma NoticedIff(line: seq<byte>, tail: seq<seq<byte>>)
    ensures Noticed(line, tail) <==> exists k: nat :: k <= |tail| && DiffersAt(line, tail, k)
  {
    hide DiffersAt, IdField, EventField, DataField, RetryField, FieldValue, Interpret, Line, Ascii;
    if Noticed(line, tail) {
      var k := NoticedAt(line, tail);
    } else {
      forall k: nat | k <= |tail| ensures !DiffersAt(line, tail, k) {
        NotNoticed(line, tail, k);
      }
    }
  }

  lemma NoticedAt(line: seq<byte>, tail: seq<seq<byte>>) returns (k: nat)
    requires Noticed(line, tail)
    ensures k <= |tail| && DiffersAt(line, tail, k)
  {
    hide IdField, EventField, DataField, RetryField, FieldValue, Line, Ascii, DiffersAt;
    if RetryField(line) {
      k := 0;
      RetryShows(line, tail);
    } else if DataField(line) && [] in tail {
      k := Find(tail, BlankLine()) + 1;
      assert [] in tail && [] !in tail[..k - 1] && tail[k - 1] == [];
      DataShows(line, tail, k);
    } else if IdField(line) && FieldValue(line) != [] && Find(tail, BlankOrId()) < |tail| && tail[Find(tail, BlankOrId())] == [] {
      k := Find(tail, BlankOrId()) + 1;
      IdShows(line, tail, k);
    } else {
      k := Find(tail, BlankOrEvent()) + 1;
      KindShows(line, tail, k);
    }
  }

  lemma RetryShows(line: seq<byte>, tail: seq<seq<byte>>)
    requires RetryField(line)
    ensures DiffersAt(line, tail, 0)
  {
    assert tail[..0] == [];
    hide RetryField, DataField, EventField, IdField, Line, FieldValue;
    FieldIsNotBlank(line);
    OneKind(line);
    LineCases(FRESH_SOURCE, line);
  }

  lemma OneKind(line: seq<byte>)
    ensures RetryField(line) ==> !DataField(line) && !EventField(line) && !IdField(line)
  {
    FieldNames();
  }

  lemma NotNoticed(line: seq<byte>, tail: seq<seq<byte>>, k: nat)
    requires !Noticed(line, tail) && k <= |tail|
    ensures !DiffersAt(line, tail, k)
  {
    hide IdField, EventField, DataField, RetryField, FieldValue, Line, Ascii, Interpret;
    if !Effective(line) {
      EffectiveLineChanges(line);
    } else if DataField(line) {
      DataShows(line, tail, k);
    } else if EventField(line) && FieldValue(line) != [] {
      KindShows(line, tail, k);
    } else {
      IdShows(line, tail, k);
    }
  }

  // ---- moments of a stream ----

  lemma {:induction false} LinesOfPrefix(part: seq<byte>, bytes: seq<byte>)
    requires part <= bytes
    ensures Lines(part) <= Lines(bytes)
    decreases |bytes|
  {
    hide Lines, LineEnd;
    FirstAndOthers(part);
    FirstAndOthers(bytes);
    var i := LineEnd(part);
    if i < |part| {
      LineEndOfPrefix(part, bytes);
      assert part[..i] == bytes[..i];
      if i + 1 == |part| {
        assert Lines([]) == [] by {
          FirstAndOthers([]);
        }
        assert part[i + 1..] == [];
      } else {
        var skip := if bytes[i] == CR && bytes[i + 1] == LF then 2 else 1;
        LinesOfPrefix(part[i + skip..], bytes[i + skip..]);
      }
    }
  }

  /** The moment at which exactly the first `n` lines are complete. */
  lemma {:induction false} LinesUpTo(bytes: seq<byte>, n: nat) returns (part: seq<byte>)
    requires n <= |Lines(bytes)|
    ensures part <= bytes && Lines(part) == Lines(bytes)[..n]
    decreases |bytes|
  {
    hide Lines, LineEnd;
    FirstAndOthers(bytes);
    if n == 0 {
      part := [];
      FirstAndOthers([]);
    } else {
      var i := LineEnd(bytes);
      var skip := if bytes[i] == CR && i + 1 < |bytes| && bytes[i + 1] == LF then 2 else 1;
      var rest := LinesUpTo(bytes[i + skip..], n - 1);
      part := bytes[..i + skip] + rest;
      assert bytes == bytes[..i + skip] + bytes[i + skip..];
      assert part <= bytes;
      LineEndKept(bytes, part);
      FirstAndOthers(part);
      assert part[..i] == bytes[..i] && part[i + skip..] == rest;
    }
  }

  lemma {:induction false} LineEndKept(bytes: seq<byte>, part: seq<byte>)
    requires part <= bytes && LineEnd(bytes) < |part|
    ensures LineEnd(part) == LineEnd(bytes)
  {
    if bytes[0] != LF && bytes[0] != CR {
      assert part[1..] <= bytes[1..];
      LineEndKept(bytes[1..], part[1..]);
    }
  }

  /** A page can notice a heartbeat on this upstream. */
  predicate Noticeable(upstream: seq<byte>) {
    && HasBom(upstream)
    && Lines(upstream[3..]) != []
    && Noticed(Lines(upstream[3..])[0], Lines(upstream[3..])[1..])
  }

  ghost predicate SameToThePage(p: Proxy) {
    SeenOf(Parse(p.output)) == SeenOf(Parse(p.forwarded))
  }

  /**
   * On which streams a page can notice a heartbeat at some moment of some schedule: exactly on those that start with a
   * byte order mark whose first line the page comes to miss.
   */
  lemma VisibleOnlyThroughTheByteOrderMark(upstream: seq<byte>)
    ensures (forall actions :: Run(OPENED, actions).forwarded <= upstream ==> SameToThePage(Run(OPENED, actions)))
            <==> !Noticeable(upstream)
  {
    hide Run, SameToThePage, Noticeable;
    if Noticeable(upstream) {
      var part := NoticedMoment(upstream);
      assert Run(OPENED, [Tick, Chunk(part)]).forwarded <= upstream;
    } else {
      forall actions | Run(OPENED, actions).forwarded <= upstream ensures SameToThePage(Run(OPENED, actions)) {
        NothingToNotice(actions, upstream);
      }
    }
  }

  /** What is missed in front of the lines of a stream, in terms of its bytes. */
  lemma MarkedReadings(rest: seq<byte>)
    requires Lines(rest) != []
    ensures HasBom(BOM + rest) && (BOM + rest)[3..] == rest
    ensures Raw(BOM + rest) == Interpret(FRESH_SOURCE, Lines(rest)[1..])
    ensures Parse(BOM + rest) == Interpret(Line(FRESH_SOURCE, Lines(rest)[0]), Lines(rest)[1..])
  {
    var marked := BOM + rest;
    assert marked[..3] == BOM && marked[3..] == rest;
    MarkHidesFirstLine(rest);
  }

  lemma NoticedMoment(upstream: seq<byte>) returns (part: seq<byte>)
    requires Noticeable(upstream)
    ensures part <= upstream && Run(OPENED, [Tick, Chunk(part)]).forwarded == part
    ensures !SameToThePage(Run(OPENED, [Tick, Chunk(part)]))
  {
    hide Run, Raw, Parse, Lines, Interpret, Line;
    var rest := upstream[3..];
    var lines := Lines(rest);
    NoticedIff(lines[0], lines[1..]);
    var k: nat :| k <= |lines[1..]| && DiffersAt(lines[0], lines[1..], k);
    var q := LinesUpTo(rest, k + 1);
    part := BOM + q;
    assert upstream == BOM + rest;
    assert Lines(q)[0] == lines[0] && Lines(q)[1..] == lines[1..][..k];
    MarkedReadings(q);
    TickThenChunk(part);
    HeartbeatsAreInvisible([Tick, Chunk(part)]);
  }

  lemma NothingToNotice(actions: seq<Action>, upstream: seq<byte>)
    requires Run(OPENED, actions).forwarded <= upstream && !Noticeable(upstream)
    ensures SameToThePage(Run(OPENED, actions))
  {
    hide Raw, Parse, Lines, Interpret, Line, Run, Noticed;
    var part := Run(OPENED, actions).forwarded;
    HeartbeatsAreInvisible(actions);
    if HasBom(part) {
      var q, rest := part[3..], upstream[3..];
      assert upstream[..3] == part[..3] && q <= rest && part == BOM + q;
      LinesOfPrefix(q, rest);
      if Lines(q) == [] {
        NoLineYet(q);
      } else {
        var line, tail, k := Lines(rest)[0], Lines(rest)[1..], |Lines(q)| - 1;
        assert Lines(q)[0] == line && Lines(q)[1..] == tail[..k];
        NoticedIff(line, tail);
        assert !DiffersAt(line, tail, k);
        MarkedReadings(q);
      }
    }
  }

  lemma NoLineYet(q: seq<byte>)
    requires Lines(q) == []
    ensures Raw(BOM + q) == FRESH_SOURCE == Parse(BOM + q)
  {
    MarkHidesFirstLine(q);
    assert (BOM + q)[..3] == BOM && (BOM + q)[3..] == q;
  }

  // ---- one such stream, and one that only looks like it ----

  const DATA_LINE: seq<byte> := Ascii("data: x")
  const MARKED_EVENT: seq<byte> := BOM + (DATA_LINE + [LF] + [LF])
  const THE_EVENT := Event(Ascii("message"), Ascii("x"), [])

  function AfterHeartbeat(upstream: seq<byte>): Proxy {
    Run(OPENED, [Tick, Chunk(upstream)])
  }

  /** Such a stream: a heartbeat costs a marked stream of one event that event. */
  lemma MarkedStreamLosesItsEvent()
    ensures AfterHeartbeat(MARKED_EVENT).forwarded == MARKED_EVENT
    ensures Parse(MARKED_EVENT).events == [THE_EVENT]
    ensures Parse(AfterHeartbeat(MARKED_EVENT).output).events == []
  {
    hide Run, Parse, Raw;
    TickThenChunk(MARKED_EVENT);
    HeartbeatsAreInvisible([Tick, Chunk(MARKED_EVENT)]);
    EventWithoutMark();
    EventWithMark();
  }

  lemma EventWithoutMark()
    ensures Parse(MARKED_EVENT).events == [THE_EVENT]
  {
    hide Lines, Line, Ascii;
    var rest := DATA_LINE + [LF] + [LF];
    assert MARKED_EVENT[..3] == BOM && MARKED_EVENT[3..] == rest;
    DataLine();
    TwoLines(DATA_LINE);
    var data := Ascii("x") + [LF];
    assert data[..|data| - 1] == Ascii("x");
  }

  lemma EventWithMark()
    ensures Raw(MARKED_EVENT).events == []
  {
    hide Line, Ascii;
    DataLine();
    TwoLines(DATA_LINE);
    MarkHidesFirstLine(DATA_LINE + [LF] + [LF]);
  }

  lemma {:induction false} TwoLines(line: seq<byte>)
    requires LF !in line && CR !in line
    ensures Lines(line + [LF] + [LF]) == [line, []]
    ensures Raw(line + [LF] + [LF]) == Dispatch(Line(FRESH_SOURCE, line))
    ensures Interpret(FRESH_SOURCE, [line, []][1..]) == Dispatch(FRESH_SOURCE)
  {
    var bytes := line + [LF] + [LF];
    assert LineEnd(bytes) == |line| by {
      assert bytes[|line|] == LF;
      assert forall j :: 0 <= j < |line| ==> bytes[j] == line[j];
    }
    assert bytes[..|line|] == line && bytes[|line| + 1..] == [] + [LF];
    OneLine([], LF);
    var blank: seq<seq<byte>> := [[]];
    assert [line, []][1..] == blank && blank[1..] == [];
    assert Interpret(Line(FRESH_SOURCE, line), blank) == Interpret(Dispatch(Line(FRESH_SOURCE, line)), []);
    assert Interpret(FRESH_SOURCE, blank) == Interpret(Dispatch(FRESH_SOURCE), []);
  }

  lemma DataLine()
    ensures LF !in DATA_LINE && CR !in DATA_LINE
    ensures Line(FRESH_SOURCE, DATA_LINE) == Source(Ascii("x") + [LF], [], [], [], FRESH_SOURCE.reconnection, [])
  {
    hide Interpret, Dispatch;
    var line := DATA_LINE;
    assert line == [100, 97, 116, 97, 58, 32, 120];
    assert IndexOf(line, COLON) == 4;
    assert line[..4] == Ascii("data") && line[5..] == [32, 120] && line[5..][1..] == Ascii("x");
    assert [] + Ascii("x") == Ascii("x");
  }

  const TYPE_LINE: seq<byte> := Ascii("event: a")
  const MARKED_TYPE: seq<byte> := BOM + (TYPE_LINE + [LF] + [LF])

  lemma TypeLine()
    ensures LF !in TYPE_LINE && CR !in TYPE_LINE
    ensures EventField(TYPE_LINE) && FieldValue(TYPE_LINE) == [97] && !DataField(TYPE_LINE) && !IdField(TYPE_LINE) && !RetryField(TYPE_LINE)
  {
    assert TYPE_LINE == [101, 118, 101, 110, 116, 58, 32, 97];
    assert IndexOf(TYPE_LINE, COLON) == 5;
    assert TYPE_LINE[..5] == Ascii("event") && TYPE_LINE[6..] == [32, 97] && TYPE_LINE[6..][1..] == [97];
    assert FieldName(TYPE_LINE) == Ascii("event") && FieldValue(TYPE_LINE) == [97];
    FieldNames();
    hide FieldName, FieldValue, IndexOf, Digits, Ascii;
  }

  lemma MarkedTypeLines()
    ensures HasBom(MARKED_TYPE) && Lines(MARKED_TYPE[3..]) == [TYPE_LINE, []]
  {
    hide Lines, DataField, EventField, IdField, RetryField, FieldValue, Ascii;
    var rest := TYPE_LINE + [LF] + [LF];
    assert MARKED_TYPE[..3] == BOM && MARKED_TYPE[3..] == rest;
    TypeLine();
    TwoLines(TYPE_LINE);
  }

  /** A type without any data is never dispatched, so the heartbeat that costs it cannot be noticed. */
  lemma TypeAloneIsNotNoticed()
    ensures FirstLineMatters(MARKED_TYPE) && !Noticeable(MARKED_TYPE)
  {
    hide Lines, DataField, EventField, IdField, RetryField, FieldValue, Ascii, HasBom;
    TypeLine();
    MarkedTypeLines();
    var tail := Lines(MARKED_TYPE[3..])[1..];
    assert tail == [[]];
    assert Find(tail, BlankOrEvent()) == 0;
  }
}
