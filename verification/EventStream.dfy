/** Interpreting an event stream: section 9.2.6 of the WHATWG HTML standard, over the bytes of the stream. */
module EventStream {
  import opened Records

  const LF: byte := 10
  const CR: byte := 13
  const SPACE: byte := 32
  const COLON: byte := 58

  function Ascii(s: string): seq<byte>
    requires forall i :: 0 <= i < |s| ==> s[i] < 128 as char
  {
    seq(|s|, i requires 0 <= i < |s| => s[i] as int)
  }

  const BOM: seq<byte> := [0xEF, 0xBB, 0xBF]

  // ---- events ----

  datatype Event = Event(kind: seq<byte>, data: seq<byte>, lastEventId: seq<byte>)

  /** What the interpretation has built up: the three buffers, and what a page can observe of them. */
  datatype Source = Source(data: seq<byte>, kind: seq<byte>, id: seq<byte>,
                           lastEventId: seq<byte>, reconnection: Option<nat>, events: seq<Event>)

  const FRESH_SOURCE := Source([], [], [], [], None, [])

  function Dispatch(s: Source): Source {
    if s.data == [] then s.(lastEventId := s.id, kind := [])
    else
      var data := if s.data[|s.data| - 1] == LF then s.data[..|s.data| - 1] else s.data;
      var event := Event(if s.kind == [] then Ascii("message") else s.kind, data, s.id);
      s.(lastEventId := s.id, data := [], kind := [], events := s.events + [event])
  }

  predicate Digits(value: seq<byte>) {
    value != [] && forall i :: 0 <= i < |value| ==> 48 <= value[i] < 58
  }

  function Decimal(value: seq<byte>): nat
    requires forall i :: 0 <= i < |value| ==> 48 <= value[i] < 58
  {
    if value == [] then 0 else 10 * Decimal(value[..|value| - 1]) + value[|value| - 1] - 48
  }

  function Field(s: Source, name: seq<byte>, value: seq<byte>): Source {
    if name == Ascii("event") then s.(kind := value)
    else if name == Ascii("data") then s.(data := s.data + value + [LF])
    else if name == Ascii("id") then if 0 in value then s else s.(id := value)
    else if name == Ascii("retry") then if Digits(value) then s.(reconnection := Some(Decimal(value))) else s
    else s
  }

  function IndexOf(line: seq<byte>, b: byte): (i: nat)
    ensures i <= |line| && b !in line[..i]
    ensures i < |line| ==> line[i] == b
  {
    if line == [] || line[0] == b then 0
    else
      assert line == [line[0]] + line[1..];
      1 + IndexOf(line[1..], b)
  }

  function Line(s: Source, line: seq<byte>): Source {
    if line == [] then Dispatch(s)
    else if line[0] == COLON then s
    else
      var i := IndexOf(line, COLON);
      if i == |line| then Field(s, line, [])
      else
        var value := line[i + 1..];
        Field(s, line[..i], if value != [] && value[0] == SPACE then value[1..] else value)
  }

  function Interpret(s: Source, lines: seq<seq<byte>>): Source
    decreases |lines|
  {
    if lines == [] then s else Interpret(Line(s, lines[0]), lines[1..])
  }

  // ---- lines ----

  function LineEnd(bytes: seq<byte>): (i: nat)
    ensures i <= |bytes|
    ensures forall j :: 0 <= j < i ==> bytes[j] != LF && bytes[j] != CR
    ensures i < |bytes| ==> bytes[i] == LF || bytes[i] == CR
  {
    if bytes == [] || bytes[0] == LF || bytes[0] == CR then 0 else 1 + LineEnd(bytes[1..])
  }

  /** The complete lines, each ended by CR LF, LF or CR; an unfinished last line is discarded. */
  function Lines(bytes: seq<byte>): seq<seq<byte>>
    decreases |bytes|
  {
    var i := LineEnd(bytes);
    if i == |bytes| then []
    else
      var skip := if bytes[i] == CR && i + 1 < |bytes| && bytes[i + 1] == LF then 2 else 1;
      [bytes[..i]] + Lines(bytes[i + skip..])
  }

  predicate HasBom(bytes: seq<byte>) {
    |bytes| >= 3 && bytes[..3] == BOM
  }

  lemma BomFirst(bytes: seq<byte>)
    requires bytes != [] && bytes[0] != BOM[0]
    ensures !HasBom(bytes)
  {
    assert |bytes| >= 3 ==> bytes[..3][0] == bytes[0];
  }

  /** Interpretation without the byte order mark rule. */
  function Raw(bytes: seq<byte>): Source {
    Interpret(FRESH_SOURCE, Lines(bytes))
  }

  /** The decoder drops one leading byte order mark; the rest is split into lines and interpreted. */
  function Parse(bytes: seq<byte>): Source {
    Raw(if HasBom(bytes) then bytes[3..] else bytes)
  }

  // ---- the same, one byte at a time ----

  datatype Reader = Reader(source: Source, line: seq<byte>, afterCR: bool)

  const START := Reader(FRESH_SOURCE, [], false)

  function Feed(r: Reader, b: byte): Reader {
    if b == LF && r.afterCR then r.(afterCR := false)
    else if b == LF || b == CR then Reader(Line(r.source, r.line), [], b == CR)
    else Reader(r.source, r.line + [b], false)
  }

  /** A line that a CR has just ended is empty again. */
  predicate Proper(r: Reader) {
    r.afterCR ==> r.line == []
  }

  function FeedAll(r: Reader, bytes: seq<byte>): (r': Reader)
    ensures Proper(r) ==> Proper(r')
    decreases |bytes|
  {
    if bytes == [] then r else FeedAll(Feed(r, bytes[0]), bytes[1..])
  }

  lemma {:induction false} FeedAppend(r: Reader, a: seq<byte>, b: seq<byte>)
    ensures FeedAll(r, a + b) == FeedAll(FeedAll(r, a), b)
    decreases |a|
  {
    if a == [] {
      assert a + b == b;
    } else {
      FeedAppend(Feed(r, a[0]), a[1..], b);
      assert (a + b)[1..] == a[1..] + b;
    }
  }

  lemma FeedTwo(r: Reader, b: byte, c: byte)
    ensures FeedAll(r, [b, c]) == Feed(Feed(r, b), c)
  {
    var q := Feed(r, b);
    assert [b, c][1..] == [c];
    assert FeedAll(q, [c]) == FeedAll(Feed(q, c), [c][1..]);
    assert [c][1..] == [];
  }

  lemma {:induction false} FeedText(r: Reader, text: seq<byte>)
    requires LF !in text && CR !in text
    ensures FeedAll(r, text) == Reader(r.source, r.line + text, r.afterCR && text == [])
    decreases |text|
  {
    if text == [] {
      assert r.line + text == r.line;
    } else {
      FeedText(Feed(r, text[0]), text[1..]);
      assert r.line + [text[0]] + text[1..] == r.line + text;
    }
  }

  lemma FeedLine(s: Source, text: seq<byte>, end: byte, rest: seq<byte>)
    requires LF !in text && CR !in text && (end == LF || end == CR)
    ensures FeedAll(Reader(s, [], false), text + ([end] + rest)) == FeedAll(Reader(Line(s, text), [], end == CR), rest)
  {
    var r := Reader(s, [], false);
    FeedAppend(r, text, [end] + rest);
    FeedText(r, text);
    assert [] + text == text;
    assert ([end] + rest)[1..] == rest;
  }

  /** After a CR, a line feed is skipped and anything else is read as at the start of a line. */
  lemma FeedAfterCR(s: Source, rest: seq<byte>)
    ensures rest != [] && rest[0] == LF ==> FeedAll(Reader(s, [], true), rest) == FeedAll(Reader(s, [], false), rest[1..])
    ensures !(rest != [] && rest[0] == LF) ==>
              FeedAll(Reader(s, [], true), rest).source == FeedAll(Reader(s, [], false), rest).source
  {
  }

  /** Reading byte by byte builds exactly what splitting into lines and interpreting them builds. */
  lemma {:induction false} ReadingIsParsing(s: Source, bytes: seq<byte>)
    ensures FeedAll(Reader(s, [], false), bytes).source == Interpret(s, Lines(bytes))
    decreases |bytes|
  {
    var i := LineEnd(bytes);
    var text := bytes[..i];
    if i == |bytes| {
      assert text == bytes;
      FeedText(Reader(s, [], false), bytes);
    } else {
      var rest := bytes[i + 1..];
      var skip := if bytes[i] == CR && i + 1 < |bytes| && bytes[i + 1] == LF then 2 else 1;
      assert bytes == text + ([bytes[i]] + rest);
      FeedLine(s, text, bytes[i], rest);
      FeedAfterCR(Line(s, text), rest);
      assert skip == 2 ==> rest[1..] == bytes[i + 2..];
      ReadingIsParsing(Line(s, text), bytes[i + skip..]);
      LinesStep(s, bytes, i, skip);
    }
  }

  lemma LinesStep(s: Source, bytes: seq<byte>, i: nat, skip: nat)
    requires i == LineEnd(bytes) && i < |bytes|
    requires skip == if bytes[i] == CR && i + 1 < |bytes| && bytes[i + 1] == LF then 2 else 1
    ensures Interpret(s, Lines(bytes)) == Interpret(Line(s, bytes[..i]), Lines(bytes[i + skip..]))
  {
    assert Lines(bytes) == [bytes[..i]] + Lines(bytes[i + skip..]);
    assert Lines(bytes)[1..] == Lines(bytes[i + skip..]);
  }

  lemma RawIsReading(bytes: seq<byte>)
    ensures Raw(bytes) == FeedAll(START, bytes).source
  {
    ReadingIsParsing(FRESH_SOURCE, bytes);
  }

  /** Nothing is pending: no partial line, no data and no event type, and the id was taken over by a dispatch. */
  predicate Blank(r: Reader) {
    r.line == [] && !r.afterCR && r.source.data == [] && r.source.kind == [] && r.source.id == r.source.lastEventId
  }

  lemma DispatchLeavesBlank(s: Source)
    ensures Blank(Reader(Line(s, []), [], false))
  {
  }
}
