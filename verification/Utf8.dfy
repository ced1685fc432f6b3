/** Strings of 16-bit code units, as in JavaScript, and UTF-8 (the Encoding standard's encoder and fatal decoder). */
module Utf8 {
  import opened Records

  type Unit = u: int | 0 <= u < 0x10000
  type Text = seq<Unit>
  type Scalar = c: int | 0 <= c < 0x110000 && !(0xD800 <= c < 0xE000)

  predicate High(u: Unit) { 0xD800 <= u < 0xDC00 }

  predicate Low(u: Unit) { 0xDC00 <= u < 0xE000 }

  predicate Paired(t: Text) {
    |t| >= 2 && High(t[0]) && Low(t[1])
  }

  const REPLACEMENT: Scalar := 0xFFFD
  const BYTE_ORDER_MARK: Scalar := 0xFEFF

  function FromPair(high: Unit, low: Unit): Scalar
    requires High(high) && Low(low)
  {
    0x10000 + (high - 0xD800) * 0x400 + (low - 0xDC00)
  }

  /** The characters of a string; a surrogate without a partner reads as U+FFFD. */
  function Scalars(t: Text): seq<Scalar> {
    if t == [] then []
    else if Paired(t) then [FromPair(t[0], t[1])] + Scalars(t[2..])
    else if High(t[0]) || Low(t[0]) then [REPLACEMENT] + Scalars(t[1..])
    else [t[0]] + Scalars(t[1..])
  }

  predicate WellFormed(t: Text) {
    if t == [] then true
    else if Paired(t) then WellFormed(t[2..])
    else !High(t[0]) && !Low(t[0]) && WellFormed(t[1..])
  }

  function UnitsOf(c: Scalar): (t: Text)
    ensures 1 <= |t| <= 2
  {
    if c < 0x10000 then [c] else [0xD800 + (c - 0x10000) / 0x400, 0xDC00 + (c - 0x10000) % 0x400]
  }

  function Units(cs: seq<Scalar>): Text {
    if cs == [] then [] else UnitsOf(cs[0]) + Units(cs[1..])
  }

  lemma {:induction false} WellFormedReadsBack(t: Text)
    requires WellFormed(t)
    ensures Units(Scalars(t)) == t
  {
    if t != [] {
      if Paired(t) {
        WellFormedReadsBack(t[2..]);
        assert t == [t[0], t[1]] + t[2..];
      } else {
        WellFormedReadsBack(t[1..]);
        assert t == [t[0]] + t[1..];
      }
    }
  }

  /** Characters read back from their code units. */
  lemma {:induction false} UnitsReadBack(cs: seq<Scalar>)
    ensures Scalars(Units(cs)) == cs && WellFormed(Units(cs))
  {
    if cs != [] {
      UnitsReadBack(cs[1..]);
      var t := Units(cs);
      assert t[|UnitsOf(cs[0])|..] == Units(cs[1..]);
    }
  }

  /** Slicing a string changes no character but the one that the slice may split. */
  lemma {:induction false} SliceKeepsScalars(t: Text, m: nat, n: nat)
    requires m <= |t| && n <= |Scalars(t[..m])|
    requires n < |Scalars(t[..m])| || m == 0 || !High(t[m - 1])
    ensures n <= |Scalars(t)| && Scalars(t)[..n] == Scalars(t[..m])[..n]
    decreases m
  {
    if n > 0 {
      var u := t[..m];
      assert Paired(u) <==> Paired(t) && m >= 2;
      var k := if Paired(u) then 2 else 1;
      assert u[k..] == t[k..][..m - k];
      assert Scalars(u) == [Scalars(u)[0]] + Scalars(u[k..]);
      SliceKeepsScalars(t[k..], m - k, n - 1);
      SamePrefix(Scalars(u)[0], Scalars(u[k..]), Scalars(t[k..]), n - 1);
      assert Scalars(t) == [Scalars(u)[0]] + Scalars(t[k..]);
    }
  }

  lemma SamePrefix(c: Scalar, a: seq<Scalar>, b: seq<Scalar>, n: nat)
    requires n <= |a| && n <= |b| && a[..n] == b[..n]
    ensures ([c] + a)[..n + 1] == ([c] + b)[..n + 1]
  {
    assert ([c] + a)[..n + 1] == [c] + a[..n];
    assert ([c] + b)[..n + 1] == [c] + b[..n];
  }

  // ---- encoding ----

  function EncodeScalar(c: Scalar): (bytes: seq<byte>)
    ensures 1 <= |bytes| <= 4
  {
    if c < 0x80 then [c]
    else if c < 0x800 then [0xC0 + c / 0x40, 0x80 + c % 0x40]
    else if c < 0x10000 then [0xE0 + c / 0x1000, 0x80 + c / 0x40 % 0x40, 0x80 + c % 0x40]
    else [0xF0 + c / 0x40000, 0x80 + c / 0x1000 % 0x40, 0x80 + c / 0x40 % 0x40, 0x80 + c % 0x40]
  }

  function EncodeScalars(cs: seq<Scalar>): seq<byte> {
    if cs == [] then [] else EncodeScalar(cs[0]) + EncodeScalars(cs[1..])
  }

  /** TextEncoder */
  function Encode(t: Text): seq<byte> {
    EncodeScalars(Scalars(t))
  }

  /** A string has at least one byte for each code unit. */
  lemma {:induction false} EncodedIsLonger(t: Text)
    ensures |Encode(t)| >= |t|
  {
    if t != [] {
      EncodedIsLonger(if Paired(t) then t[2..] else t[1..]);
    }
  }

  /** A string whose encoding is no longer than itself is ASCII. */
  lemma {:induction false} TightIsAscii(t: Text)
    requires |Encode(t)| == |t|
    ensures WellFormed(t) && forall i :: 0 <= i < |t| ==> t[i] < 0x80
  {
    if t != [] {
      EncodedIsLonger(if Paired(t) then t[2..] else t[1..]);
      TightIsAscii(t[1..]);
    }
  }

  lemma JoinedHalves(a: Text, b: Text)
    requires |a| == 1 && Paired(a + b)
    ensures |Encode(a + b)| <= |Encode(a)| + |Encode(b)|
  {
    assert (a + b)[2..] == b[1..];
    assert Scalars(b) == [REPLACEMENT] + Scalars(b[1..]);
    assert Scalars(a) == [REPLACEMENT] + Scalars(a[1..]);
    assert |EncodeScalar(REPLACEMENT)| == 3;
  }

  /** Joining two strings never lengthens their encoding: at most, two half characters become one. */
  lemma {:induction false} JoinNeverLengthens(a: Text, b: Text)
    ensures |Encode(a + b)| <= |Encode(a)| + |Encode(b)|
    decreases |a|
  {
    if a == [] {
      assert a + b == b;
    } else if |a| == 1 && Paired(a + b) {
      JoinedHalves(a, b);
    } else {
      var k := if Paired(a) then 2 else 1;
      assert (a + b)[k..] == a[k..] + b;
      assert Paired(a + b) <==> Paired(a);
      FirstEncoded(a);
      FirstEncoded(a + b);
      hide Encode, EncodeScalar, Scalars;
      JoinNeverLengthens(a[k..], b);
    }
  }

  /** The first character of a string is encoded by itself; it depends on no more than the units it takes. */
  lemma {:induction false} FirstEncoded(t: Text)
    requires t != []
    ensures var k := if Paired(t) then 2 else 1;
            && Scalars(t) == [Scalars(t)[0]] + Scalars(t[k..])
            && Scalars(t)[0] == (if Paired(t) then FromPair(t[0], t[1]) else if High(t[0]) || Low(t[0]) then REPLACEMENT else t[0])
            && |Encode(t)| == |EncodeScalar(Scalars(t)[0])| + |Encode(t[k..])|
  {
    var k := if Paired(t) then 2 else 1;
    assert Scalars(t)[1..] == Scalars(t[k..]);
  }

  // ---- decoding ----

  datatype Decoded = Decoded(scalar: Scalar, length: nat)

  predicate Continuation(b: byte) { 0x80 <= b <= 0xBF }

  function Bits(b: byte): int {
    b as int - 0x80
  }

  /** The first character of `bytes`, if they start with a complete one. */
  function DecodeOne(bytes: seq<byte>): (r: Option<Decoded>)
    ensures r.Some? ==> 1 <= r.value.length <= |bytes|
  {
    if bytes == [] then None
    else
      var b: int := bytes[0];
      if b < 0x80 then Some(Decoded(b, 1))
      else if 0xC2 <= b <= 0xDF && |bytes| >= 2 && Continuation(bytes[1])
      then Some(Decoded((b - 0xC0) * 0x40 + Bits(bytes[1]), 2))
      else if 0xE0 <= b <= 0xEF && |bytes| >= 3
              && (if b == 0xE0 then 0xA0 else 0x80) <= bytes[1] <= (if b == 0xED then 0x9F else 0xBF)
              && Continuation(bytes[2])
      then Some(Decoded((b - 0xE0) * 0x1000 + Bits(bytes[1]) * 0x40 + Bits(bytes[2]), 3))
      else if 0xF0 <= b <= 0xF4 && |bytes| >= 4
              && (if b == 0xF0 then 0x90 else 0x80) <= bytes[1] <= (if b == 0xF4 then 0x8F else 0xBF)
              && Continuation(bytes[2]) && Continuation(bytes[3])
      then Some(Decoded((b - 0xF0) * 0x40000 + Bits(bytes[1]) * 0x1000 + Bits(bytes[2]) * 0x40 + Bits(bytes[3]), 4))
      else None
  }

  function DecodeScalars(bytes: seq<byte>): Option<seq<Scalar>>
    decreases |bytes|
  {
    if bytes == [] then Some([])
    else
      var first := DecodeOne(bytes);
      if first.None? then None
      else
        var rest := DecodeScalars(bytes[first.value.length..]);
        if rest.None? then None else Some([first.value.scalar] + rest.value)
  }

  predicate HasMark(bytes: seq<byte>) {
    |bytes| >= 3 && bytes[0] == 0xEF && bytes[1] == 0xBB && bytes[2] == 0xBF
  }

  /** `new TextDecoder("utf-8", { fatal: true }).decode`: fails on malformed input and drops one leading byte order mark. */
  function Decode(bytes: seq<byte>): Option<Text> {
    var r := DecodeScalars(if HasMark(bytes) then bytes[3..] else bytes);
    if r.None? then None else Some(Units(r.value))
  }

  lemma DecodesTwo(c: Scalar)
    requires 0x80 <= c < 0x800
    ensures 0xC2 <= 0xC0 + c / 0x40 <= 0xDF && (c / 0x40) * 0x40 + c % 0x40 == c
  {
  }

  lemma DecodesThree(c: Scalar)
    requires 0x800 <= c < 0x10000
    ensures var a, b, d := c / 0x1000, c / 0x40 % 0x40, c % 0x40;
            a <= 15 && a * 0x1000 + b * 0x40 + d == c && (a == 0 ==> b >= 0x20) && (a == 0xD ==> b < 0x20)
  {
    assert c / 0x1000 == c / 0x40 / 0x40;
  }

  lemma DecodesFour(c: Scalar)
    requires 0x10000 <= c
    ensures var a, b, d, e := c / 0x40000, c / 0x1000 % 0x40, c / 0x40 % 0x40, c % 0x40;
            a <= 4 && a * 0x40000 + b * 0x1000 + d * 0x40 + e == c && (a == 0 ==> b >= 0x10) && (a == 4 ==> b < 0x10)
  {
    assert c / 0x1000 == c / 0x40 / 0x40 && c / 0x40000 == c / 0x1000 / 0x40;
  }

  /** The decoder reads back a whole encoded character whatever follows it, and nothing from part of one. */
  lemma DecodesOneEncoded(c: Scalar, rest: seq<byte>)
    ensures DecodeOne(EncodeScalar(c) + rest) == Some(Decoded(c, |EncodeScalar(c)|))
    ensures forall k :: 0 <= k < |EncodeScalar(c)| ==> DecodeOne(EncodeScalar(c)[..k]) == None
  {
    if c < 0x80 {
    } else if c < 0x800 {
      DecodesTwo(c);
    } else if c < 0x10000 {
      DecodesThree(c);
    } else {
      DecodesFour(c);
    }
  }

  // ---- cutting an encoded string ----

  /** How many characters fit whole into `room` bytes. */
  function Whole(cs: seq<Scalar>, room: nat): (n: nat)
    ensures n <= |cs|
  {
    if cs == [] || |EncodeScalar(cs[0])| > room then 0 else 1 + Whole(cs[1..], room - |EncodeScalar(cs[0])|)
  }

  lemma {:induction false} WholeFits(cs: seq<Scalar>, room: nat)
    ensures EncodeScalars(cs[..Whole(cs, room)]) <= EncodeScalars(cs)
    ensures |EncodeScalars(cs[..Whole(cs, room)])| <= room
    ensures Whole(cs, room) < |cs| ==> room - |EncodeScalars(cs[..Whole(cs, room)])| < 4
    ensures |EncodeScalars(cs)| <= room ==> Whole(cs, room) == |cs|
  {
    if !(cs == [] || |EncodeScalar(cs[0])| > room) {
      WholeFits(cs[1..], room - |EncodeScalar(cs[0])|);
      var n := Whole(cs, room);
      assert cs[..n] == [cs[0]] + cs[1..][..n - 1];
      assert cs[..n][1..] == cs[1..][..n - 1];
    } else if cs != [] {
      assert cs[..0] == [];
    }
  }

  /** A prefix of an encoded string decodes exactly when it ends between characters, and then to those characters. */
  lemma {:induction false} PrefixDecodes(cs: seq<Scalar>, end: nat)
    requires end <= |EncodeScalars(cs)|
    ensures DecodeScalars(EncodeScalars(cs)[..end])
            == if |EncodeScalars(cs[..Whole(cs, end)])| == end then Some(cs[..Whole(cs, end)]) else None
  {
    var bytes := EncodeScalars(cs)[..end];
    if end == 0 {
      assert bytes == [];
      assert cs[..Whole(cs, end)] == [];
    } else {
      var first := EncodeScalar(cs[0]);
      if |first| > end {
        DecodesOneEncoded(cs[0], []);
        assert bytes == first[..end];
        assert cs[..Whole(cs, end)] == [];
      } else {
        var rest := EncodeScalars(cs[1..])[..end - |first|];
        assert bytes == first + rest;
        DecodesFirst(cs[0], rest);
        PrefixDecodes(cs[1..], end - |first|);
        WholeStep(cs, end);
      }
    }
  }

  lemma DecodesFirst(c: Scalar, rest: seq<byte>)
    ensures DecodeScalars(EncodeScalar(c) + rest)
            == match DecodeScalars(rest) case None => None case Some(cs) => Some([c] + cs)
  {
    DecodesOneEncoded(c, rest);
    assert (EncodeScalar(c) + rest)[|EncodeScalar(c)|..] == rest;
  }

  lemma WholeStep(cs: seq<Scalar>, room: nat)
    requires cs != [] && |EncodeScalar(cs[0])| <= room
    ensures var head, tail := cs[..Whole(cs, room)], cs[1..][..Whole(cs[1..], room - |EncodeScalar(cs[0])|)];
            head == [cs[0]] + tail && EncodeScalars(head) == EncodeScalar(cs[0]) + EncodeScalars(tail)
  {
    var tail := cs[1..][..Whole(cs[1..], room - |EncodeScalar(cs[0])|)];
    assert cs[..Whole(cs, room)] == [cs[0]] + tail;
    assert ([cs[0]] + tail)[1..] == tail;
  }

  /** An encoded string starts with the mark only if its first character is U+FEFF. */
  lemma MarkIsACharacter(cs: seq<Scalar>, end: nat)
    requires end <= |EncodeScalars(cs)|
    ensures HasMark(EncodeScalars(cs)[..end]) <==> end >= 3 && cs != [] && cs[0] == BYTE_ORDER_MARK
    ensures cs != [] && cs[0] == BYTE_ORDER_MARK ==> EncodeScalar(cs[0]) == [0xEF, 0xBB, 0xBF]
  {
    EncodedMark();
    if end >= 3 {
      var bytes := EncodeScalars(cs);
      assert cs != [];
      assert bytes == EncodeScalar(cs[0]) + EncodeScalars(cs[1..]);
      MarkComesFirst(cs[0], EncodeScalars(cs[1..]));
      hide EncodeScalars, EncodeScalar;
      assert bytes[..end][0] == bytes[0] && bytes[..end][1] == bytes[1] && bytes[..end][2] == bytes[2];
    }
  }

  lemma MarkComesFirst(c: Scalar, rest: seq<byte>)
    ensures HasMark(EncodeScalar(c) + rest) <==> c == BYTE_ORDER_MARK
  {
    hide EncodeScalar;
    DecodesOneEncoded(c, rest);
    EncodedMark();
    if HasMark(EncodeScalar(c) + rest) {
      assert DecodeOne(EncodeScalar(c) + rest) == Some(Decoded(BYTE_ORDER_MARK, 3));
    }
  }

  lemma EncodedMark()
    ensures EncodeScalar(BYTE_ORDER_MARK) == [0xEF, 0xBB, 0xBF]
  {
  }

  function WithoutMark(cs: seq<Scalar>): seq<Scalar> {
    if cs != [] && cs[0] == BYTE_ORDER_MARK then cs[1..] else cs
  }

  /**
   * What the fatal decoder makes of a prefix of an encoded string: the whole characters of that prefix if it ends
   * between characters, less a leading byte order mark, and a failure otherwise.
   */
  lemma CutDecodes(cs: seq<Scalar>, end: nat)
    requires end <= |EncodeScalars(cs)|
    ensures Decode(EncodeScalars(cs)[..end])
            == if |EncodeScalars(cs[..Whole(cs, end)])| == end then Some(Units(WithoutMark(cs[..Whole(cs, end)]))) else None
  {
    PrefixDecodes(cs, end);
    MarkIsACharacter(cs, end);
    if HasMark(EncodeScalars(cs)[..end]) {
      MarkedCut(cs, end);
    } else if cs != [] && cs[0] == BYTE_ORDER_MARK {
      assert Whole(cs, end) == 0;
    }
  }

  lemma MarkedCut(cs: seq<Scalar>, end: nat)
    requires 3 <= end <= |EncodeScalars(cs)| && cs != [] && cs[0] == BYTE_ORDER_MARK
    ensures DecodeScalars(EncodeScalars(cs)[..end][3..])
            == if |EncodeScalars(cs[..Whole(cs, end)])| == end then Some(cs[..Whole(cs, end)][1..]) else None
    ensures Whole(cs, end) > 0
  {
    MarkIsACharacter(cs, end);
    var tail := cs[1..];
    assert EncodeScalars(cs) == EncodeScalar(cs[0]) + EncodeScalars(tail);
    assert EncodeScalars(cs)[..end][3..] == EncodeScalars(tail)[..end - 3];
    PrefixDecodes(tail, end - 3);
    WholeStep(cs, end);
    var kept := tail[..Whole(tail, end - 3)];
    assert ([cs[0]] + kept)[1..] == kept;
  }
}
