/**
 * DER to P1363: the signature reader of native/macos/MachineBridgeTrustBroker.swift, against the DER encoding of an
 * ECDSA signature (section 2.2.3 of RFC 3279; sections 8.1.3 and 8.3 of X.690).
 */
module DerSignature {
  import opened Records
  import opened Utf8

  // ---- numbers in base 256 ----

  function Value(b: seq<byte>): nat {
    if b == [] then 0 else Value(b[..|b| - 1]) * 256 + b[|b| - 1]
  }

  function Power(n: nat): nat {
    if n == 0 then 1 else 256 * Power(n - 1)
  }

  /** The last `n` digits of `v`, big end first. */
  function Fixed(v: nat, n: nat): (b: seq<byte>)
    ensures |b| == n
  {
    if n == 0 then [] else Fixed(v / 256, n - 1) + [v % 256]
  }

  /** As many digits as `v` needs, and at least one. */
  function Digits(v: nat): (b: seq<byte>)
    ensures b != []
  {
    if v < 256 then [v] else Digits(v / 256) + [v % 256]
  }

  lemma {:induction false} ValueBelow(b: seq<byte>)
    ensures Value(b) < Power(|b|)
  {
    if b != [] {
      ValueBelow(b[..|b| - 1]);
    }
  }

  lemma {:induction false} SameDigits(a: seq<byte>, b: seq<byte>)
    requires |a| == |b| && Value(a) == Value(b)
    ensures a == b
  {
    if a != [] {
      SameDigits(a[..|a| - 1], b[..|b| - 1]);
      assert a == a[..|a| - 1] + [a[|a| - 1]] && b == b[..|b| - 1] + [b[|b| - 1]];
    }
  }

  lemma {:induction false} FixedValue(v: nat, n: nat)
    requires v < Power(n)
    ensures Value(Fixed(v, n)) == v
  {
    if n > 0 {
      assert v / 256 < Power(n - 1);
      FixedValue(v / 256, n - 1);
      assert Fixed(v, n)[..n - 1] == Fixed(v / 256, n - 1);
    }
  }

  lemma {:induction false} DigitsValue(v: nat, n: nat)
    requires v < Power(n) && n > 0
    ensures Value(Digits(v)) == v && |Digits(v)| <= n
    ensures v > 0 ==> Digits(v)[0] > 0
  {
    if v < 256 {
      assert [v as byte][..0] == [];
    } else {
      assert Power(1) == 256 * Power(0);
      assert v / 256 < Power(n - 1);
      DigitsValue(v / 256, n - 1);
      assert Digits(v)[..|Digits(v)| - 1] == Digits(v / 256);
    }
  }

  lemma {:induction false} LeadingZero(b: seq<byte>)
    ensures Value([0] + b) == Value(b)
  {
    if b == [] {
      assert [0 as byte][..0] == [];
      assert [0 as byte] + b == [0];
    } else {
      LeadingZero(b[..|b| - 1]);
      assert ([0] + b)[..|b|] == [0] + b[..|b| - 1];
    }
  }

  lemma {:induction false} LeadingZeros(n: nat, b: seq<byte>)
    ensures Value(seq(n, _ => 0 as byte) + b) == Value(b)
  {
    var zeros := seq(n, _ => 0 as byte);
    if n == 0 {
      assert zeros + b == b;
    } else {
      LeadingZeros(n - 1, b);
      LeadingZero(seq(n - 1, _ => 0 as byte) + b);
      assert zeros + b == [0] + (seq(n - 1, _ => 0 as byte) + b);
    }
  }

  lemma {:induction false} PowerGrows(m: nat, n: nat)
    requires m <= n
    ensures Power(m) <= Power(n)
  {
    if m < n {
      PowerGrows(m, n - 1);
    }
  }

  /** A number whose first digit is not zero needs all its digits. */
  lemma {:induction false} LeadingDigit(b: seq<byte>)
    requires b != [] && b[0] > 0
    ensures Value(b) >= Power(|b| - 1)
  {
    if |b| > 1 {
      LeadingDigit(b[..|b| - 1]);
    }
  }

  // ---- DER ----

  /** The length octets `h` stand for `n`: short form, or long form with one or two octets. */
  ghost predicate LengthOf(h: seq<byte>, n: nat) {
    || (n < 0x80 && h == [n])
    || (n < 0x100 && h == [0x81, n])
    || (n < 0x10000 && h == [0x82, n / 256, n % 256])
  }

  ghost predicate IntegerOf(b: seq<byte>, content: seq<byte>, h: seq<byte>) {
    content != [] && LengthOf(h, |content|) && b == [0x02] + h + content
  }

  /** Where the parts of an encoded signature are. */
  datatype Layout = Layout(h: seq<byte>, a: seq<byte>, b: seq<byte>, ha: seq<byte>, hb: seq<byte>)

  ghost predicate LaidOut(data: seq<byte>, r: seq<byte>, s: seq<byte>, l: Layout) {
    && IntegerOf(l.a, r, l.ha) && IntegerOf(l.b, s, l.hb)
    && LengthOf(l.h, |l.a| + |l.b|) && data == [0x30] + l.h + (l.a + l.b)
  }

  /** `data` is a sequence of exactly two integers with these content octets. */
  ghost predicate SignatureOf(data: seq<byte>, r: seq<byte>, s: seq<byte>) {
    exists l :: LaidOut(data, r, s, l)
  }

  predicate FitsP256(content: seq<byte>) {
    Value(content) < Power(32)
  }

  // ---- the reader ----

  datatype Read<T> = Read(value: T, rest: seq<byte>)

  function ReadLength(rest: seq<byte>): Option<Read<nat>> {
    if rest == [] then None
    else if rest[0] < 0x80 then Some(Read(rest[0] as nat, rest[1..]))
    else if rest[0] == 0x81 && |rest| >= 2 then Some(Read(rest[1] as nat, rest[2..]))
    else if rest[0] == 0x82 && |rest| >= 3 then Some(Read(Pair(rest[1], rest[2]), rest[3..]))
    else None
  }

  function Pair(high: int, low: int): nat
    requires 0 <= high && 0 <= low
  {
    high * 256 + low
  }

  /** One integer as 32 digits. */
  function ReadInteger(rest: seq<byte>): Option<Read<seq<byte>>> {
    if rest == [] || rest[0] != 0x02 then None
    else
      var length := ReadLength(rest[1..]);
      if length.None? || length.value.value == 0 || length.value.value > |length.value.rest| then None
      else
        var n, tail := length.value.value, length.value.rest;
        if FitsP256(tail[..n]) then Some(Read(Fixed(Value(tail[..n]), 32), tail[n..])) else None
  }

  /** derToP1363; None where it throws. */
  function DerToP1363(data: seq<byte>): (out: Option<seq<byte>>)
    ensures out.Some? ==> |out.value| == 64
  {
    if data == [] || data[0] != 0x30 then None
    else
      var length := ReadLength(data[1..]);
      if length.None? || length.value.value != |length.value.rest| then None
      else
        var r := ReadInteger(length.value.rest);
        if r.None? then None
        else
          var s := ReadInteger(r.value.rest);
          if s.None? || s.value.rest != [] then None else Some(r.value.value + s.value.value)
  }

  // ---- the reader accepts exactly the encodings ----

  lemma ReadsLength(h: seq<byte>, n: nat, tail: seq<byte>)
    requires LengthOf(h, n)
    ensures ReadLength(h + tail) == Some(Read(n, tail))
  {
    assert (h + tail)[|h|..] == tail;
  }

  lemma LengthWasThere(rest: seq<byte>) returns (h: seq<byte>)
    requires ReadLength(rest).Some?
    ensures rest == h + ReadLength(rest).value.rest && LengthOf(h, ReadLength(rest).value.value)
  {
    h := rest[..|rest| - |ReadLength(rest).value.rest|];
  }

  lemma ReadsInteger(b: seq<byte>, content: seq<byte>, h: seq<byte>, tail: seq<byte>)
    requires IntegerOf(b, content, h)
    ensures ReadInteger(b + tail) == if FitsP256(content) then Some(Read(Fixed(Value(content), 32), tail)) else None
  {
    assert (b + tail)[1..] == h + (content + tail);
    ReadsLength(h, |content|, content + tail);
    assert (content + tail)[..|content|] == content && (content + tail)[|content|..] == tail;
  }

  lemma IntegerWasThere(rest: seq<byte>) returns (b: seq<byte>, content: seq<byte>, h: seq<byte>)
    requires ReadInteger(rest).Some?
    ensures IntegerOf(b, content, h) && FitsP256(content)
    ensures rest == b + ReadInteger(rest).value.rest && ReadInteger(rest).value.value == Fixed(Value(content), 32)
  {
    hide Fixed, Value, ReadLength;
    h := LengthWasThere(rest[1..]);
    var length := ReadLength(rest[1..]).value;
    content := length.rest[..length.value];
    b := [0x02] + h + content;
    assert length.rest == content + length.rest[length.value..];
    assert rest == [rest[0]] + rest[1..];
  }

  /** What the reader makes of an encoded signature: the two values as 32 digits each, if both fit. */
  lemma ReadsSignature(data: seq<byte>, r: seq<byte>, s: seq<byte>)
    requires SignatureOf(data, r, s)
    ensures DerToP1363(data)
            == if FitsP256(r) && FitsP256(s) then Some(Fixed(Value(r), 32) + Fixed(Value(s), 32)) else None
  {
    hide Fixed, Value, ReadLength, LengthOf, ReadInteger, FitsP256;
    var l :| LaidOut(data, r, s, l);
    assert data[1..] == l.h + (l.a + l.b);
    ReadsLength(l.h, |l.a| + |l.b|, l.a + l.b);
    ReadsInteger(l.a, r, l.ha, l.b);
    assert l.b + [] == l.b;
    ReadsInteger(l.b, s, l.hb, []);
  }

  lemma Compose(data: seq<byte>, h: seq<byte>, a: seq<byte>, b: seq<byte>, rest: seq<byte>, last: seq<byte>)
    requires data != [] && data[0] == 0x30 && data[1..] == h + rest && rest == a + last && last == b + []
    ensures data == [0x30] + h + (a + b) && |rest| == |a| + |b|
  {
    assert data == [data[0]] + data[1..];
    assert last == b;
  }

  lemma SignatureWasThere(data: seq<byte>) returns (r: seq<byte>, s: seq<byte>)
    requires DerToP1363(data).Some?
    ensures SignatureOf(data, r, s) && FitsP256(r) && FitsP256(s)
  {
    var h := LengthWasThere(data[1..]);
    var rest := ReadLength(data[1..]).value.rest;
    var a, ha, b, hb;
    a, r, ha := IntegerWasThere(rest);
    b, s, hb := IntegerWasThere(ReadInteger(rest).value.rest);
    Compose(data, h, a, b, rest, ReadInteger(rest).value.rest);
    assert LaidOut(data, r, s, Layout(h, a, b, ha, hb));
  }

  /**
   * The accepted inputs are exactly the encodings of two integers below 2 to the 256, with nothing after them, and the
   * output is always the two unsigned values, 32 bytes each, big end first.
   */
  lemma AcceptsExactlySignatures(data: seq<byte>, out: seq<byte>)
    ensures DerToP1363(data) == Some(out)
            <==> exists r, s :: SignatureOf(data, r, s) && FitsP256(r) && FitsP256(s) && out == Fixed(Value(r), 32) + Fixed(Value(s), 32)
    ensures DerToP1363(data) == Some(out) ==> |out| == 64
  {
    if DerToP1363(data) == Some(out) {
      var r, s := SignatureWasThere(data);
      ReadsSignature(data, r, s);
    }
    if exists r, s :: SignatureOf(data, r, s) && FitsP256(r) && FitsP256(s) && out == Fixed(Value(r), 32) + Fixed(Value(s), 32) {
      var r, s :| SignatureOf(data, r, s) && FitsP256(r) && FitsP256(s) && out == Fixed(Value(r), 32) + Fixed(Value(s), 32);
      ReadsSignature(data, r, s);
    }
  }

  /** Both halves of the output still have the values that were encoded. */
  lemma OutputKeepsValues(data: seq<byte>, r: seq<byte>, s: seq<byte>)
    requires SignatureOf(data, r, s) && DerToP1363(data).Some?
    ensures Value(DerToP1363(data).value[..32]) == Value(r) && Value(DerToP1363(data).value[32..]) == Value(s)
  {
    ReadsSignature(data, r, s);
    FixedValue(Value(r), 32);
    FixedValue(Value(s), 32);
    var out := Fixed(Value(r), 32) + Fixed(Value(s), 32);
    assert out[..32] == Fixed(Value(r), 32) && out[32..] == Fixed(Value(s), 32);
  }

  // ---- round trip ----

  /** The content octets of a non-negative integer: a leading zero keeps its sign bit clear. */
  function Content(v: nat): seq<byte> {
    if Digits(v)[0] >= 0x80 then [0] + Digits(v) else Digits(v)
  }

  function DerInteger(v: nat): seq<byte>
    requires |Content(v)| < 0x80
  {
    [0x02, |Content(v)|] + Content(v)
  }

  lemma ContentValue(v: nat)
    requires v < Power(32)
    ensures Content(v) != [] && |Content(v)| <= 33 && Value(Content(v)) == v
  {
    DigitsValue(v, 32);
    LeadingZero(Digits(v));
  }

  function Der(r: nat, s: nat): (data: seq<byte>)
    requires r < Power(32) && s < Power(32)
  {
    ContentValue(r);
    ContentValue(s);
    var body := DerInteger(r) + DerInteger(s);
    [0x30, |body|] + body
  }

  /** Reading the DER encoding of a signature gives back its two numbers, 32 bytes each. */
  lemma DerRoundTrip(r: nat, s: nat)
    requires r < Power(32) && s < Power(32)
    ensures DerToP1363(Der(r, s)) == Some(Fixed(r, 32) + Fixed(s, 32))
  {
    hide Fixed, Value, Content, DerToP1363;
    ContentValue(r);
    ContentValue(s);
    var a, b := DerInteger(r), DerInteger(s);
    var ha: seq<byte>, hb: seq<byte>, h: seq<byte> := [|Content(r)|], [|Content(s)|], [|a| + |b|];
    assert a == [0x02] + ha + Content(r) && b == [0x02] + hb + Content(s);
    assert Der(r, s) == [0x30] + h + (a + b);
    assert LaidOut(Der(r, s), Content(r), Content(s), Layout(h, a, b, ha, hb));
    ReadsSignature(Der(r, s), Content(r), Content(s));
  }

  // ---- the reader as it runs ----

  class DerReader {
    const data: seq<byte>
    var index: nat

    constructor (data: seq<byte>)
      ensures this.data == data && index == 0
    {
      this.data, index := data, 0;
    }

    method ReadByte() returns (b: Option<byte>)
      requires index <= |data|
      modifies this
      ensures if old(index) < |data| then b == Some(data[old(index)]) && index == old(index) + 1
              else b == None && index == old(index)
    {
      if index >= |data| {
        return None;
      }
      index := index + 1;
      return Some(data[index - 1]);
    }

    method ReadLengthOctets() returns (n: Option<nat>)
      requires index <= |data|
      modifies this
      ensures index <= |data|
      ensures match ReadLength(data[old(index)..])
              case None => n == None
              case Some(read) => n == Some(read.value) && data[index..] == read.rest
    {
      var first := ReadByte();
      if first.None? {
        return None;
      }
      if first.value < 0x80 {
        return Some(first.value as nat);
      }
      var count := first.value as int - 0x80;
      if count <= 0 || count > 2 {
        return None;
      }
      var length: nat := 0;
      ghost var start := index;
      for i := 0 to count
        invariant index == start + i <= |data|
        invariant i == 0 ==> length == 0
        invariant i == 1 ==> length == data[start] as nat
        invariant i == 2 ==> length == Pair(data[start], data[start + 1])
      {
        var b := ReadByte();
        if b.None? {
          return None;
        }
        length := length * 256 + b.value as nat;
      }
      return Some(length);
    }

    method ReadIntegerOctets() returns (v: Option<seq<byte>>)
      requires index <= |data|
      modifies this
      ensures index <= |data|
      ensures match ReadInteger(data[old(index)..])
              case None => v == None
              case Some(read) => v == Some(read.value) && data[index..] == read.rest
    {
      var tag := ReadByte();
      if tag != Some(0x02) {
        return None;
      }
      var length := ReadLengthOctets();
      if length.None? || length.value == 0 || index + length.value > |data| {
        return None;
      }
      var value := data[index..index + length.value];
      ghost var rest := data[index..];
      index := index + length.value;
      assert value == rest[..length.value] && data[index..] == rest[length.value..];
      v := ToThirtyTwo(value);
    }

    method DerToP1363Bytes() returns (out: Option<seq<byte>>)
      requires index == 0
      modifies this
      ensures out == DerToP1363(data)
    {
      var tag := ReadByte();
      if tag != Some(0x30) {
        return None;
      }
      var sequenceLength := ReadLengthOctets();
      if sequenceLength.None? || sequenceLength.value != |data| - index {
        return None;
      }
      var r := ReadIntegerOctets();
      if r.None? {
        return None;
      }
      var s := ReadIntegerOctets();
      if s.None? || index != |data| {
        return None;
      }
      return Some(r.value + s.value);
    }
  }

  /** Leading zeros are stripped down to 32 bytes, or added up to 32; None where more than 32 bytes are left. */
  method ToThirtyTwo(content: seq<byte>) returns (v: Option<seq<byte>>)
    ensures v == if FitsP256(content) then Some(Fixed(Value(content), 32)) else None
  {
    var value: seq<byte> := content;
    while |value| > 32 && value[0] == 0
      invariant Value(value) == Value(content)
    {
      LeadingZero(value[1..]);
      assert value == [0] + value[1..];
      value := value[1..];
    }
    if |value| > 32 {
      LeadingDigit(value);
      PowerGrows(32, |value| - 1);
      return None;
    }
    ValueBelow(value);
    PowerGrows(|value|, 32);
    if |value| < 32 {
      LeadingZeros(32 - |value|, value);
      value := seq(32 - |value|, _ => 0 as byte) + value;
    }
    FixedValue(Value(content), 32);
    SameDigits(value, Fixed(Value(content), 32));
    return Some(value);
  }
}
