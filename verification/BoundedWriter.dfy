/** The byte budget of boundedDocumentSource: its append closure, browser-extension/browser-operations.js:1084-1107. */
module BoundedWriter {
  import opened Records
  import opened Utf8

  /** One string handed to append; `limited` says that a length limit had cut something out of it. */
  datatype Piece = Piece(text: Text, limited: bool)

  datatype Out = Out(source: Text, returned: nat, exhausted: bool, safety: bool)

  const START := Out([], 0, false, false)
  const MINIMUM_SLICE := 1024

  function Sliced(text: Text, remaining: nat): (t: Text)
    ensures t <= text
  {
    var maxChars := if remaining > MINIMUM_SLICE then remaining else MINIMUM_SLICE;
    if |text| > maxChars then text[..maxChars] else text
  }

  /** What the decode loop leaves of an encoding that is longer than `room`. */
  function Cut(cs: seq<Scalar>, room: nat): Text {
    Units(WithoutMark(cs[..Whole(cs, room)]))
  }

  function Appended(o: Out, text: Text, max: nat): Out {
    if o.exhausted then o
    else if o.returned >= max then o.(exhausted := true)
    else
      var remaining := max - o.returned;
      var t := Sliced(text, remaining);
      var safety := o.safety || |t| < |text|;
      if |Encode(t)| <= remaining then Out(o.source + t, o.returned + |Encode(t)|, false, safety)
      else
        var kept := Scalars(t)[..Whole(Scalars(t), remaining)];
        Out(o.source + Cut(Scalars(t), remaining), o.returned + |EncodeScalars(kept)|, true, safety)
  }

  function Apply(o: Out, p: Piece, max: nat): Out {
    if o.exhausted then o else Appended(o.(safety := o.safety || p.limited), p.text, max)
  }

  function ApplyAll(o: Out, ps: seq<Piece>, max: nat): Out {
    if ps == [] then o else Apply(ApplyAll(o, ps[..|ps| - 1], max), ps[|ps| - 1], max)
  }

  lemma {:induction false} ApplyAppend(o: Out, a: seq<Piece>, b: seq<Piece>, max: nat)
    ensures ApplyAll(o, a + b, max) == ApplyAll(ApplyAll(o, a, max), b, max)
    decreases |b|
  {
    if b == [] {
      assert a + b == a;
    } else {
      ApplyAppend(o, a, b[..|b| - 1], max);
      assert (a + b)[..|a + b| - 1] == a + b[..|b| - 1];
    }
  }

  lemma {:induction false} ExhaustedStays(o: Out, ps: seq<Piece>, max: nat)
    requires o.exhausted
    ensures ApplyAll(o, ps, max) == o
  {
    if ps != [] {
      ExhaustedStays(o, ps[..|ps| - 1], max);
    }
  }

  // ---- what was written ----

  function Join(ps: seq<Piece>): Text {
    if ps == [] then [] else Join(ps[..|ps| - 1]) + ps[|ps| - 1].text
  }

  function Bytes(ps: seq<Piece>): nat {
    if ps == [] then 0 else Bytes(ps[..|ps| - 1]) + |Encode(ps[|ps| - 1].text)|
  }

  lemma {:induction false} JoinAppend(a: seq<Piece>, b: seq<Piece>)
    ensures Join(a + b) == Join(a) + Join(b)
    decreases |b|
  {
    if b == [] {
      assert a + b == a;
    } else {
      JoinAppend(a, b[..|b| - 1]);
      assert (a + b)[..|a + b| - 1] == a + b[..|b| - 1];
      Reassociate(Join(a), Join(b[..|b| - 1]), b[|b| - 1].text);
    }
  }

  lemma Reassociate<A>(a: seq<A>, b: seq<A>, c: seq<A>)
    ensures (a + b) + c == a + (b + c)
  {
  }

  predicate NoneLimited(ps: seq<Piece>) {
    forall i :: 0 <= i < |ps| ==> !ps[i].limited
  }

  /** A text that is written whole after `used` bytes: no slice, and within the rest of the budget. */
  predicate Fits(used: nat, text: Text, max: nat) {
    used < max && |Sliced(text, max - used)| == |text| && |Encode(text)| <= max - used
  }

  /** How many pieces are written whole. */
  function Stop(ps: seq<Piece>, max: nat): (j: nat)
    ensures j <= |ps|
  {
    if ps == [] then 0
    else
      var front := ps[..|ps| - 1];
      if Stop(front, max) < |front| then Stop(front, max)
      else if Fits(Bytes(front), ps[|ps| - 1].text, max) then |ps|
      else |front|
  }

  /** How many characters of a text are kept in `room` bytes. */
  function Kept(text: Text, room: nat): nat {
    Whole(Scalars(Sliced(text, room)), room)
  }

  /** How many characters are kept of the first piece that is not written whole. */
  function KeptOf(ps: seq<Piece>, max: nat): nat
    requires Stop(ps, max) < |ps|
  {
    var j := Stop(ps, max);
    Kept(ps[j].text, if Bytes(ps[..j]) < max then max - Bytes(ps[..j]) else 0)
  }

  /** Every piece is there, whole. */
  ghost predicate Complete(o: Out, ps: seq<Piece>, max: nat) {
    && Stop(ps, max) == |ps|
    && !o.exhausted && o.source == Join(ps) && o.returned == Bytes(ps) <= max
    && (!o.safety ==> NoneLimited(ps))
  }

  /** The pieces before `j` are there whole, and of piece `j` the first `n` characters, less a leading byte order mark. */
  ghost predicate CutAt(o: Out, ps: seq<Piece>, j: nat, n: nat) {
    && j < |ps| && n <= |Scalars(ps[j].text)|
    && o.source == Join(ps[..j]) + Units(WithoutMark(Scalars(ps[j].text)[..n]))
    && o.returned == Bytes(ps[..j]) + |EncodeScalars(Scalars(ps[j].text)[..n])|
  }

  /** The budget is used up, but for the bytes of one character that did not fit. */
  ghost predicate UsedUp(o: Out, max: nat) {
    max - 3 <= o.returned <= max && (o.exhausted || (o.returned == max && o.safety))
  }

  ghost predicate Broken(o: Out, ps: seq<Piece>, max: nat) {
    && UsedUp(o, max)
    && Stop(ps, max) < |ps| && CutAt(o, ps, Stop(ps, max), KeptOf(ps, max))
  }

  ghost predicate Written(o: Out, ps: seq<Piece>, max: nat) {
    Complete(o, ps, max) || Broken(o, ps, max)
  }

  lemma AppendWhole(o: Out, text: Text, max: nat)
    requires !o.exhausted && Fits(o.returned, text, max)
    ensures Appended(o, text, max) == Out(o.source + text, o.returned + |Encode(text)|, false, o.safety)
  {
    assert Sliced(text, max - o.returned) == text;
  }

  /** Otherwise the budget is used up, and what is kept is the front of the text. */
  lemma AppendPart(o: Out, text: Text, max: nat) returns (n: nat)
    requires !o.exhausted && o.returned <= max && !Fits(o.returned, text, max)
    ensures n == Kept(text, max - o.returned) <= |Scalars(text)|
    ensures var o' := Appended(o, text, max);
            && o'.source == o.source + Units(WithoutMark(Scalars(text)[..n]))
            && o'.returned == o.returned + |EncodeScalars(Scalars(text)[..n])|
            && UsedUp(o', max)
  {
    hide Scalars, Units, EncodeScalars, Encode, Sliced, Whole, WithoutMark, Kept;
    if o.returned == max {
      n := 0;
      NothingKept(text);
      assert o.source + [] == o.source;
    } else {
      assert |Sliced(text, max - o.returned)| == |text| ==> Sliced(text, max - o.returned) == text;
      n := FrontOfSlice(text, max - o.returned);
    }
  }

  lemma NothingKept(text: Text)
    ensures Kept(text, 0) == 0 && Scalars(text)[..0] == [] && WithoutMark([]) == [] && Units([]) == [] && EncodeScalars([]) == []
  {
  }

  /** The slice that is encoded: whole if it fits, and else cut between characters. */
  lemma FrontOfSlice(text: Text, remaining: nat) returns (n: nat)
    requires remaining > 0 && (|Encode(Sliced(text, remaining))| <= remaining ==> |Sliced(text, remaining)| < |text|)
    ensures n == Kept(text, remaining) <= |Scalars(text)|
    ensures var t := Sliced(text, remaining);
            && Scalars(text)[..n] == Scalars(t)[..Whole(Scalars(t), remaining)]
            && |EncodeScalars(Scalars(text)[..n])| <= remaining
            && if |Encode(t)| <= remaining then
                 Units(WithoutMark(Scalars(text)[..n])) == t && remaining == |Encode(t)| == |EncodeScalars(Scalars(text)[..n])|
               else remaining - 3 <= |EncodeScalars(Scalars(text)[..n])|
  {
    hide Scalars, Units, EncodeScalars, Whole, WithoutMark;
    var t := Sliced(text, remaining);
    assert t == text[..|t|];
    WholeFits(Scalars(t), remaining);
    assert Scalars(t)[..|Scalars(t)|] == Scalars(t);
    if |Encode(t)| <= remaining {
      n := SliceThatFits(text, |t|, remaining);
    } else {
      n := Whole(Scalars(t), remaining);
      CutOfSlice(text, |t|, n);
    }
  }

  lemma SliceThatFits(text: Text, m: nat, remaining: nat) returns (n: nat)
    requires m <= |text| && m >= remaining > 0 && |Encode(text[..m])| <= remaining
    ensures n == |Scalars(text[..m])| <= |Scalars(text)| && Scalars(text)[..n] == Scalars(text[..m])
    ensures Units(WithoutMark(Scalars(text)[..n])) == text[..m] && m == remaining == |Encode(text[..m])|
  {
    var t := text[..m];
    n := |Scalars(t)|;
    EncodedIsLonger(t);
    TightIsAscii(t);
    SliceKeepsScalars(text, m, n);
    assert Scalars(t)[..n] == Scalars(t);
    assert Scalars(t)[0] == t[0];
    WellFormedReadsBack(t);
  }

  lemma CutOfSlice(text: Text, m: nat, n: nat)
    requires m <= |text| && n < |Scalars(text[..m])|
    ensures n <= |Scalars(text)| && Scalars(text)[..n] == Scalars(text[..m])[..n]
  {
    SliceKeepsScalars(text, m, n);
  }

  lemma {:induction false} AllWritten(ps: seq<Piece>, max: nat)
    ensures Written(ApplyAll(START, ps, max), ps, max)
  {
    if ps != [] {
      var front, last := ps[..|ps| - 1], ps[|ps| - 1];
      AllWritten(front, max);
      var o := ApplyAll(START, front, max);
      assert ps == front + [last];
      if Complete(o, front, max) {
        NextWritten(o, front, last, max);
      } else {
        CutStays(o, front, last, max);
      }
    }
  }

  lemma NextWritten(o: Out, front: seq<Piece>, last: Piece, max: nat)
    requires Complete(o, front, max)
    ensures Written(Apply(o, last, max), front + [last], max)
  {
    if Fits(o.returned, last.text, max) {
      NextIsWhole(o, front, last, max);
    } else {
      NextIsCut(o, front, last, max);
    }
  }

  lemma NextIsWhole(o: Out, front: seq<Piece>, last: Piece, max: nat)
    requires Complete(o, front, max) && Fits(o.returned, last.text, max)
    ensures Complete(Apply(o, last, max), front + [last], max)
  {
    hide Encode;
    AppendWhole(o.(safety := o.safety || last.limited), last.text, max);
    hide Appended, Sliced;
    assert (front + [last])[..|front|] == front;
  }

  lemma NextIsCut(o: Out, front: seq<Piece>, last: Piece, max: nat)
    requires Complete(o, front, max) && !Fits(o.returned, last.text, max)
    ensures Broken(Apply(o, last, max), front + [last], max)
  {
    hide Encode, Sliced, Appended, Join, Bytes, EncodeScalars, Units, Scalars, WithoutMark, Fits, Kept;
    var n := AppendPart(o.(safety := o.safety || last.limited), last.text, max);
    assert (front + [last])[..|front|] == front;
    assert CutAt(Apply(o, last, max), front + [last], |front|, n);
  }

  lemma NothingMoreFits(o: Out, p: Piece, max: nat)
    requires UsedUp(o, max)
    ensures var o' := Apply(o, p, max);
            o'.source == o.source && o'.returned == o.returned && UsedUp(o', max)
  {
  }

  lemma CutStays(o: Out, front: seq<Piece>, last: Piece, max: nat)
    requires Broken(o, front, max)
    ensures Broken(Apply(o, last, max), front + [last], max)
  {
    NothingMoreFits(o, last, max);
    hide Join, Bytes, Encode, EncodeScalars, Units, Scalars, WithoutMark, Kept, Fits, Apply;
    var j, n := Stop(front, max), KeptOf(front, max);
    var ps := front + [last];
    assert ps[..|ps| - 1] == front;
    assert ps[..j] == front[..j] && ps[j] == front[j];
    assert Stop(ps, max) == j && KeptOf(ps, max) == n;
    hide Stop, KeptOf;
    assert CutAt(Apply(o, last, max), ps, j, n);
  }

  // ---- the encoded size of what was written ----

  lemma {:induction false} JoinIsNoLonger(ps: seq<Piece>)
    ensures |Encode(Join(ps))| <= Bytes(ps)
  {
    if ps != [] {
      JoinIsNoLonger(ps[..|ps| - 1]);
      JoinNeverLengthens(Join(ps[..|ps| - 1]), ps[|ps| - 1].text);
    }
  }

  /** The source that is returned, encoded, is never longer than the byte count, nor that than the budget. */
  lemma WithinBudget(ps: seq<Piece>, max: nat)
    ensures var o := ApplyAll(START, ps, max);
            |Encode(o.source)| <= o.returned <= max
  {
    var o := ApplyAll(START, ps, max);
    AllWritten(ps, max);
    if Complete(o, ps, max) {
      JoinIsNoLonger(ps);
    } else {
      var j, n := Stop(ps, max), KeptOf(ps, max);
      var kept := Scalars(ps[j].text)[..n];
      JoinIsNoLonger(ps[..j]);
      UnitsReadBack(WithoutMark(kept));
      JoinNeverLengthens(Join(ps[..j]), Units(WithoutMark(kept)));
    }
  }

  // ---- the closure ----

  class Writer {
    const maxBytes: nat
    var source: Text
    var returnedBytes: nat
    var budgetExhausted: bool
    var safetyTruncated: bool

    function State(): Out
      reads this
    {
      Out(source, returnedBytes, budgetExhausted, safetyTruncated)
    }

    constructor (maxBytes: nat)
      ensures State() == START && this.maxBytes == maxBytes
    {
      this.maxBytes := maxBytes;
      source, returnedBytes, budgetExhausted, safetyTruncated := [], 0, false, false;
    }

    method Append(raw: Text) returns (ok: bool)
      modifies this
      ensures State() == Appended(old(State()), raw, maxBytes)
      ensures ok == !budgetExhausted
    {
      if budgetExhausted {
        return false;
      }
      if returnedBytes >= maxBytes {
        budgetExhausted := true;
        return false;
      }
      var remaining := maxBytes - returnedBytes;
      var maxChars := if remaining > MINIMUM_SLICE then remaining else MINIMUM_SLICE;
      var text := raw;
      if |text| > maxChars {
        text := text[..maxChars];
        safetyTruncated := true;
      }
      assert text == Sliced(raw, remaining);
      var bytes := Encode(text);
      if |bytes| <= remaining {
        source := source + text;
        returnedBytes := returnedBytes + |bytes|;
        return true;
      }
      var end, prefix := DecodablePrefix(text, bytes, remaining);
      source := source + prefix;
      returnedBytes := returnedBytes + end;
      budgetExhausted := true;
      return false;
    }
  }

  /** The decode loop: the longest prefix within `remaining` bytes that the fatal decoder accepts. */
  method DecodablePrefix(text: Text, bytes: seq<byte>, remaining: nat) returns (end: nat, prefix: Text)
    requires bytes == Encode(text) && |bytes| > remaining
    ensures end == |EncodeScalars(Scalars(text)[..Whole(Scalars(text), remaining)])|
    ensures prefix == Cut(Scalars(text), remaining)
  {
    ghost var cs := Scalars(text);
    ghost var kept := cs[..Whole(cs, remaining)];
    WholeFits(cs, remaining);
    end, prefix := remaining, [];
    while end > 0
      invariant |EncodeScalars(kept)| <= end <= remaining && Whole(cs, end) == |kept|
      invariant prefix == []
    {
      CutDecodes(cs, end);
      var decoded := Decode(bytes[..end]);
      if decoded.Some? {
        prefix := decoded.value;
        return;
      }
      WholeIsStable(cs, end);
      end := end - 1;
    }
    assert kept == [];
  }

  /** Between two character boundaries the number of whole characters does not change. */
  lemma {:induction false} WholeIsStable(cs: seq<Scalar>, room: nat)
    requires |EncodeScalars(cs[..Whole(cs, room)])| < room
    ensures Whole(cs, room - 1) == Whole(cs, room)
  {
    if cs != [] && |EncodeScalar(cs[0])| <= room {
      WholeStep(cs, room);
      WholeIsStable(cs[1..], room - |EncodeScalar(cs[0])|);
    }
  }
}
