/** When the page source that an exhausted budget leaves is a prefix of the recursive serialization without any limit. */
module DocumentPrefix {
  import opened Records
  import opened Utf8
  import opened BoundedWriter
  import opened DocumentSource

  // ---- the front of one text ----

  /** Among the first `n` characters there is no surrogate without a partner. */
  predicate Proper(t: Text, n: nat)
    requires n <= |Scalars(t)|
  {
    if n == 0 then true
    else if Paired(t) then Proper(t[2..], n - 1)
    else !High(t[0]) && !Low(t[0]) && Proper(t[1..], n - 1)
  }

  /** All of the first `n` characters are U+FEFF. */
  predicate OnlyMarks(t: Text, n: nat)
    requires n <= |Scalars(t)|
  {
    forall i :: 0 <= i < n ==> Scalars(t)[i] == BYTE_ORDER_MARK
  }

  /** What the decoder returns of those characters is what stands there. */
  predicate Unharmed(t: Text, n: nat)
    requires n <= |Scalars(t)|
  {
    Proper(t, n) && (n > 0 && t[0] == BYTE_ORDER_MARK ==> OnlyMarks(t, n))
  }

  lemma PrefixOfSum<A>(a: seq<A>, b: seq<A>, t: seq<A>)
    ensures a + b <= t <==> a <= t && b <= t[|a|..]
  {
    if a <= t && b <= t[|a|..] {
      assert t == a + t[|a|..];
    }
    if a + b <= t {
      assert t[..|a|] == (a + b)[..|a|] == a;
      assert t[|a|..][..|b|] == t[|a|..|a| + |b|] == (a + b)[|a|..] == b;
    }
  }

  /** Characters turned back into code units give the text they were read from, up to the first lone surrogate. */
  lemma {:induction false} FrontReadsBack(t: Text, n: nat, rest: Text)
    requires n <= |Scalars(t)|
    ensures Units(Scalars(t)[..n]) <= t + rest <==> Proper(t, n)
    decreases |t|
  {
    if n > 0 {
      var k := if Paired(t) then 2 else 1;
      var c, tail := Scalars(t)[0], t[k..];
      FirstOfFront(t, n);
      FirstReadsBack(t, rest);
      hide Scalars, Units, UnitsOf;
      FrontReadsBack(tail, n - 1, rest);
      PrefixOfSum(UnitsOf(c), Units(Scalars(tail)[..n - 1]), t + rest);
    }
  }

  lemma {:induction false} FirstOfFront(t: Text, n: nat)
    requires 0 < n <= |Scalars(t)|
    ensures var k := if Paired(t) then 2 else 1;
            n - 1 <= |Scalars(t[k..])| && Units(Scalars(t)[..n]) == UnitsOf(Scalars(t)[0]) + Units(Scalars(t[k..])[..n - 1])
  {
    var k := if Paired(t) then 2 else 1;
    FirstEncoded(t);
    hide Scalars, UnitsOf, Encode;
    assert Scalars(t)[..n] == [Scalars(t)[0]] + Scalars(t[k..])[..n - 1];
  }

  lemma {:induction false} FirstReadsBack(t: Text, rest: Text)
    requires t != []
    ensures Scalars(t) != []
    ensures var units, k := UnitsOf(Scalars(t)[0]), if Paired(t) then 2 else 1;
            if Paired(t) || !(High(t[0]) || Low(t[0])) then units == (t + rest)[..k] && (t + rest)[|units|..] == t[k..] + rest
            else !(units <= t + rest)
  {
    FirstEncoded(t);
    hide Scalars, Encode;
    var units := UnitsOf(Scalars(t)[0]);
    if Paired(t) {
      assert units == [t[0], t[1]];
      assert (t + rest)[2..] == t[2..] + rest && (t + rest)[..2] == [t[0], t[1]];
    } else {
      assert (t + rest)[1..] == t[1..] + rest && (t + rest)[..1] == [t[0]];
      assert units[0] == Scalars(t)[0];
    }
  }

  /** Moved one place forward, over a mark that went, they only fit marks. */
  lemma {:induction false} ShiftedReadsBack(t: Text, n: nat, rest: Text)
    requires n <= |Scalars(t)|
    ensures Units(Scalars(t)[..n]) <= [BYTE_ORDER_MARK] + (t + rest) <==> OnlyMarks(t, n)
    decreases |t|
  {
    if n > 0 {
      var k := if Paired(t) then 2 else 1;
      var c, tail := Scalars(t)[0], t[k..];
      assert Scalars(t)[..n] == [c] + Scalars(tail)[..n - 1];
      assert Units(Scalars(t)[..n]) == UnitsOf(c) + Units(Scalars(tail)[..n - 1]);
      var all := [BYTE_ORDER_MARK] + (t + rest);
      PrefixOfSum(UnitsOf(c), Units(Scalars(tail)[..n - 1]), all);
      if c == BYTE_ORDER_MARK {
        assert t[0] == BYTE_ORDER_MARK && k == 1;
        ShiftedReadsBack(tail, n - 1, rest);
        assert all[1..] == [BYTE_ORDER_MARK] + (tail + rest);
        assert all[..1] == [BYTE_ORDER_MARK];
        assert forall i :: 0 < i < n ==> Scalars(t)[i] == Scalars(tail)[i - 1];
        assert forall i :: 0 <= i < n - 1 ==> Scalars(tail)[i] == Scalars(t)[i + 1];
      } else {
        assert UnitsOf(c)[0] != BYTE_ORDER_MARK && all[0] == BYTE_ORDER_MARK;
      }
    }
  }

  lemma {:induction false} MarksAreProper(t: Text, n: nat)
    requires n <= |Scalars(t)| && OnlyMarks(t, n)
    ensures Proper(t, n)
    decreases n
  {
    if n > 0 {
      assert Scalars(t)[0] == BYTE_ORDER_MARK;
      assert !Paired(t) && t[0] == BYTE_ORDER_MARK;
      assert forall i :: 0 <= i < n - 1 ==> Scalars(t[1..])[i] == Scalars(t)[i + 1];
      MarksAreProper(t[1..], n - 1);
    }
  }

  /** The front that a cut keeps of a text is a prefix of it, and of whatever follows, exactly when it is unharmed. */
  lemma CutFrontIsPrefix(t: Text, n: nat, rest: Text)
    requires n <= |Scalars(t)|
    ensures Units(WithoutMark(Scalars(t)[..n])) <= t + rest <==> Unharmed(t, n)
  {
    var cs := Scalars(t);
    if n > 0 && cs[0] == BYTE_ORDER_MARK {
      assert !Paired(t) && t[0] == BYTE_ORDER_MARK;
      assert WithoutMark(cs[..n]) == Scalars(t[1..])[..n - 1];
      ShiftedReadsBack(t[1..], n - 1, rest);
      assert t + rest == [BYTE_ORDER_MARK] + (t[1..] + rest);
      assert forall i :: 0 < i < n ==> cs[i] == Scalars(t[1..])[i - 1];
      assert OnlyMarks(t[1..], n - 1) <==> OnlyMarks(t, n) by {
        assert forall i :: 0 <= i < n - 1 ==> Scalars(t[1..])[i] == cs[i + 1];
      }
      if OnlyMarks(t, n) {
        MarksAreProper(t, n);
      }
    } else {
      assert WithoutMark(cs[..n]) == cs[..n];
      FrontReadsBack(t, n, rest);
    }
  }

  // ---- the whole source ----

  lemma JoinSplit(ps: seq<Piece>, j: nat)
    requires j < |ps|
    ensures Join(ps) == Join(ps[..j]) + (ps[j].text + Join(ps[j + 1..]))
  {
    hide Join;
    SplitAt(ps, j);
    JoinAppend(ps[..j], [ps[j]] + ps[j + 1..]);
    JoinAppend([ps[j]], ps[j + 1..]);
    JoinOne(ps[j]);
  }

  lemma SplitAt<A>(s: seq<A>, j: nat)
    requires j < |s|
    ensures s == s[..j] + ([s[j]] + s[j + 1..])
  {
  }

  /**
   * A used-up budget leaves the pieces before some piece whole, and whole characters of that one; it falls short of the
   * budget by at most three bytes. Which piece and how many characters follows from the sizes alone. The result is a
   * prefix of what the pieces join to exactly when those characters contain no lone surrogate and do not lose a mark.
   */
  lemma CutIsPrefixOfPieces(ps: seq<Piece>, max: nat)
    requires Stop(ps, max) < |ps|
    ensures var o, j, n := ApplyAll(START, ps, max), Stop(ps, max), KeptOf(ps, max);
            && CutAt(o, ps, j, n)
            && max - 3 <= o.returned <= max
            && (o.source <= Join(ps) <==> Unharmed(ps[j].text, n))
  {
    AllWritten(ps, max);
    var o, j, n := ApplyAll(START, ps, max), Stop(ps, max), KeptOf(ps, max);
    JoinSplit(ps, j);
    CutFrontIsPrefix(ps[j].text, n, Join(ps[j + 1..]));
    hide Join, Unharmed, Units, Scalars;
    PrefixOfSum(Join(ps[..j]), Units(WithoutMark(Scalars(ps[j].text)[..n])), Join(ps));
    assert Join(ps)[|Join(ps[..j])|..] == ps[j].text + Join(ps[j + 1..]);
  }

  lemma ExhaustedStops(ps: seq<Piece>, max: nat)
    requires ApplyAll(START, ps, max).exhausted
    ensures Stop(ps, max) < |ps|
  {
    AllWritten(ps, max);
  }

  // ---- the serialization without limits ----

  /** The first `k` pieces, none of them limited, join to a prefix of what both parts are without limits. */
  lemma FrontOfSum(a: seq<Piece>, b: seq<Piece>, k: nat, fullA: Text, fullB: Text)
    requires k <= |a + b|
    requires if k <= |a| then Join(a[..k]) <= fullA else Join(a) == fullA && Join(b[..k - |a|]) <= fullB
    ensures Join((a + b)[..k]) <= fullA + fullB
  {
    if k <= |a| {
      assert (a + b)[..k] == a[..k];
    } else {
      assert (a + b)[..k] == a + b[..k - |a|];
      JoinAppend(a, b[..k - |a|]);
    }
  }

  lemma NoneLimitedFront(a: seq<Piece>, b: seq<Piece>, k: nat)
    requires k <= |a + b| && NoneLimited((a + b)[..k])
    ensures k <= |a| ==> NoneLimited(a[..k])
    ensures k > |a| ==> NoneLimited(a) && NoneLimited(b[..k - |a|])
  {
    if k <= |a| {
      assert (a + b)[..k] == a[..k];
    } else {
      assert (a + b)[..k] == a + b[..k - |a|];
      NoneLimitedParts(a, b[..k - |a|]);
    }
  }

  lemma FrontOfOne(p: Piece, k: nat, full: Text)
    requires k <= 1 && (k == 1 ==> p.text <= full)
    ensures Join([p][..k]) <= full
  {
    JoinOne(p);
    assert [p][..1] == [p] && [p][..0] == [];
  }

  lemma {:induction false} FullAttributesGrow(attributes: seq<Attribute>, m: nat)
    requires m <= |attributes|
    ensures FullAttributes(attributes[..m]) <= FullAttributes(attributes)
  {
    if m < |attributes| {
      FullAttributesGrow(attributes[..|attributes| - 1], m);
      assert attributes[..|attributes| - 1][..m] == attributes[..m];
      FullAttributesLast(attributes);
    } else {
      assert attributes[..m] == attributes;
    }
  }

  lemma AttributesFront(attributes: seq<Attribute>, k: nat)
    requires k <= |AttributePieces(Slice(attributes, MAX_ATTRIBUTES))|
    requires NoneLimited(AttributePieces(Slice(attributes, MAX_ATTRIBUTES))[..k])
    ensures Join(AttributePieces(Slice(attributes, MAX_ATTRIBUTES))[..k]) <= FullAttributes(attributes)
  {
    hide FullAttributes, AttributePiece;
    var some := Slice(attributes, MAX_ATTRIBUTES);
    AttributePiecesPrefix(some, |some|);
    AttributePiecesPrefix(some, k);
    AttributePiecesPrefix(some[..k], k);
    assert AttributePieces(some)[..k] == AttributePieces(some[..k]);
    AttributesJoin(some[..k]);
    hide AttributePieces;
    assert some[..k] == attributes[..k];
    FullAttributesGrow(attributes, k);
  }

  lemma OpeningFront(n: Node, lower: Text -> Text, k: nat)
    requires n.Element? && k <= |Opening(n, lower)| && NoneLimited(Opening(n, lower)[..k])
    ensures Join(Opening(n, lower)[..k]) <= FullOpening(n, lower)
  {
    hide FullAttributes, AttributePieces, Slice;
    var first := Piece([LESS] + TagOf(n, lower), |OrDefault(n.tagName, T("div"))| > MAX_TAG_CHARS);
    var last := Piece([GREATER], |n.attributes| > MAX_ATTRIBUTES);
    var middle := AttributePieces(Slice(n.attributes, MAX_ATTRIBUTES));
    if k == |Opening(n, lower)| {
      assert Opening(n, lower)[..k] == Opening(n, lower);
      OpeningJoins(n, lower);
    } else if k > 0 {
      assert ([first] + middle + [last])[..k] == [first] + middle[..k - 1];
      NoneLimitedParts([first], middle[..k - 1]);
      assert ![first][0].limited;
      AttributesFront(n.attributes, k - 1);
      JoinAppend([first], middle[..k - 1]);
      JoinOne(first);
      Longer([LESS] + FullTag(n, lower), Join(middle[..k - 1]), FullAttributes(n.attributes), [GREATER]);
    }
  }

  lemma Longer(a: Text, b: Text, c: Text, d: Text)
    requires b <= c
    ensures a + b <= a + c + d
  {
  }

  /** What stands between the opening tag and the end of an element. */
  lemma ElementFront(n: Node, lower: Text -> Text, k: nat, inner: seq<Piece>, fullInner: Text)
    requires n.Element? && k <= |Opening(n, lower) + inner| && NoneLimited((Opening(n, lower) + inner)[..k])
    requires k > |Opening(n, lower)| ==> Join(inner[..k - |Opening(n, lower)|]) <= fullInner
    ensures Join((Opening(n, lower) + inner)[..k]) <= FullOpening(n, lower) + fullInner
  {
    NoneLimitedFront(Opening(n, lower), inner, k);
    if k <= |Opening(n, lower)| {
      OpeningFront(n, lower, k);
    } else {
      OpeningJoins(n, lower);
    }
    hide Opening, FullOpening;
    FrontOfSum(Opening(n, lower), inner, k, FullOpening(n, lower), fullInner);
  }

  lemma ThreeFront(a: seq<Piece>, b: seq<Piece>, last: Piece, k: nat, fullA: Text, fullB: Text)
    requires k <= |a| + |b| + 1
    requires if k <= |a| then Join(a[..k]) <= fullA
             else Join(a) == fullA && if k <= |a| + |b| then Join(b[..k - |a|]) <= fullB else Join(b) == fullB
    ensures Join((a + b + [last])[..k]) <= fullA + fullB + last.text
  {
    hide Join;
    if k <= |a| + |b| {
      FrontOfSum(a, b, k, fullA, fullB);
      FrontOfSum(a + b, [last], k, fullA + fullB, last.text);
    } else {
      JoinAppend(a, b);
      FrontOfOne(last, 1, last.text);
      FrontOfSum(a + b, [last], k, fullA + fullB, last.text);
    }
  }

  lemma NoneLimitedThree(a: seq<Piece>, b: seq<Piece>, last: Piece, k: nat)
    requires k <= |a| + |b| + 1 && NoneLimited((a + b + [last])[..k])
    ensures if k <= |a| then NoneLimited(a[..k])
            else NoneLimited(a) && if k <= |a| + |b| then NoneLimited(b[..k - |a|]) else NoneLimited(b)
  {
    assert a + b + [last] == a + (b + [last]);
    NoneLimitedFront(a, b + [last], k);
    if k > |a| {
      NoneLimitedFront(b, [last], k - |a|);
    }
  }

  lemma {:induction false} ShadowFront(shadow: seq<Node>, lower: Text -> Text, k: nat)
    requires k <= |ShadowPieces(shadow, lower)| && NoneLimited(ShadowPieces(shadow, lower)[..k])
    ensures Join(ShadowPieces(shadow, lower)[..k]) <= FullShadow(shadow, lower)
    decreases shadow, 1
  {
    if shadow != [] {
      var first, inner, last := Plain(SHADOW_OPEN), PiecesOf(shadow, false, lower), Plain(SHADOW_CLOSE);
      NoneLimitedThree([first], inner, last, k);
      FrontOfOne(first, if k <= 1 then k else 1, SHADOW_OPEN);
      JoinOne(first);
      if 1 < k <= 1 + |inner| {
        PiecesOfFront(shadow, false, lower, k - 1);
      } else if k > 1 {
        PiecesOfJoin(shadow, false, lower);
      }
      hide PiecesOf, FullAll, Join;
      ThreeFront([first], inner, last, k, SHADOW_OPEN, FullAll(shadow, false, lower));
    }
  }

  lemma {:induction false} PiecesFront(n: Node, raw: bool, lower: Text -> Text, k: nat)
    requires k <= |Pieces(n, raw, lower)| && NoneLimited(Pieces(n, raw, lower)[..k])
    ensures Join(Pieces(n, raw, lower)[..k]) <= Full(n, raw, lower)
    decreases n, 2
  {
    match n
    case DoctypeNode =>
    case OtherNode =>
    case TextNode(data) =>
      if k == 1 {
        assert !Pieces(n, raw, lower)[..k][0].limited;
      }
      FrontOfOne(TextPiece(data, raw), k, Full(n, raw, lower));
    case Comment(data) =>
      if k == 1 {
        assert !Pieces(n, raw, lower)[..k][0].limited;
      }
      FrontOfOne(CommentPiece(data), k, Full(n, raw, lower));
    case Element(_, _, shadow, children, _) =>
      var a := Opening(n, lower);
      if Void(TagOf(n, lower)) {
        VoidFront(n, raw, lower, k);
      } else {
        var inner := PiecesOf(children, RawText(n, lower), lower) + ShadowPieces(shadow, lower) + [ClosePiece(TagOf(n, lower))];
        NoneLimitedFront(a, inner, k);
        if k > |a| {
          OpeningJoins(n, lower);
          InnerFront(n, lower, k - |a|);
          ElementFront(n, lower, k, inner, FullAll(children, RawText(n, lower), lower) + FullShadow(shadow, lower) + CloseTag(FullTag(n, lower)));
        } else {
          assert Pieces(n, raw, lower)[..k] == a[..k];
          OpeningFront(n, lower, k);
        }
      }
  }

  lemma VoidFront(n: Node, raw: bool, lower: Text -> Text, k: nat)
    requires n.Element? && Void(TagOf(n, lower)) && k <= |Pieces(n, raw, lower)| && NoneLimited(Pieces(n, raw, lower)[..k])
    ensures Join(Pieces(n, raw, lower)[..k]) <= Full(n, raw, lower)
  {
    assert Pieces(n, raw, lower) == Opening(n, lower);
    OpeningFront(n, lower, k);
  }

  /** The children, the shadow template and the close tag of an element. */
  lemma {:induction false} InnerFront(n: Node, lower: Text -> Text, k: nat)
    requires n.Element? && TagOf(n, lower) == FullTag(n, lower)
    requires var inner := PiecesOf(n.children, RawText(n, lower), lower) + ShadowPieces(n.shadow, lower) + [ClosePiece(TagOf(n, lower))];
             k <= |inner| && NoneLimited(inner[..k])
    ensures var inner := PiecesOf(n.children, RawText(n, lower), lower) + ShadowPieces(n.shadow, lower) + [ClosePiece(TagOf(n, lower))];
            Join(inner[..k]) <= FullAll(n.children, RawText(n, lower), lower) + FullShadow(n.shadow, lower) + CloseTag(FullTag(n, lower))
    decreases n, 1
  {
    var raw := RawText(n, lower);
    var a, b, last := PiecesOf(n.children, raw, lower), ShadowPieces(n.shadow, lower), ClosePiece(TagOf(n, lower));
    NoneLimitedThree(a, b, last, k);
    if k <= |a| {
      PiecesOfFront(n.children, raw, lower, k);
    } else {
      PiecesOfJoin(n.children, raw, lower);
      if k <= |a| + |b| {
        ShadowFront(n.shadow, lower, k - |a|);
      } else {
        ShadowWhole(n.shadow, lower);
      }
    }
    hide PiecesOf, ShadowPieces, FullAll, FullShadow, Join;
    ThreeFront(a, b, last, k, FullAll(n.children, raw, lower), FullShadow(n.shadow, lower));
  }

  lemma ShadowWhole(shadow: seq<Node>, lower: Text -> Text)
    requires NoneLimited(ShadowPieces(shadow, lower))
    ensures Join(ShadowPieces(shadow, lower)) == FullShadow(shadow, lower)
  {
    if shadow != [] {
      ShadowJoins(shadow, lower);
      PiecesOfJoin(shadow, false, lower);
    }
  }

  lemma {:induction false} PiecesOfFront(ns: seq<Node>, raw: bool, lower: Text -> Text, k: nat)
    requires k <= |PiecesOf(ns, raw, lower)| && NoneLimited(PiecesOf(ns, raw, lower)[..k])
    ensures Join(PiecesOf(ns, raw, lower)[..k]) <= FullAll(ns, raw, lower)
    decreases ns, 0
  {
    if ns != [] {
      var a, b := Pieces(ns[0], raw, lower), PiecesOf(ns[1..], raw, lower);
      NoneLimitedFront(a, b, k);
      if k <= |a| {
        PiecesFront(ns[0], raw, lower, k);
      } else {
        PiecesJoin(ns[0], raw, lower);
        PiecesOfFront(ns[1..], raw, lower, k - |a|);
      }
      FrontOfSum(a, b, k, Full(ns[0], raw, lower), FullAll(ns[1..], raw, lower));
    }
  }

  /** As long as no piece was limited, what the first pieces join to is a prefix of the unlimited serialization. */
  lemma DocumentFront(d: Document, lower: Text -> Text, k: nat)
    requires k <= |DocumentPieces(d, lower)| && NoneLimited(DocumentPieces(d, lower)[..k])
    ensures Join(DocumentPieces(d, lower)[..k]) <= FullDocument(d, lower)
  {
    var a, b := DoctypePieces(d), PiecesOf(d.nodes, false, lower);
    var full := if d.doctype.None? then [] else T("<!DOCTYPE ") + OrDefault(d.doctype.value, T("html")) + T(">\n");
    NoneLimitedFront(a, b, k);
    if d.doctype.Some? {
      if k > 0 {
        assert !(if k <= |a| then a[..k] else a)[0].limited;
      }
      FrontOfOne(a[0], if k == 0 then 0 else 1, full);
      JoinOne(a[0]);
    }
    if k > |a| {
      PiecesOfFront(d.nodes, false, lower, k - |a|);
    }
    FrontOfSum(a, b, k, full, FullAll(d.nodes, false, lower));
  }

  /**
   * For every document: where the budget ends in a piece, and no length limit applied up to that one, the source is a
   * prefix of the unlimited serialization exactly when what was kept of that piece is unharmed.
   */
  lemma ExhaustedIsPrefix(d: Document, lower: Text -> Text, done: nat, max: nat)
    requires done <= |DocumentPieces(d, lower)|
    requires var ps := DocumentPieces(d, lower)[..done];
             Stop(ps, max) < |ps| && NoneLimited(ps[..Stop(ps, max) + 1])
    ensures var ps := DocumentPieces(d, lower)[..done];
            var o, j := ApplyAll(START, ps, max), Stop(ps, max);
            && CutAt(o, ps, j, KeptOf(ps, max))
            && max - 3 <= o.returned <= max
            && (o.source <= FullDocument(d, lower) <==> Unharmed(ps[j].text, KeptOf(ps, max)))
  {
    hide DocumentPieces, FullDocument, Join, Unharmed, Units, Scalars, ApplyAll, KeptOf;
    var ps := DocumentPieces(d, lower)[..done];
    var j, n, full := Stop(ps, max), KeptOf(ps, max), FullDocument(d, lower);
    CutIsPrefixOfPieces(ps, max);
    assert ps[..j + 1] == DocumentPieces(d, lower)[..j + 1];
    DocumentFront(d, lower, j + 1);
    JoinLast(ps, j);
    CutBefore(Join(ps[..j]), ps[j].text, n, full);
  }

  lemma JoinLast(ps: seq<Piece>, j: nat)
    requires j < |ps|
    ensures Join(ps[..j + 1]) == Join(ps[..j]) + ps[j].text
  {
    assert ps[..j + 1][..j] == ps[..j];
  }

  lemma CutBefore(front: Text, t: Text, n: nat, full: Text)
    requires n <= |Scalars(t)| && front + t <= full
    ensures front + Units(WithoutMark(Scalars(t)[..n])) <= full <==> Unharmed(t, n)
  {
    hide Unharmed, Units, Scalars, WithoutMark;
    var kept, rest := Units(WithoutMark(Scalars(t)[..n])), full[|front + t|..];
    assert full == (front + t) + rest;
    assert full[|front|..] == t + rest;
    PrefixOfSum(front, kept, full);
    CutFrontIsPrefix(t, n, rest);
  }

  // ---- three pages ----

  function Lower(t: Text): Text { t }

  /** A page of one paragraph. */
  function Paragraph(data: Text): Document {
    Document(None, [Element(T("p"), [], [], [TextNode(data)], false)])
  }

  lemma CutOfMark()
    ensures |Encode([0xFEFF, 97, 98])| == 5 && Cut(Scalars([0xFEFF, 97, 98]), 4) == [97]
  {
    var t: Text := [0xFEFF, 97, 98];
    assert t[1..] == [97, 98] && t[1..][1..] == [98];
    var cs := Scalars(t);
    assert Scalars([98]) == [98];
    assert Scalars([97, 98]) == [97, 98];
    assert cs == [0xFEFF, 97, 98];
    assert cs[1..] == [97, 98] && cs[1..][1..] == [98] && cs[1..][1..][1..] == [];
    assert |EncodeScalar(0xFEFF)| == 3 && |EncodeScalar(97)| == 1 && |EncodeScalar(98)| == 1;
    assert EncodeScalars([98]) == EncodeScalar(98) + [];
    assert |EncodeScalars([97, 98])| == 2;
    assert Whole([97, 98], 1) == 1;
    assert Whole(cs, 4) == 2;
    assert cs[..2] == [0xFEFF, 97];
    assert cs[..2][1..] == [97];
    assert Units([97]) == [97];
  }

  lemma CutOfHalf()
    ensures |Encode([0xD800, 97])| == 4 && Cut(Scalars([0xD800, 97]), 3) == [0xFFFD]
  {
    var t: Text := [0xD800, 97];
    assert t[1..] == [97];
    assert Scalars([97]) == [97];
    var cs := Scalars(t);
    assert cs == [REPLACEMENT, 97];
    assert cs[1..] == [97];
    assert |EncodeScalar(REPLACEMENT)| == 3;
    assert EncodeScalars([97]) == EncodeScalar(97) + [];
    assert Whole(cs, 3) == 1;
    assert cs[..1] == [REPLACEMENT];
    assert Units([REPLACEMENT]) == [0xFFFD];
  }

  const OPEN: Text := [LESS, 112]

  lemma ParagraphPieces(data: Text)
    requires |data| <= MAX_TEXT_CHARS && EscapedText(data) == data
    ensures DocumentPieces(Paragraph(data), Lower) == [Plain(OPEN), Plain([GREATER]), Plain(data), ClosePiece(T("p"))]
  {
    var p := Element(T("p"), [], [], [TextNode(data)], false);
    assert T("p") == [112];
    assert TagOf(p, Lower) == [112] && !Void([112]) && !RawText(p, Lower) by {
      assert |T("script")| == 6 && |T("style")| == 5;
      forall i | 0 <= i < |VOID_ELEMENTS| ensures |T(VOID_ELEMENTS[i])| >= 2 {
      }
    }
    assert Slice(p.attributes, MAX_ATTRIBUTES) == [] && [LESS] + [112] == OPEN;
    assert OrDefault(p.tagName, T("div")) == [112];
    assert Opening(p, Lower) == [Plain(OPEN)] + [] + [Plain([GREATER])];
    assert [TextNode(data)][1..] == [] && [p][1..] == [];
    assert PiecesOf([TextNode(data)], false, Lower) == [Plain(data)];
    assert Pieces(p, false, Lower) == [Plain(OPEN), Plain([GREATER]), Plain(data), ClosePiece(T("p"))];
  }

  lemma AsciiFits(o: Out, text: Text, max: nat)
    requires text == OPEN || text == [GREATER]
    requires !o.exhausted && o.returned + |text| <= max
    ensures Apply(o, Plain(text), max) == Out(o.source + text, o.returned + |text|, false, o.safety)
  {
    assert [112][1..] == [] && Scalars([112]) == [112];
    assert EncodeScalars([112]) == [112] + EncodeScalars([]);
    if text == OPEN {
      assert text[1..] == [112];
      assert Scalars(text) == [LESS, 112];
      assert EncodeScalars([LESS, 112]) == [LESS] + EncodeScalars([112]);
    } else {
      assert [GREATER][1..] == [] && Scalars([GREATER]) == [GREATER];
      assert EncodeScalars([GREATER]) == [GREATER] + EncodeScalars([]);
    }
    assert |Encode(text)| == |text|;
  }

  /** A paragraph whose text overflows the budget is cut in its text. */
  lemma ParagraphIsCut(data: Text, room: nat)
    requires 0 < |data| <= MINIMUM_SLICE && EscapedText(data) == data && |Encode(data)| > room > 0
    ensures var o := ApplyAll(START, DocumentPieces(Paragraph(data), Lower), 3 + room);
            o.exhausted && o.source == OPEN + [GREATER] + Cut(Scalars(data), room)
  {
    ParagraphPieces(data);
    hide DocumentPieces, Paragraph, Encode, Scalars, Cut, EscapedText, Apply, ApplyAll, CloseTag, Join, T;
    var max := 3 + room;
    var o1, o2 := AfterTag();
    TextIsCut(o2, data, room);
    AsciiFits(START, OPEN, max);
    AsciiFits(o1, [GREATER], max);
    FourApply(Plain(OPEN), Plain([GREATER]), Plain(data), ClosePiece(T("p")), o1, o2, Apply(o2, Plain(data), max), max);
  }

  lemma AfterTag() returns (o1: Out, o2: Out)
    ensures o1 == Out(START.source + OPEN, 2, false, false)
    ensures o2 == Out(o1.source + [GREATER], 3, false, false) && o2.source == OPEN + [GREATER]
  {
    o1, o2 := Out([] + OPEN, 2, false, false), Out([] + OPEN + [GREATER], 3, false, false);
  }

  lemma FourApply(a: Piece, b: Piece, c: Piece, d: Piece, o1: Out, o2: Out, o3: Out, max: nat)
    requires o1 == Apply(START, a, max) && o2 == Apply(o1, b, max) && o3 == Apply(o2, c, max) && o3.exhausted
    ensures ApplyAll(START, [a, b, c, d], max) == o3
  {
    var ps := [a, b, c, d];
    assert ps[..3] == [a, b, c] && ps[..3][..2] == [a, b] && ps[..3][..2][..1] == [a] && [a][..0] == [];
    ExhaustedStaysOne(o3, d, max);
    hide Apply;
    assert ApplyAll(START, [a], max) == o1;
    assert ApplyAll(START, [a, b], max) == o2;
    assert ApplyAll(START, [a, b, c], max) == o3;
  }

  lemma ExhaustedStaysOne(o: Out, p: Piece, max: nat)
    ensures o.exhausted ==> Apply(o, p, max) == o
  {
  }

  lemma TextIsCut(o: Out, data: Text, room: nat)
    requires |data| <= MINIMUM_SLICE && |Encode(data)| > room > 0 && !o.exhausted && o.returned == 3
    ensures var o' := Apply(o, Plain(data), 3 + room);
            o'.exhausted && o'.source == o.source + Cut(Scalars(data), room)
  {
    assert Sliced(data, room) == data;
  }

  /**
   * So the prefix claim fails of two short pages: a paragraph that starts with U+FEFF loses it when the decoder cuts its
   * text, and half a character in a text that is cut comes back as U+FFFD.
   */
  lemma CutCanHarmText()
    ensures var page := Paragraph([0xFEFF, 97, 98]);
            var o := ApplyAll(START, DocumentPieces(page, Lower), 7);
            o.exhausted && o.source == OPEN + [GREATER] + [97] && !(o.source <= FullDocument(page, Lower))
    ensures var page := Paragraph([0xD800, 97]);
            var o := ApplyAll(START, DocumentPieces(page, Lower), 6);
            o.exhausted && o.source == OPEN + [GREATER] + [0xFFFD] && !(o.source <= FullDocument(page, Lower))
  {
    Unescaped(0xFEFF, [97, 98]);
    Unescaped(0xD800, [97]);
    CutOfMark();
    CutOfHalf();
    ParagraphIsCut([0xFEFF, 97, 98], 4);
    ParagraphIsCut([0xD800, 97], 3);
    FourthUnit([0xFEFF, 97, 98]);
    FourthUnit([0xD800, 97]);
    hide FullDocument, DocumentPieces, ApplyAll, Paragraph;
    assert (OPEN + [GREATER] + [97])[3] == 97;
    assert (OPEN + [GREATER] + [0xFFFD])[3] == 0xFFFD;
  }

  lemma Unescaped(first: Unit, rest: Text)
    requires first >= 0xD800 && (rest == [97] || rest == [97, 98])
    ensures EscapedText([first] + rest) == [first] + rest
  {
    forall u: Unit, s: Text | u < 97 ensures Replaced([first] + rest, u, s) == [first] + rest {
      assert ([first] + rest)[1..] == rest && rest[1..] == (if |rest| == 1 then [] else [98]);
      assert [98][1..] == [];
      assert Replaced([98], u, s) == [98];
      assert Replaced(rest, u, s) == rest;
    }
  }

  /** In the unlimited source the text follows the opening tag. */
  lemma FourthUnit(data: Text)
    requires 0 < |data| <= MINIMUM_SLICE && EscapedText(data) == data
    ensures |FullDocument(Paragraph(data), Lower)| > 3 && FullDocument(Paragraph(data), Lower)[3] == data[0]
  {
    ParagraphPieces(data);
    var ps := [Plain(OPEN), Plain([GREATER]), Plain(data), ClosePiece(T("p"))];
    DocumentJoins(Paragraph(data), Lower);
    assert ps[..3] == [Plain(OPEN), Plain([GREATER]), Plain(data)];
    assert ps[..3][..2] == [Plain(OPEN), Plain([GREATER])];
    assert ps[..3][..2][..1] == [Plain(OPEN)] && [Plain(OPEN)][..0] == [];
    assert Join([Plain(OPEN)]) == OPEN;
    assert Join(ps[..3][..2]) == OPEN + [GREATER];
    assert Join(ps[..3]) == OPEN + [GREATER] + data;
    assert Join(ps) == OPEN + [GREATER] + data + CloseTag(T("p"));
  }

  // ---- a page that a length limit changed before the cut ----

  function Repeated(u: Unit, n: nat): Text { seq(n, i => u) }

  /** A document type whose name is one unit over its limit, and a comment. */
  const LONG_NAME: Document := Document(Some(Repeated(97, MAX_TAG_CHARS + 1)), [Comment([97])])

  lemma {:induction false} AsciiEncodes(t: Text)
    requires forall i :: 0 <= i < |t| ==> t[i] < 0x80
    ensures Scalars(t) == t && |Encode(t)| == |t|
  {
    if t != [] {
      AsciiEncodes(t[1..]);
      assert t == [t[0]] + t[1..];
    }
  }

  lemma LongNamePieces() returns (first: Piece, second: Piece)
    ensures DocumentPieces(LONG_NAME, Lower) == [first, second] && |first.text| == 112 == |Encode(first.text)|
    ensures first.text[110] == GREATER && second.text != []
  {
    var d := LONG_NAME;
    var name := d.doctype.value;
    var open, close := T("<!DOCTYPE "), T(">\n");
    assert |open| == 10 && |close| == 2;
    assert OrDefault(name, T("html")) == name && Limit(name, MAX_TAG_CHARS) == name[..MAX_TAG_CHARS];
    first, second := DoctypePieces(d)[0], CommentPiece([97]);
    assert first.text == open + name[..MAX_TAG_CHARS] + close;
    assert first.text[110] == close[0];
    AsciiEncodes(first.text);
    assert |T("<!--")| == 4;
    assert PiecesOf(d.nodes, false, Lower) == [second] + PiecesOf(d.nodes[1..], false, Lower);
    assert d.nodes[1..] == [];
    assert PiecesOf([], false, Lower) == [];
    assert DocumentPieces(d, Lower) == [first] + [second];
  }

  lemma LongNameFull()
    ensures |FullDocument(LONG_NAME, Lower)| > 110 && FullDocument(LONG_NAME, Lower)[110] == 97
  {
    hide FullAll;
    var name := LONG_NAME.doctype.value;
    var open, close := T("<!DOCTYPE "), T(">\n");
    assert |open| == 10;
    assert OrDefault(name, T("html")) == name;
    assert (open + name + close)[110] == name[100];
  }

  /** Two pieces, of which the first takes the whole budget. */
  lemma FirstTakesAll(first: Piece, second: Piece, max: nat)
    requires 0 < |Encode(first.text)| == |first.text| == max && second.text != []
    ensures var o := ApplyAll(START, [first, second], max);
            o.exhausted && o.source == first.text && Stop([first, second], max) == 1 && KeptOf([first, second], max) == 0
  {
    var ps := [first, second];
    assert ps[..1] == [first] && [first][..0] == [];
    assert Sliced(first.text, max) == first.text;
    assert ApplyAll(START, [first], max) == Apply(START, first, max);
    assert Apply(START, first, max).source == [] + first.text == first.text;
    assert Bytes([first]) == max;
    assert Fits(0, first.text, max) && !Fits(max, second.text, max);
    assert Stop([first], max) == 1;
  }

  /**
   * Where a length limit did apply before the cut, the condition decides nothing: this source is exhausted, nothing in
   * it is harmed, and it is a prefix of its pieces, but not of the unlimited serialization.
   */
  lemma LimitCanHarmPrefix()
    ensures var ps := DocumentPieces(LONG_NAME, Lower);
            var o := ApplyAll(START, ps, 112);
            && o.exhausted && Stop(ps, 112) < |ps| && Unharmed(ps[Stop(ps, 112)].text, KeptOf(ps, 112))
            && o.source <= Join(ps) && !(o.source <= FullDocument(LONG_NAME, Lower))
  {
    hide DocumentPieces, FullDocument, ApplyAll, Stop, KeptOf, Join, Encode;
    var first, second := LongNamePieces();
    LongNameFull();
    FirstTakesAll(first, second, 112);
    CutIsPrefixOfPieces([first, second], 112);
  }
}
