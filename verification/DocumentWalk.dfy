/**
 * The explicit-stack walk of boundedDocumentSource and the budget split of getSource, both of
 * browser-extension/browser-operations.js, against the recursive serialization.
 */
module DocumentWalk {
  import opened Records
  import opened Utf8
  import opened BoundedWriter
  import opened DocumentSource
  import opened DocumentPrefix

  const TRAILER: Piece := Piece(T("<!-- machine-bridge source truncated by safety limit -->"), true)

  // ---- what a budget leaves ----

  /** The comment that reports a length or node limit, if there is still room for any of it. */
  function AfterTrailer(o: Out, stopped: bool, max: nat): Out {
    if (stopped || o.safety) && !o.exhausted then Apply(o, TRAILER, max) else o
  }

  predicate Truncated(o: Out) {
    o.exhausted || o.safety
  }

  /** A source that is not reported as truncated is the whole recursive serialization. */
  lemma UntruncatedIsFull(d: Document, lower: Text -> Text, max: nat)
    requires !Truncated(ApplyAll(START, DocumentPieces(d, lower), max))
    ensures ApplyAll(START, DocumentPieces(d, lower), max).source == FullDocument(d, lower)
  {
    AllWritten(DocumentPieces(d, lower), max);
    DocumentJoins(d, lower);
  }

  /** Pieces that no limit touched and that are shorter than the budget are all written whole, and nothing is reported. */
  lemma {:induction false} RoomyIsWhole(ps: seq<Piece>, max: nat)
    requires NoneLimited(ps) && Bytes(ps) < max
    ensures var o := ApplyAll(START, ps, max);
            !Truncated(o) && o.returned == Bytes(ps)
  {
    if ps != [] {
      var front, last := ps[..|ps| - 1], ps[|ps| - 1];
      RoomyIsWhole(front, max);
      EncodedIsLonger(last.text);
      hide Encode;
      AppendWhole(ApplyAll(START, front, max), last.text, max);
    }
  }

  /** Short of the limits, a page is returned whole: each string within its own, fewer nodes than 100000, and room in the budget. */
  ghost predicate Short(d: Document, lower: Text -> Text, max: nat) {
    NoneLimited(DocumentPieces(d, lower)) && CensusAll(d.nodes, lower).nodes < MAX_NODES && Bytes(DocumentPieces(d, lower)) < max
  }

  lemma ManyAreNotShort(d: Document, lower: Text -> Text, max: nat)
    requires CensusAll(d.nodes, lower).nodes >= MAX_NODES
    ensures !Short(d, lower, max)
  {
  }

  lemma ShortIsWhole(d: Document, lower: Text -> Text, max: nat)
    requires Short(d, lower, max)
    ensures !Truncated(AfterTrailer(ApplyAll(START, DocumentPieces(d, lower), max), false, max))
  {
    RoomyIsWhole(DocumentPieces(d, lower), max);
  }

  // ---- the stack ----

  datatype Item = Raw(text: Text) | Visit(node: Node, raw: bool)

  function ItemPieces(item: Item, lower: Text -> Text): seq<Piece> {
    match item
    case Raw(text) => [Plain(text)]
    case Visit(node, raw) => Pieces(node, raw, lower)
  }

  /** What the stack still stands for; its top is its last item. */
  function StackPieces(stack: seq<Item>, lower: Text -> Text): seq<Piece> {
    if stack == [] then []
    else ItemPieces(stack[|stack| - 1], lower) + StackPieces(stack[..|stack| - 1], lower)
  }

  function Size(n: Node): nat
    decreases n, 0
  {
    if n.Element? then 4 + SizeAll(n.children) + SizeAll(n.shadow) else 1
  }

  function SizeAll(ns: seq<Node>): nat
    decreases ns, 0
  {
    if ns == [] then 0 else Size(ns[0]) + SizeAll(ns[1..])
  }

  function StackSize(stack: seq<Item>): nat {
    if stack == [] then 0
    else StackSize(stack[..|stack| - 1]) + if stack[|stack| - 1].Raw? then 1 else Size(stack[|stack| - 1].node)
  }

  /** Nodes that are visited, and open shadow roots among them. */
  datatype Census = Census(nodes: nat, roots: nat)

  function Plus(a: Census, b: Census): Census {
    Census(a.nodes + b.nodes, a.roots + b.roots)
  }

  /** A doctype is not counted, and nothing below a void element is reached. */
  function CensusOf(n: Node, lower: Text -> Text): Census
    decreases n, 0
  {
    match n
    case DoctypeNode => Census(0, 0)
    case Element(_, _, shadow, children, _) =>
      if Void(TagOf(n, lower)) then Census(1, 0)
      else Plus(Census(1, if shadow == [] then 0 else 1), Plus(CensusAll(children, lower), CensusAll(shadow, lower)))
    case _ => Census(1, 0)
  }

  function CensusAll(ns: seq<Node>, lower: Text -> Text): Census
    decreases ns, 0
  {
    if ns == [] then Census(0, 0) else Plus(CensusOf(ns[0], lower), CensusAll(ns[1..], lower))
  }

  function StackCensus(stack: seq<Item>, lower: Text -> Text): Census {
    if stack == [] then Census(0, 0)
    else
      var top := stack[|stack| - 1];
      Plus(if top.Raw? then Census(0, 0) else CensusOf(top.node, lower), StackCensus(stack[..|stack| - 1], lower))
  }

  lemma StackTop(stack: seq<Item>, item: Item, lower: Text -> Text)
    ensures StackCensus(stack + [item], lower) == Plus(if item.Raw? then Census(0, 0) else CensusOf(item.node, lower), StackCensus(stack, lower))
    ensures StackPieces(stack + [item], lower) == ItemPieces(item, lower) + StackPieces(stack, lower)
    ensures StackSize(stack + [item]) == StackSize(stack) + if item.Raw? then 1 else Size(item.node)
  {
    assert (stack + [item])[..|stack|] == stack;
  }

  ghost predicate Stands(grown: seq<Item>, stack: seq<Item>, nodes: seq<Node>, raw: bool, lower: Text -> Text) {
    && StackPieces(grown, lower) == PiecesOf(nodes, raw, lower) + StackPieces(stack, lower)
    && StackSize(grown) == SizeAll(nodes) + StackSize(stack)
    && StackCensus(grown, lower) == Plus(CensusAll(nodes, lower), StackCensus(stack, lower))
  }

  lemma StandsOneMore(grown: seq<Item>, stack: seq<Item>, nodes: seq<Node>, i: nat, raw: bool, lower: Text -> Text)
    requires i < |nodes| && Stands(grown, stack, nodes[i + 1..], raw, lower)
    ensures Stands(grown + [Visit(nodes[i], raw)], stack, nodes[i..], raw, lower)
  {
    hide Pieces, Size, StackPieces, StackSize, CensusOf, StackCensus;
    StackTop(grown, Visit(nodes[i], raw), lower);
    assert nodes[i..][1..] == nodes[i + 1..];
    assert PiecesOf(nodes[i..], raw, lower) == Pieces(nodes[i], raw, lower) + PiecesOf(nodes[i + 1..], raw, lower);
    Associative(Pieces(nodes[i], raw, lower), PiecesOf(nodes[i + 1..], raw, lower), StackPieces(stack, lower));
  }

  lemma Associative<A>(a: seq<A>, b: seq<A>, c: seq<A>)
    ensures a + (b + c) == (a + b) + c
  {
  }

  /** Pushing child nodes last first puts the first one on top. */
  method PushReversed(stack: seq<Item>, nodes: seq<Node>, raw: bool, ghost lower: Text -> Text) returns (grown: seq<Item>)
    ensures Stands(grown, stack, nodes, raw, lower)
  {
    grown := stack;
    var i := |nodes|;
    assert PiecesOf([], raw, lower) + StackPieces(stack, lower) == StackPieces(stack, lower);
    assert nodes[|nodes|..] == [];
    while i > 0
      invariant 0 <= i <= |nodes|
      invariant Stands(grown, stack, nodes[i..], raw, lower)
    {
      i := i - 1;
      StandsOneMore(grown, stack, nodes, i, raw, lower);
      grown := grown + [Visit(nodes[i], raw)];
    }
    assert nodes[0..] == nodes;
  }

  // ---- writing ----

  /** The same for every reader: once the budget is exhausted, the safety flag no longer matters. */
  ghost predicate Same(a: Out, b: Out) {
    a.source == b.source && a.returned == b.returned && a.exhausted == b.exhausted && (a.exhausted || a.safety == b.safety)
  }

  method Bounded(w: Writer, value: Text, max: nat) returns (t: Text)
    modifies w`safetyTruncated
    ensures t == Limit(value, max)
    ensures w.safetyTruncated == (old(w.safetyTruncated) || |value| > max)
  {
    if |value| > max {
      w.safetyTruncated := true;
    }
    t := if |value| > max then value[..max] else value;
  }

  method WriteAttribute(w: Writer, a: Attribute) returns (ok: bool)
    requires !w.budgetExhausted
    modifies w
    ensures w.State() == Apply(old(w.State()), AttributePiece(a), w.maxBytes) && ok == !w.budgetExhausted
  {
    var name := Bounded(w, a.name, MAX_NAME_CHARS);
    var value := Bounded(w, a.value, MAX_ATTRIBUTE_CHARS);
    ok := w.Append(T(" ") + name + T("=") + [QUOTE] + EscapedAttribute(value) + [QUOTE]);
  }

  method WriteAttributes(w: Writer, attributes: seq<Attribute>)
    requires !w.budgetExhausted
    modifies w
    ensures w.State() == ApplyAll(old(w.State()), AttributePieces(attributes), w.maxBytes)
  {
    var i := 0;
    var ok := true;
    assert attributes[..0] == [];
    while i < |attributes| && ok
      invariant 0 <= i <= |attributes|
      invariant ok == !w.budgetExhausted
      invariant w.State() == ApplyAll(old(w.State()), AttributePieces(attributes[..i]), w.maxBytes)
    {
      OneMoreAttribute(old(w.State()), attributes, i, w.maxBytes);
      ok := WriteAttribute(w, attributes[i]);
      i := i + 1;
    }
    if ok {
      assert attributes[..i] == attributes;
    } else {
      NoMoreAttributes(old(w.State()), attributes, i, w.maxBytes);
    }
  }

  lemma OneMoreAttribute(o: Out, attributes: seq<Attribute>, i: nat, max: nat)
    requires i < |attributes|
    ensures ApplyAll(o, AttributePieces(attributes[..i + 1]), max)
            == Apply(ApplyAll(o, AttributePieces(attributes[..i]), max), AttributePiece(attributes[i]), max)
  {
    assert attributes[..i + 1][..i] == attributes[..i];
    var ps := AttributePieces(attributes[..i + 1]);
    assert ps[..|ps| - 1] == AttributePieces(attributes[..i]);
  }

  lemma NoMoreAttributes(o: Out, attributes: seq<Attribute>, i: nat, max: nat)
    requires i <= |attributes| && ApplyAll(o, AttributePieces(attributes[..i]), max).exhausted
    ensures ApplyAll(o, AttributePieces(attributes), max) == ApplyAll(o, AttributePieces(attributes[..i]), max)
  {
    AttributePiecesPrefix(attributes, i);
    ApplyAppend(o, AttributePieces(attributes[..i]), AttributePieces(attributes)[i..], max);
    ExhaustedStays(ApplyAll(o, AttributePieces(attributes[..i]), max), AttributePieces(attributes)[i..], max);
  }

  lemma ApplyOne(o: Out, p: Piece, max: nat)
    ensures ApplyAll(o, [p], max) == Apply(o, p, max)
  {
    assert [p][..0] == [];
  }

  function NamePiece(n: Node, lower: Text -> Text): Piece
    requires n.Element?
  {
    Piece([LESS] + TagOf(n, lower), |OrDefault(n.tagName, T("div"))| > MAX_TAG_CHARS)
  }

  method WriteName(w: Writer, n: Node, lower: Text -> Text) returns (ok: bool, tag: Text)
    requires n.Element? && !w.budgetExhausted
    modifies w
    ensures w.State() == Apply(old(w.State()), NamePiece(n, lower), w.maxBytes) && ok == !w.budgetExhausted
    ensures tag == TagOf(n, lower)
  {
    var name := Bounded(w, OrDefault(n.tagName, T("div")), MAX_TAG_CHARS);
    tag := lower(name);
    ok := w.Append([LESS] + tag);
  }

  method EndOpening(w: Writer, n: Node) returns (ok: bool)
    requires n.Element?
    modifies w
    ensures Same(w.State(), Apply(old(w.State()), Piece([GREATER], |n.attributes| > MAX_ATTRIBUTES), w.maxBytes))
    ensures ok == !w.budgetExhausted
  {
    if |n.attributes| > MAX_ATTRIBUTES {
      w.safetyTruncated := true;
    }
    ok := w.Append([GREATER]);
  }

  /** The opening tag; `ok` tells whether it is complete. */
  method WriteOpening(w: Writer, n: Node, lower: Text -> Text) returns (ok: bool, tag: Text)
    requires n.Element? && !w.budgetExhausted
    modifies w
    ensures Same(w.State(), ApplyAll(old(w.State()), Opening(n, lower), w.maxBytes)) && ok == !w.budgetExhausted
    ensures tag == TagOf(n, lower)
  {
    OpeningApplies(w.State(), n, lower, w.maxBytes);
    hide ApplyAll, Opening, AttributePieces, TagOf;
    ok, tag := WriteName(w, n, lower);
    if !ok {
      return;
    }
    var count := if |n.attributes| < MAX_ATTRIBUTES then |n.attributes| else MAX_ATTRIBUTES;
    assert n.attributes[..count] == Slice(n.attributes, MAX_ATTRIBUTES);
    WriteAttributes(w, n.attributes[..count]);
    ok := EndOpening(w, n);
  }

  lemma OpeningApplies(o: Out, n: Node, lower: Text -> Text, max: nat)
    requires n.Element?
    ensures var named := Apply(o, NamePiece(n, lower), max);
            && ApplyAll(o, Opening(n, lower), max)
               == Apply(ApplyAll(named, AttributePieces(Slice(n.attributes, MAX_ATTRIBUTES)), max), Piece([GREATER], |n.attributes| > MAX_ATTRIBUTES), max)
            && (named.exhausted ==> ApplyAll(o, Opening(n, lower), max) == named)
  {
    ThreeApply(o, NamePiece(n, lower), AttributePieces(Slice(n.attributes, MAX_ATTRIBUTES)), Piece([GREATER], |n.attributes| > MAX_ATTRIBUTES), max);
  }

  lemma ThreeApply(o: Out, first: Piece, middle: seq<Piece>, last: Piece, max: nat)
    ensures ApplyAll(o, [first] + middle + [last], max) == Apply(ApplyAll(Apply(o, first, max), middle, max), last, max)
    ensures Apply(o, first, max).exhausted ==> ApplyAll(o, [first] + middle + [last], max) == Apply(o, first, max)
  {
    ApplyOne(o, first, max);
    ApplyAppend(o, [first], middle, max);
    ApplyAppend(o, [first] + middle, [last], max);
    ApplyOne(ApplyAll(o, [first] + middle, max), last, max);
    if Apply(o, first, max).exhausted {
      ExhaustedStays(Apply(o, first, max), middle, max);
    }
  }

  // ---- the walk ----

  /** How far the walk has come: `done` pieces are written, and the stack stands for the others. */
  ghost predicate Walked(o: Out, stack: seq<Item>, all: seq<Piece>, done: nat, lower: Text -> Text, max: nat) {
    && done <= |all|
    && if o.exhausted then Same(o, ApplyAll(START, all, max))
       else o == ApplyAll(START, all[..done], max) && all[done..] == StackPieces(stack, lower)
  }

  lemma WalkedOn(o: Out, all: seq<Piece>, done: nat, ps: seq<Piece>, rest: seq<Piece>, max: nat)
    requires done <= |all| && all[done..] == ps + rest && o == ApplyAll(START, all[..done], max)
    ensures done + |ps| <= |all| && all[done + |ps|..] == rest
    ensures ApplyAll(START, all[..done + |ps|], max) == ApplyAll(o, ps, max)
    ensures ApplyAll(o, ps, max).exhausted ==> ApplyAll(START, all, max) == ApplyAll(o, ps, max)
  {
    SplitFurther(all, done, ps, rest);
    ApplyAppend(START, all[..done], ps, max);
    ApplyAppend(START, all[..done + |ps|], rest, max);
    if ApplyAll(o, ps, max).exhausted {
      ExhaustedStays(ApplyAll(o, ps, max), rest, max);
    }
  }

  lemma SplitFurther(all: seq<Piece>, done: nat, ps: seq<Piece>, rest: seq<Piece>)
    requires done <= |all| && all[done..] == ps + rest
    ensures done + |ps| <= |all| && all[done + |ps|..] == rest
    ensures all[..done + |ps|] == all[..done] + ps
    ensures all == all[..done + |ps|] + rest
  {
    assert |all| == done + |ps| + |rest|;
    assert all == all[..done] + (ps + rest);
  }

  lemma WalkEnds(o: Out, stack: seq<Item>, all: seq<Piece>, done: nat, lower: Text -> Text, max: nat)
    requires Walked(o, stack, all, done, lower, max) && (stack == [] || o.exhausted)
    ensures Same(o, ApplyAll(START, all[..|all|], max))
  {
    assert all[..|all|] == all;
    if !o.exhausted {
      assert all[..done] == all;
    }
  }

  lemma WalkStops(o: Out, stack: seq<Item>, all: seq<Piece>, done: nat, lower: Text -> Text, max: nat)
    requires Walked(o, stack, all, done, lower, max) && !o.exhausted
    ensures done <= |all| && o == ApplyAll(START, all[..done], max)
  {
  }

  /** Whatever piece is written next, and whatever stack then stands for the rest, the walk has come that much further. */
  lemma WalkStep(o: Out, o': Out, stack': seq<Item>, all: seq<Piece>, done: nat, ps: seq<Piece>, rest: seq<Piece>, lower: Text -> Text, max: nat)
    requires !o.exhausted && done <= |all| && o == ApplyAll(START, all[..done], max) && all[done..] == ps + rest
    requires Same(o', ApplyAll(o, ps, max))
    requires !o'.exhausted ==> StackPieces(stack', lower) == rest
    ensures Walked(o', stack', all, done + |ps|, lower, max)
  {
    WalkedOn(o, all, done, ps, rest, max);
  }

  /** The stack for what is inside an element and its close tag. */
  method PushInside(n: Node, tag: Text, stack: seq<Item>, lower: Text -> Text) returns (grown: seq<Item>, shadowRoots: nat)
    requires n.Element? && tag == TagOf(n, lower) && !Void(tag)
    ensures Opening(n, lower) + StackPieces(grown, lower) == Pieces(n, false, lower) + StackPieces(stack, lower)
    ensures StackSize(grown) < StackSize(stack) + Size(n)
    ensures Plus(Census(1, shadowRoots), StackCensus(grown, lower)) == Plus(CensusOf(n, lower), StackCensus(stack, lower))
  {
    hide Opening, PiecesOf, ShadowPieces, TagOf, RawText, Void, CensusOf, CensusAll, Size, SizeAll, StackPieces, StackSize, StackCensus;
    ElementCensus(n, lower);
    StackTop(stack, Raw(CloseTag(tag)), lower);
    grown, shadowRoots := stack + [Raw(CloseTag(tag))], 0;
    if |n.shadow| > 0 {
      shadowRoots := 1;
      grown := PushShadow(grown, n.shadow, lower);
    }
    grown := PushReversed(grown, n.children, RawText(n, lower), lower);
    ElementStands(n, stack, grown, lower);
  }

  method WriteElement(w: Writer, n: Node, stack: seq<Item>, lower: Text -> Text) returns (grown: seq<Item>, shadowRoots: nat)
    requires n.Element? && !w.budgetExhausted
    modifies w
    ensures Same(w.State(), ApplyAll(old(w.State()), Opening(n, lower), w.maxBytes))
    ensures !w.budgetExhausted ==> Opening(n, lower) + StackPieces(grown, lower) == Pieces(n, false, lower) + StackPieces(stack, lower)
    ensures StackSize(grown) < StackSize(stack) + Size(n)
    ensures !w.budgetExhausted ==>
              Plus(Census(1, shadowRoots), StackCensus(grown, lower)) == Plus(CensusOf(n, lower), StackCensus(stack, lower))
  {
    hide ApplyAll, Opening, Same, TagOf, Void, CensusOf, StackCensus, StackPieces, StackSize, Size, Pieces;
    VoidElement(n, lower);
    grown, shadowRoots := stack, 0;
    var ok, tag := WriteOpening(w, n, lower);
    if ok && !Void(tag) {
      grown, shadowRoots := PushInside(n, tag, stack, lower);
    }
  }

  /** Nothing is inside a void element. */
  lemma VoidElement(n: Node, lower: Text -> Text)
    requires n.Element?
    ensures Size(n) > 0
    ensures Void(TagOf(n, lower)) ==> Pieces(n, false, lower) == Opening(n, lower) && CensusOf(n, lower) == Census(1, 0)
  {
  }

  lemma LeafCensus(n: Node, lower: Text -> Text)
    requires !n.Element?
    ensures CensusOf(n, lower) == Census(if n.DoctypeNode? then 0 else 1, 0) && Size(n) == 1
  {
  }

  lemma ElementCensus(n: Node, lower: Text -> Text)
    requires n.Element?
    ensures CensusOf(n, lower)
            == if Void(TagOf(n, lower)) then Census(1, 0)
               else Plus(Census(1, if n.shadow == [] then 0 else 1), Plus(CensusAll(n.children, lower), CensusAll(n.shadow, lower)))
    ensures CensusAll([], lower) == Census(0, 0)
    ensures Size(n) == 4 + SizeAll(n.children) + SizeAll(n.shadow) && SizeAll([]) == 0
  {
  }

  lemma ElementStands(n: Node, stack: seq<Item>, grown: seq<Item>, lower: Text -> Text)
    requires n.Element? && !Void(TagOf(n, lower))
    requires var closed := [ClosePiece(TagOf(n, lower))] + StackPieces(stack, lower);
             StackPieces(grown, lower) == PiecesOf(n.children, RawText(n, lower), lower)
                                          + if n.shadow == [] then closed else ShadowPieces(n.shadow, lower) + closed
    ensures Opening(n, lower) + StackPieces(grown, lower) == Pieces(n, false, lower) + StackPieces(stack, lower)
  {
    hide Opening, PiecesOf, TagOf, RawText, StackPieces, Void;
    Regroup(Opening(n, lower), PiecesOf(n.children, RawText(n, lower), lower), ShadowPieces(n.shadow, lower),
            [ClosePiece(TagOf(n, lower))], StackPieces(stack, lower));
  }

  lemma Regroup(a: seq<Piece>, b: seq<Piece>, c: seq<Piece>, d: seq<Piece>, e: seq<Piece>)
    ensures a + (b + (c + (d + e))) == (a + (b + c + d)) + e
    ensures a + (b + ([] + (d + e))) == (a + (b + [] + d)) + e
  {
    assert c + (d + e) == c + d + e;
  }

  lemma RegroupThree(a: seq<Piece>, b: seq<Piece>, c: seq<Piece>, e: seq<Piece>)
    ensures a + (b + (c + e)) == (a + b + c) + e
  {
  }

  method PushShadow(stack: seq<Item>, shadow: seq<Node>, ghost lower: Text -> Text) returns (grown: seq<Item>)
    requires shadow != []
    ensures StackPieces(grown, lower) == ShadowPieces(shadow, lower) + StackPieces(stack, lower)
    ensures StackSize(grown) == StackSize(stack) + SizeAll(shadow) + 2
    ensures StackCensus(grown, lower) == Plus(CensusAll(shadow, lower), StackCensus(stack, lower))
  {
    hide PiecesOf, Pieces, CensusAll, CensusOf, SizeAll, Size, StackCensus, StackPieces, StackSize;
    StackTop(stack, Raw(SHADOW_CLOSE), lower);
    grown := PushReversed(stack + [Raw(SHADOW_CLOSE)], shadow, false, lower);
    StackTop(grown, Raw(SHADOW_OPEN), lower);
    grown := grown + [Raw(SHADOW_OPEN)];
    RegroupThree([Plain(SHADOW_OPEN)], PiecesOf(shadow, false, lower), [Plain(SHADOW_CLOSE)], StackPieces(stack, lower));
  }

  /** A text or comment node. */
  method WriteLeaf(w: Writer, n: Node, raw: bool, lower: Text -> Text)
    requires !n.Element? && !w.budgetExhausted
    modifies w
    ensures w.State() == ApplyAll(old(w.State()), Pieces(n, raw, lower), w.maxBytes)
  {
    match n
    case DoctypeNode =>
    case OtherNode =>
    case TextNode(data) =>
      ApplyOne(w.State(), TextPiece(data, raw), w.maxBytes);
      var t := Bounded(w, data, MAX_TEXT_CHARS);
      var ok := w.Append(if raw then t else EscapedText(t));
    case Comment(data) =>
      ApplyOne(w.State(), CommentPiece(data), w.maxBytes);
      var t := Bounded(w, data, MAX_TEXT_CHARS);
      var ok := w.Append(T("<!--") + BrokenDashes(t) + T("-->"));
    case Element(_, _, _, _, _) =>
  }

  /** One round of the loop, with the item that was popped; `visits` is 1 for a node that counts, as a doctype does not. */
  method WriteItem(w: Writer, item: Item, stack: seq<Item>, ghost all: seq<Piece>, ghost done: nat, lower: Text -> Text)
    returns (grown: seq<Item>, ghost further: nat, visits: nat, shadowRoots: nat)
    requires !w.budgetExhausted && Walked(w.State(), stack + [item], all, done, lower, w.maxBytes)
    modifies w
    ensures Walked(w.State(), grown, all, further, lower, w.maxBytes)
    ensures StackSize(grown) < StackSize(stack + [item])
    ensures !w.budgetExhausted ==>
              Plus(Census(visits, shadowRoots), StackCensus(grown, lower)) == StackCensus(stack + [item], lower)
    ensures visits <= 1
  {
    hide Pieces, Opening, Appended, ApplyAll, CensusOf, StackCensus, StackPieces, StackSize, Size;
    StackTop(stack, item, lower);
    ghost var o, rest := w.State(), StackPieces(stack, lower);
    grown, visits, shadowRoots := stack, 0, 0;
    match item
    case Raw(text) =>
      ApplyOne(o, Plain(text), w.maxBytes);
      var ok := w.Append(text);
      further := done + 1;
      WalkStep(o, w.State(), grown, all, done, [Plain(text)], rest, lower, w.maxBytes);
    case Visit(node, raw) =>
      visits := if node.DoctypeNode? then 0 else 1;
      if node.Element? {
        further := done + |Opening(node, lower)|;
        grown, shadowRoots := WriteElement(w, node, stack, lower);
        ElementStep(o, w.State(), grown, stack, all, done, node, raw, lower, w.maxBytes);
      } else {
        further := done + |Pieces(node, raw, lower)|;
        LeafCensus(node, lower);
        WriteLeaf(w, node, raw, lower);
        WalkStep(o, w.State(), grown, all, done, Pieces(node, raw, lower), rest, lower, w.maxBytes);
      }
  }

  lemma ElementStep(o: Out, o': Out, grown: seq<Item>, stack: seq<Item>, all: seq<Piece>, done: nat, n: Node, raw: bool, lower: Text -> Text, max: nat)
    requires n.Element? && !o.exhausted && done <= |all| && o == ApplyAll(START, all[..done], max)
    requires all[done..] == Pieces(n, raw, lower) + StackPieces(stack, lower)
    requires Same(o', ApplyAll(o, Opening(n, lower), max))
    requires !o'.exhausted ==> Opening(n, lower) + StackPieces(grown, lower) == Pieces(n, false, lower) + StackPieces(stack, lower)
    ensures Walked(o', grown, all, done + |Opening(n, lower)|, lower, max)
  {
    hide ApplyAll, StackPieces, Opening, Apply;
    var opening, s := Opening(n, lower), StackPieces(stack, lower);
    var inner := Pieces(n, raw, lower)[|opening|..];
    assert Pieces(n, raw, lower) == Pieces(n, false, lower) == opening + inner;
    Tails(opening, inner, s, StackPieces(grown, lower));
    WalkStep(o, o', grown, all, done, opening, inner + s, lower, max);
  }

  lemma Tails(a: seq<Piece>, b: seq<Piece>, c: seq<Piece>, d: seq<Piece>)
    ensures a + b + c == a + (b + c)
    ensures a + d == a + b + c ==> d == b + c
  {
    if a + d == a + b + c {
      assert (a + d)[|a|..] == d;
      assert (a + b + c)[|a|..] == b + c;
    }
  }

  datatype SourceResult = SourceResult(source: Text, returnedBytes: nat, truncated: bool, visitedNodes: nat, openShadowRoots: nat)

  function Budget(limit: int): nat {
    if limit > 0 then limit else 1
  }

  /**
   * If the budget ends in one of the pieces before `done`, and no length limit applied up to that one, then the source is
   * a prefix of the unlimited serialization exactly when what was kept of that piece is unharmed.
   */
  ghost predicate PrefixWhereCut(d: Document, lower: Text -> Text, done: nat, max: nat, source: Text)
    requires done <= |DocumentPieces(d, lower)|
  {
    var ps := DocumentPieces(d, lower)[..done];
    var j := Stop(ps, max);
    j < |ps| && NoneLimited(ps[..j + 1]) ==>
      && KeptOf(ps, max) <= |Scalars(ps[j].text)|
      && (source <= FullDocument(d, lower) <==> Unharmed(ps[j].text, KeptOf(ps, max)))
  }

  /** The trailer adds nothing to a source whose budget is used up. */
  lemma CutSourceIsPrefix(d: Document, lower: Text -> Text, done: nat, stopped: bool, max: nat)
    requires done <= |DocumentPieces(d, lower)|
    ensures PrefixWhereCut(d, lower, done, max, AfterTrailer(ApplyAll(START, DocumentPieces(d, lower)[..done], max), stopped, max).source)
  {
    hide DocumentPieces, FullDocument, ApplyAll, Unharmed, Join;
    var ps := DocumentPieces(d, lower)[..done];
    if Stop(ps, max) < |ps| && NoneLimited(ps[..Stop(ps, max) + 1]) {
      AllWritten(ps, max);
      NothingMoreFits(ApplyAll(START, ps, max), TRAILER, max);
      ExhaustedIsPrefix(d, lower, done, max);
    }
  }

  /**
   * boundedDocumentSource. Of the pieces of the recursive serialization it writes the first `done` within the budget,
   * all of them unless the node limit `stopped` it.
   */
  method BoundedDocumentSource(d: Document, limit: int, lower: Text -> Text) returns (r: SourceResult, ghost done: nat, ghost stopped: bool)
    ensures done <= |DocumentPieces(d, lower)| && (!stopped ==> done == |DocumentPieces(d, lower)|)
    ensures r.visitedNodes <= MAX_NODES && (stopped ==> r.visitedNodes == MAX_NODES <= CensusAll(d.nodes, lower).nodes)
    ensures !r.truncated ==> Census(r.visitedNodes, r.openShadowRoots) == CensusAll(d.nodes, lower)
    ensures var o := AfterTrailer(ApplyAll(START, DocumentPieces(d, lower)[..done], Budget(limit)), stopped, Budget(limit));
            r.source == o.source && r.returnedBytes == o.returned && r.truncated == Truncated(o)
    ensures !r.truncated ==> r.source == FullDocument(d, lower)
    ensures Short(d, lower, Budget(limit)) ==> !r.truncated
    ensures |Encode(r.source)| <= r.returnedBytes <= Budget(limit)
    ensures PrefixWhereCut(d, lower, done, Budget(limit), r.source)
  {
    hide ApplyAll, DocumentPieces, AfterTrailer, Walked, FullDocument, Encode, PrefixWhereCut, Short, CensusAll, StackSize;
    var maxBytes := Budget(limit);
    ghost var all := DocumentPieces(d, lower);
    var w := new Writer(maxBytes);
    var stack: seq<Item>, visited: nat, shadows: nat := [], 0, 0;
    stack, done := Begin(w, d, lower);
    var cut := false;
    while |stack| > 0 && !w.budgetExhausted
      invariant w.maxBytes == maxBytes && fresh(w)
      invariant Walked(w.State(), stack, all, done, lower, maxBytes)
      invariant visited <= MAX_NODES
      invariant !w.budgetExhausted ==> Plus(Census(visited, shadows), StackCensus(stack, lower)) == CensusAll(d.nodes, lower)
      decreases StackSize(stack)
    {
      if visited >= MAX_NODES {
        cut := true;
        break;
      }
      var item := stack[|stack| - 1];
      assert stack == stack[..|stack| - 1] + [item];
      var visits, roots;
      stack, done, visits, roots := WriteItem(w, item, stack[..|stack| - 1], all, done, lower);
      visited, shadows := visited + visits, shadows + roots;
    }
    stopped := cut;
    if !cut {
      WalkEnds(w.State(), stack, all, done, lower, maxBytes);
      done := |all|;
    } else {
      WalkStops(w.State(), stack, all, done, lower, maxBytes);
    }
    if stopped {
      ManyAreNotShort(d, lower, maxBytes);
    }
    ResultIsBounded(d, done, stopped, lower, maxBytes);
    CutSourceIsPrefix(d, lower, done, stopped, maxBytes);
    TrailerReports(ApplyAll(START, all[..done], maxBytes), cut, maxBytes);
    AddTrailer(w, cut, ApplyAll(START, all[..done], maxBytes));
    r := SourceResult(w.source, w.returnedBytes, w.budgetExhausted || w.safetyTruncated || |stack| > 0, visited, shadows);
  }

  lemma TrailerReports(o: Out, stopped: bool, max: nat)
    ensures o.exhausted || o.safety || stopped ==> Truncated(AfterTrailer(o, stopped, max))
  {
  }

  method AddTrailer(w: Writer, cut: bool, ghost o: Out)
    requires Same(w.State(), o) && (cut ==> !w.budgetExhausted)
    modifies w
    ensures Same(w.State(), AfterTrailer(o, cut, w.maxBytes))
  {
    if cut {
      w.safetyTruncated := true;
    }
    if w.safetyTruncated && !w.budgetExhausted {
      var ok := w.Append(TRAILER.text);
    }
  }

  lemma ResultIsBounded(d: Document, done: nat, stopped: bool, lower: Text -> Text, max: nat)
    requires done <= |DocumentPieces(d, lower)| && (!stopped ==> done == |DocumentPieces(d, lower)|)
    ensures var o := AfterTrailer(ApplyAll(START, DocumentPieces(d, lower)[..done], max), stopped, max);
            && |Encode(o.source)| <= o.returned <= max
            && (!Truncated(o) ==> o.source == FullDocument(d, lower))
            && (!stopped && Short(d, lower, max) ==> !Truncated(o))
  {
    hide Short;
    var all := DocumentPieces(d, lower);
    WithinBudget(all[..done], max);
    WithinBudget(all[..done] + [TRAILER], max);
    ApplyAppend(START, all[..done], [TRAILER], max);
    ApplyOne(ApplyAll(START, all[..done], max), TRAILER, max);
    if !stopped {
      assert all[..done] == all;
      if Short(d, lower, max) {
        ShortIsWhole(d, lower, max);
      }
      if !Truncated(ApplyAll(START, all, max)) {
        UntruncatedIsFull(d, lower, max);
      }
    }
  }

  lemma EmptyStack(lower: Text -> Text)
    ensures StackPieces([], lower) == [] && StackCensus([], lower) == Census(0, 0) && StackSize([]) == 0
  {
  }

  /** The document type, and the stack of the top nodes. */
  method Begin(w: Writer, d: Document, lower: Text -> Text) returns (stack: seq<Item>, ghost done: nat)
    requires w.State() == START
    modifies w
    ensures Walked(w.State(), stack, DocumentPieces(d, lower), done, lower, w.maxBytes)
    ensures StackCensus(stack, lower) == CensusAll(d.nodes, lower)
  {
    ghost var all := DocumentPieces(d, lower);
    EmptyStack(lower);
    hide PiecesOf, Pieces, CensusAll, CensusOf, SizeAll, Size, StackCensus, StackPieces, StackSize;
    if d.doctype.Some? {
      var name := Bounded(w, OrDefault(d.doctype.value, T("html")), MAX_TAG_CHARS);
      var ok := w.Append(T("<!DOCTYPE ") + name + T(">\n"));
      ApplyOne(START, DoctypePieces(d)[0], w.maxBytes);
    }
    stack := PushReversed([], d.nodes, false, lower);
    done := |DoctypePieces(d)|;
    assert all[..0] == [];
    assert PiecesOf(d.nodes, false, lower) + [] == PiecesOf(d.nodes, false, lower);
    assert all[0..] == DoctypePieces(d) + PiecesOf(d.nodes, false, lower);
    WalkStep(START, w.State(), stack, all, 0, DoctypePieces(d), PiecesOf(d.nodes, false, lower), lower, w.maxBytes);
  }

  // ---- several frames ----

  function FrameBudget(remaining: nat, frames: nat): (budget: nat)
    requires frames > 0
    ensures budget >= 1
  {
    if remaining / frames > 1 then remaining / frames else 1
  }

  /** What the script of a frame answers: the source of its document, nothing, or anything else with some byte count. */
  datatype Frame = Page(document: Document) | Missing | Foreign(result: SourceResult, claim: Option<nat>)

  /** The bytes that are charged for a claimed count, or for None where it is missing or not a count. */
  function Charged(claim: Option<nat>, budget: nat): (n: nat)
    ensures n <= budget
  {
    if claim.Some? && claim.value <= budget then claim.value else budget
  }

  ghost predicate FrameOk(f: Frame, budget: nat, r: SourceResult, lower: Text -> Text) {
    match f
    case Page(d) =>
      && |Encode(r.source)| <= r.returnedBytes <= budget
      && (!r.truncated ==> r.source == FullDocument(d, lower))
      && (Short(d, lower, budget) ==> !r.truncated)
    case Missing => r == SourceResult([], 0, true, 0, 0)
    case Foreign(result, claim) => r == result.(returnedBytes := Charged(claim, budget))
  }

  ghost predicate FramesOk(frames: seq<Frame>, budgets: seq<nat>, results: seq<SourceResult>, least: nat, lower: Text -> Text) {
    && |budgets| == |results| <= |frames|
    && forall i :: 0 <= i < |results| ==> 1 <= budgets[i] && least <= budgets[i] && FrameOk(frames[i], budgets[i], results[i], lower)
  }

  function LeastBudget(maxBytes: nat, frames: nat): nat {
    if 0 < frames <= maxBytes then maxBytes / frames else 0
  }

  function ChargedBytes(results: seq<SourceResult>): nat {
    if results == [] then 0 else ChargedBytes(results[..|results| - 1]) + results[|results| - 1].returnedBytes
  }

  /** The UTF-8 bytes of all sources together. */
  function SourceBytes(results: seq<SourceResult>): nat {
    if results == [] then 0 else SourceBytes(results[..|results| - 1]) + |Encode(results[|results| - 1].source)|
  }

  ghost predicate NoneForeign(frames: seq<Frame>, n: nat) {
    forall i :: 0 <= i < |frames| && i < n ==> !frames[i].Foreign?
  }

  method FrameSource(f: Frame, budget: nat, lower: Text -> Text) returns (r: SourceResult)
    requires budget > 0
    ensures FrameOk(f, budget, r, lower) && r.returnedBytes <= budget
    ensures !f.Foreign? ==> |Encode(r.source)| <= r.returnedBytes
  {
    match f
    case Page(d) =>
      ghost var done, stopped;
      r, done, stopped := BoundedDocumentSource(d, budget, lower);
      r := r.(returnedBytes := Charged(Some(r.returnedBytes), budget));
    case Missing =>
      r := SourceResult([], 0, true, 0, 0);
    case Foreign(result, claim) =>
      r := result.(returnedBytes := Charged(claim, budget));
  }

  /**
   * The budget split over frames: the sources of all frames together stay within the maximum, and so does what is
   * charged for them; every frame reached has at least an equal share of it, and a frame is left out only when the
   * maximum is used up.
   */
  method GetSource(frames: seq<Frame>, maxBytes: nat, lower: Text -> Text) returns (budgets: seq<nat>, results: seq<SourceResult>)
    requires maxBytes > 0
    ensures FramesOk(frames, budgets, results, LeastBudget(maxBytes, |frames|), lower)
    ensures NoneForeign(frames, |results|) ==> SourceBytes(results) <= ChargedBytes(results)
    ensures ChargedBytes(results) <= maxBytes
    ensures |results| < |frames| ==> ChargedBytes(results) == maxBytes
  {
    hide FrameBudget, LeastBudget, FramesOk, FairlyLeft;
    NoFrames(frames, LeastBudget(maxBytes, |frames|), maxBytes, lower);
    hide FrameOk, ChargedBytes, SourceBytes;
    var remainingBytes: nat := maxBytes;
    budgets, results := [], [];
    var index := 0;
    while index < |frames| && remainingBytes > 0
      invariant 0 <= index <= |frames| && index == |results|
      invariant FramesOk(frames, budgets, results, LeastBudget(maxBytes, |frames|), lower)
      invariant NoneForeign(frames, index) ==> SourceBytes(results) <= ChargedBytes(results)
      invariant remainingBytes + ChargedBytes(results) == maxBytes
      invariant FairlyLeft(remainingBytes, |frames| - index, maxBytes, |frames|)
    {
      var remainingFrames := |frames| - index;
      var frameBudget := FrameBudget(remainingBytes, remainingFrames);
      var result := FrameSource(frames[index], frameBudget, lower);
      StaysFair(remainingBytes, remainingFrames, maxBytes, |frames|, result.returnedBytes);
      OneMoreResult(results, result);
      OneMoreFrame(frames, budgets, results, frameBudget, result, LeastBudget(maxBytes, |frames|), lower);
      remainingBytes := remainingBytes - result.returnedBytes;
      budgets, results := budgets + [frameBudget], results + [result];
      index := index + 1;
    }
  }

  lemma NoFrames(frames: seq<Frame>, least: nat, maxBytes: nat, lower: Text -> Text)
    ensures FramesOk(frames, [], [], least, lower) && ChargedBytes([]) == SourceBytes([]) == 0
    ensures FairlyLeft(maxBytes, |frames|, maxBytes, |frames|)
  {
  }

  lemma OneMoreFrame(frames: seq<Frame>, budgets: seq<nat>, results: seq<SourceResult>, budget: nat, r: SourceResult, least: nat,
                     lower: Text -> Text)
    requires FramesOk(frames, budgets, results, least, lower) && |results| < |frames|
    requires 1 <= budget && least <= budget && FrameOk(frames[|results|], budget, r, lower)
    ensures |budgets| == |results|
    ensures FramesOk(frames, budgets + [budget], results + [r], least, lower)
  {
    hide FrameOk;
  }

  lemma OneMoreResult(results: seq<SourceResult>, r: SourceResult)
    ensures ChargedBytes(results + [r]) == ChargedBytes(results) + r.returnedBytes
    ensures SourceBytes(results + [r]) == SourceBytes(results) + |Encode(r.source)|
  {
    assert (results + [r])[..|results|] == results;
  }

  ghost predicate FairlyLeft(remaining: nat, frames: nat, max: nat, count: nat) {
    frames <= count && (0 < count <= max ==> Share(remaining, frames, max, count))
  }

  lemma StaysFair(remaining: nat, frames: nat, max: nat, count: nat, used: nat)
    requires FairlyLeft(remaining, frames, max, count) && frames > 0 && remaining > 0
    requires used <= FrameBudget(remaining, frames)
    ensures LeastBudget(max, count) <= FrameBudget(remaining, frames)
    ensures used <= remaining && FairlyLeft(remaining - used, frames - 1, max, count)
  {
    BudgetFits(remaining, frames);
    if 0 < count <= max {
      ShareStays(remaining, frames, max, count, used);
    }
  }

  /** The frames that are left have at least their equal share left. */
  ghost predicate Share(remaining: nat, frames: nat, max: nat, count: nat) {
    remaining * count >= max * frames
  }

  lemma BudgetFits(remaining: nat, frames: nat)
    requires remaining > 0 && frames > 0
    ensures remaining / frames <= remaining
  {
    var q := remaining / frames;
    assert q * frames <= remaining;
    Grows(1, frames, q);
  }

  lemma Grows(a: nat, b: nat, c: nat)
    requires a <= b
    ensures a * c <= b * c && c * a <= c * b
  {
  }

  lemma DividesOut(a: nat, b: nat, c: nat)
    requires c > 0 && a * c <= b * c
    ensures a <= b
  {
    if a > b {
      Grows(b + 1, a, c);
    }
  }

  lemma EqualShare(remaining: nat, frames: nat, max: nat, count: nat)
    requires Share(remaining, frames, max, count) && 0 < frames && 0 < count
    ensures remaining / frames >= max / count
  {
    var m := max / count;
    assert m * count <= max;
    Grows(m * count, max, frames);
    assert (m * count) * frames == (m * frames) * count;
    DividesOut(m * frames, remaining, count);
    var q := remaining / frames;
    assert remaining < (q + 1) * frames;
    if m >= q + 1 {
      Grows(q + 1, m, frames);
    }
  }

  lemma ShareStays(remaining: nat, frames: nat, max: nat, count: nat, used: nat)
    requires Share(remaining, frames, max, count) && 0 < frames <= count <= max
    requires used <= if remaining / frames > 1 then remaining / frames else 1
    ensures remaining / frames >= max / count >= 1
    ensures used <= remaining && Share(remaining - used, frames - 1, max, count)
  {
    EqualShare(remaining, frames, max, count);
    AtLeastOne(max, count);
    var q := remaining / frames;
    assert q * frames <= remaining;
    Grows(used, q, frames);
    Grows(1, frames, used);
    LeftOver(remaining, frames, max, count, used);
  }

  lemma AtLeastOne(max: nat, count: nat)
    requires 0 < count <= max
    ensures max / count >= 1
  {
  }

  lemma LeftOver(remaining: nat, frames: nat, max: nat, count: nat, used: nat)
    requires Share(remaining, frames, max, count) && 0 < frames && used <= remaining && used * frames <= remaining
    ensures Share(remaining - used, frames - 1, max, count)
  {
    var left := remaining - used;
    assert left * frames == remaining * frames - used * frames >= remaining * (frames - 1);
    Grows(remaining * (frames - 1), left * frames, count);
    Grows(max * frames, remaining * count, frames - 1);
    assert (left * frames) * count == (left * count) * frames;
    assert (remaining * (frames - 1)) * count == (remaining * count) * (frames - 1);
    assert (max * frames) * (frames - 1) == (max * (frames - 1)) * frames;
    DividesOut(max * (frames - 1), left * count, frames);
  }
}
