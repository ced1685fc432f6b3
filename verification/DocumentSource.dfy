/** The page source that the browser extension returns: browser-extension/browser-operations.js:1068-1169. */
module DocumentSource {
  import opened Records
  import opened Utf8
  import opened BoundedWriter

  const MAX_NODES := 100000
  const MAX_ATTRIBUTES := 256
  const MAX_ATTRIBUTE_CHARS := 4096
  const MAX_TEXT_CHARS := 32768
  const MAX_TAG_CHARS := 100
  const MAX_NAME_CHARS := 200

  datatype Attribute = Attribute(name: Text, value: Text)

  /** `children` are the child nodes of the content of a template element, and of any other element its own. */
  datatype Node =
    | Element(tagName: Text, attributes: seq<Attribute>, shadow: seq<Node>, children: seq<Node>, inContent: bool)
    | TextNode(data: Text)
    | Comment(data: Text)
    | DoctypeNode
    | OtherNode

  datatype Document = Document(doctype: Option<Text>, nodes: seq<Node>)

  /** A literal, of characters in the basic plane. */
  function T(s: string): Text {
    seq(|s|, i requires 0 <= i < |s| => s[i] as int % 0x10000)
  }

  const AMP: Unit := 38
  const QUOTE: Unit := 34
  const LESS: Unit := 60
  const GREATER: Unit := 62
  const DASH: Unit := 45

  // ---- the recursive serialization, without any limit ----

  function Replaced(t: Text, u: Unit, substitute: Text): Text {
    if t == [] then [] else (if t[0] == u then substitute else [t[0]]) + Replaced(t[1..], u, substitute)
  }

  function EscapedText(t: Text): Text {
    Replaced(Replaced(Replaced(t, AMP, T("&amp;")), LESS, T("&lt;")), GREATER, T("&gt;"))
  }

  function EscapedAttribute(t: Text): Text {
    Replaced(Replaced(t, AMP, T("&amp;")), QUOTE, T("&quot;"))
  }

  /** `replaceAll("--", "- -")` */
  function BrokenDashes(t: Text): Text {
    if t == [] then []
    else if |t| >= 2 && t[0] == DASH && t[1] == DASH then T("- -") + BrokenDashes(t[2..])
    else [t[0]] + BrokenDashes(t[1..])
  }

  function OrDefault(value: Text, fallback: Text): Text {
    if value == [] then fallback else value
  }

  const VOID_ELEMENTS: seq<string> := ["area", "base", "br", "col", "embed", "hr", "img", "input", "link", "meta",
                                       "param", "source", "track", "wbr"]

  predicate Void(tag: Text) {
    exists i :: 0 <= i < |VOID_ELEMENTS| && tag == T(VOID_ELEMENTS[i])
  }

  /** Whether text in this element is written as it is. */
  predicate RawText(n: Node, lower: Text -> Text)
    requires n.Element?
  {
    !n.inContent && lower(n.tagName) in {T("script"), T("style")}
  }

  function FullAttributes(attributes: seq<Attribute>): Text {
    if attributes == [] then []
    else T(" ") + attributes[0].name + T("=") + [QUOTE] + EscapedAttribute(attributes[0].value) + [QUOTE] + FullAttributes(attributes[1..])
  }

  const SHADOW_OPEN: Text := T("<template data-machine-bridge-shadow-root=") + [QUOTE] + T("open") + [QUOTE] + [GREATER]
  const SHADOW_CLOSE: Text := T("</template>")

  function FullTag(n: Node, lower: Text -> Text): Text
    requires n.Element?
  {
    lower(OrDefault(n.tagName, T("div")))
  }

  function FullOpening(n: Node, lower: Text -> Text): Text
    requires n.Element?
  {
    [LESS] + FullTag(n, lower) + FullAttributes(n.attributes) + [GREATER]
  }

  function CloseTag(tag: Text): Text {
    T("</") + tag + [GREATER]
  }

  /** A node's source: children first, then the open shadow root as a template, then the close tag. */
  function Full(n: Node, raw: bool, lower: Text -> Text): Text
    decreases n, 0
  {
    match n
    case DoctypeNode => []
    case OtherNode => []
    case TextNode(data) => if raw then data else EscapedText(data)
    case Comment(data) => T("<!--") + BrokenDashes(data) + T("-->")
    case Element(_, _, shadow, children, _) =>
      FullOpening(n, lower)
      + if Void(FullTag(n, lower)) then []
        else FullAll(children, RawText(n, lower), lower) + FullShadow(shadow, lower) + CloseTag(FullTag(n, lower))
  }

  function FullAll(ns: seq<Node>, raw: bool, lower: Text -> Text): Text
    decreases ns, 0
  {
    if ns == [] then [] else Full(ns[0], raw, lower) + FullAll(ns[1..], raw, lower)
  }

  function FullShadow(shadow: seq<Node>, lower: Text -> Text): Text
    decreases shadow, 1
  {
    if shadow == [] then [] else SHADOW_OPEN + FullAll(shadow, false, lower) + SHADOW_CLOSE
  }

  function FullDocument(d: Document, lower: Text -> Text): Text {
    (if d.doctype.None? then [] else T("<!DOCTYPE ") + OrDefault(d.doctype.value, T("html")) + T(">\n"))
    + FullAll(d.nodes, false, lower)
  }

  // ---- the pieces that are appended, with their limits ----

  function Limit(value: Text, max: nat): Text {
    if |value| > max then value[..max] else value
  }

  function AttributePiece(a: Attribute): Piece {
    Piece(T(" ") + Limit(a.name, MAX_NAME_CHARS) + T("=") + [QUOTE] + EscapedAttribute(Limit(a.value, MAX_ATTRIBUTE_CHARS)) + [QUOTE],
          |a.name| > MAX_NAME_CHARS || |a.value| > MAX_ATTRIBUTE_CHARS)
  }

  function AttributePieces(attributes: seq<Attribute>): seq<Piece> {
    if attributes == [] then [] else AttributePieces(attributes[..|attributes| - 1]) + [AttributePiece(attributes[|attributes| - 1])]
  }

  function TagOf(n: Node, lower: Text -> Text): Text
    requires n.Element?
  {
    lower(Limit(OrDefault(n.tagName, T("div")), MAX_TAG_CHARS))
  }

  function Opening(n: Node, lower: Text -> Text): seq<Piece>
    requires n.Element?
  {
    [Piece([LESS] + TagOf(n, lower), |OrDefault(n.tagName, T("div"))| > MAX_TAG_CHARS)]
    + AttributePieces(Slice(n.attributes, MAX_ATTRIBUTES))
    + [Piece([GREATER], |n.attributes| > MAX_ATTRIBUTES)]
  }

  function TextPiece(data: Text, raw: bool): Piece {
    var t := Limit(data, MAX_TEXT_CHARS);
    Piece(if raw then t else EscapedText(t), |data| > MAX_TEXT_CHARS)
  }

  function CommentPiece(data: Text): Piece {
    Piece(T("<!--") + BrokenDashes(Limit(data, MAX_TEXT_CHARS)) + T("-->"), |data| > MAX_TEXT_CHARS)
  }

  function Plain(t: Text): Piece { Piece(t, false) }

  function ClosePiece(tag: Text): Piece { Plain(CloseTag(tag)) }

  function Pieces(n: Node, raw: bool, lower: Text -> Text): seq<Piece>
    decreases n, 0
  {
    match n
    case DoctypeNode => []
    case OtherNode => []
    case TextNode(data) => [TextPiece(data, raw)]
    case Comment(data) => [CommentPiece(data)]
    case Element(_, _, shadow, children, _) =>
      Opening(n, lower)
      + if Void(TagOf(n, lower)) then []
        else PiecesOf(children, RawText(n, lower), lower) + ShadowPieces(shadow, lower) + [ClosePiece(TagOf(n, lower))]
  }

  function PiecesOf(ns: seq<Node>, raw: bool, lower: Text -> Text): seq<Piece>
    decreases ns, 0
  {
    if ns == [] then [] else Pieces(ns[0], raw, lower) + PiecesOf(ns[1..], raw, lower)
  }

  function ShadowPieces(shadow: seq<Node>, lower: Text -> Text): seq<Piece>
    decreases shadow, 1
  {
    if shadow == [] then [] else [Plain(SHADOW_OPEN)] + PiecesOf(shadow, false, lower) + [Plain(SHADOW_CLOSE)]
  }

  function DoctypePieces(d: Document): seq<Piece> {
    if d.doctype.None? then []
    else
      var name := OrDefault(d.doctype.value, T("html"));
      [Piece(T("<!DOCTYPE ") + Limit(name, MAX_TAG_CHARS) + T(">\n"), |name| > MAX_TAG_CHARS)]
  }

  function DocumentPieces(d: Document, lower: Text -> Text): seq<Piece> {
    DoctypePieces(d) + PiecesOf(d.nodes, false, lower)
  }

  // ---- where no limit applies, the pieces join to the recursive serialization ----

  lemma NoneLimitedParts(a: seq<Piece>, b: seq<Piece>)
    ensures NoneLimited(a + b) <==> NoneLimited(a) && NoneLimited(b)
  {
    if NoneLimited(a + b) {
      forall i | 0 <= i < |a| ensures !a[i].limited {
        assert (a + b)[i] == a[i];
      }
      forall i | 0 <= i < |b| ensures !b[i].limited {
        assert (a + b)[|a| + i] == b[i];
      }
    }
  }

  lemma JoinOne(p: Piece)
    ensures Join([p]) == p.text
  {
    assert [p][..0] == [];
  }

  lemma {:induction false} AttributesJoin(attributes: seq<Attribute>)
    requires NoneLimited(AttributePieces(attributes))
    ensures Join(AttributePieces(attributes)) == FullAttributes(attributes)
  {
    if attributes != [] {
      var front, last := attributes[..|attributes| - 1], attributes[|attributes| - 1];
      NoneLimitedParts(AttributePieces(front), [AttributePiece(last)]);
      assert !([AttributePiece(last)][0]).limited;
      AttributesJoin(front);
      JoinAppend(AttributePieces(front), [AttributePiece(last)]);
      JoinOne(AttributePiece(last));
      FullAttributesLast(attributes);
    }
  }

  lemma {:induction false} AttributePiecesPrefix(attributes: seq<Attribute>, i: nat)
    requires i <= |attributes|
    ensures |AttributePieces(attributes)| == |attributes|
    ensures AttributePieces(attributes) == AttributePieces(attributes[..i]) + AttributePieces(attributes)[i..]
  {
    if i == |attributes| {
      assert attributes[..i] == attributes;
      if attributes != [] {
        AttributePiecesPrefix(attributes[..i - 1], i - 1);
      }
    } else {
      AttributePiecesPrefix(attributes[..|attributes| - 1], i);
      assert attributes[..|attributes| - 1][..i] == attributes[..i];
    }
  }

  lemma {:induction false} FullAttributesLast(attributes: seq<Attribute>)
    requires attributes != []
    ensures FullAttributes(attributes) == FullAttributes(attributes[..|attributes| - 1])
            + (T(" ") + attributes[|attributes| - 1].name + T("=") + [QUOTE] + EscapedAttribute(attributes[|attributes| - 1].value) + [QUOTE])
  {
    if |attributes| > 1 {
      FullAttributesLast(attributes[1..]);
      assert attributes[1..][..|attributes| - 2] == attributes[..|attributes| - 1][1..];
    }
  }

  lemma OpeningJoins(n: Node, lower: Text -> Text)
    requires n.Element? && NoneLimited(Opening(n, lower))
    ensures Join(Opening(n, lower)) == FullOpening(n, lower)
    ensures TagOf(n, lower) == FullTag(n, lower)
  {
    var first := Piece([LESS] + TagOf(n, lower), |OrDefault(n.tagName, T("div"))| > MAX_TAG_CHARS);
    var last := Piece([GREATER], |n.attributes| > MAX_ATTRIBUTES);
    var middle := AttributePieces(Slice(n.attributes, MAX_ATTRIBUTES));
    NoneLimitedParts([first] + middle, [last]);
    NoneLimitedParts([first], middle);
    assert ![first][0].limited && ![last][0].limited;
    AttributesJoin(n.attributes);
    JoinAppend([first] + middle, [last]);
    JoinAppend([first], middle);
    JoinOne(first);
    JoinOne(last);
  }

  lemma ShadowJoins(shadow: seq<Node>, lower: Text -> Text)
    requires shadow != [] && NoneLimited(ShadowPieces(shadow, lower))
    ensures NoneLimited(PiecesOf(shadow, false, lower))
    ensures Join(ShadowPieces(shadow, lower)) == SHADOW_OPEN + Join(PiecesOf(shadow, false, lower)) + SHADOW_CLOSE
  {
    var first, inner, last := Plain(SHADOW_OPEN), PiecesOf(shadow, false, lower), Plain(SHADOW_CLOSE);
    NoneLimitedParts([first] + inner, [last]);
    NoneLimitedParts([first], inner);
    JoinAppend([first] + inner, [last]);
    JoinAppend([first], inner);
    JoinOne(first);
    JoinOne(last);
  }

  lemma FourJoin(a: seq<Piece>, b: seq<Piece>, c: seq<Piece>, last: Piece)
    requires NoneLimited(a + (b + c + [last]))
    ensures NoneLimited(a) && NoneLimited(b) && NoneLimited(c)
    ensures Join(a + (b + c + [last])) == Join(a) + (Join(b) + Join(c) + last.text)
  {
    NoneLimitedParts(a, b + c + [last]);
    NoneLimitedParts(b + c, [last]);
    NoneLimitedParts(b, c);
    JoinAppend(a, b + c + [last]);
    JoinAppend(b + c, [last]);
    JoinAppend(b, c);
    JoinOne(last);
  }

  lemma {:induction false} PiecesJoin(n: Node, raw: bool, lower: Text -> Text)
    requires NoneLimited(Pieces(n, raw, lower))
    ensures Join(Pieces(n, raw, lower)) == Full(n, raw, lower)
    decreases n, 0
  {
    match n
    case DoctypeNode =>
    case OtherNode =>
    case TextNode(data) =>
      assert !Pieces(n, raw, lower)[0].limited;
      JoinOne(TextPiece(data, raw));
    case Comment(data) =>
      assert !Pieces(n, raw, lower)[0].limited;
      JoinOne(CommentPiece(data));
    case Element(_, _, shadow, children, _) =>
      if Void(TagOf(n, lower)) {
        assert Pieces(n, raw, lower) == Opening(n, lower);
      } else {
        FourJoin(Opening(n, lower), PiecesOf(children, RawText(n, lower), lower), ShadowPieces(shadow, lower), ClosePiece(TagOf(n, lower)));
        PiecesOfJoin(children, RawText(n, lower), lower);
        if shadow != [] {
          ShadowJoins(shadow, lower);
          PiecesOfJoin(shadow, false, lower);
        }
      }
      OpeningJoins(n, lower);
  }

  lemma {:induction false} PiecesOfJoin(ns: seq<Node>, raw: bool, lower: Text -> Text)
    requires NoneLimited(PiecesOf(ns, raw, lower))
    ensures Join(PiecesOf(ns, raw, lower)) == FullAll(ns, raw, lower)
    decreases ns, 0
  {
    if ns != [] {
      NoneLimitedParts(Pieces(ns[0], raw, lower), PiecesOf(ns[1..], raw, lower));
      PiecesJoin(ns[0], raw, lower);
      PiecesOfJoin(ns[1..], raw, lower);
      JoinAppend(Pieces(ns[0], raw, lower), PiecesOf(ns[1..], raw, lower));
    }
  }

  lemma DocumentJoins(d: Document, lower: Text -> Text)
    requires NoneLimited(DocumentPieces(d, lower))
    ensures Join(DocumentPieces(d, lower)) == FullDocument(d, lower)
  {
    NoneLimitedParts(DoctypePieces(d), PiecesOf(d.nodes, false, lower));
    PiecesOfJoin(d.nodes, false, lower);
    JoinAppend(DoctypePieces(d), PiecesOf(d.nodes, false, lower));
    if d.doctype.Some? {
      assert !DoctypePieces(d)[0].limited;
      JoinOne(DoctypePieces(d)[0]);
    }
  }
}
