/** What escaping does for the page source: browser-extension/browser-operations.js:1113-1156. */
module DocumentEscapes {
  import opened Utf8
  import opened BoundedWriter
  import opened DocumentSource

  // ---- text and attribute values read back ----

  /** What stands for one unit of text, or of an attribute value. */
  function TextEntity(u: Unit): Text {
    if u == AMP then T("&amp;") else if u == LESS then T("&lt;") else if u == GREATER then T("&gt;") else [u]
  }

  function AttributeEntity(u: Unit): Text {
    if u == AMP then T("&amp;") else if u == QUOTE then T("&quot;") else [u]
  }

  function EachUnit(t: Text, entity: Unit -> Text): Text {
    if t == [] then [] else entity(t[0]) + EachUnit(t[1..], entity)
  }

  lemma {:induction false} ReplacedAppend(a: Text, b: Text, u: Unit, substitute: Text)
    ensures Replaced(a + b, u, substitute) == Replaced(a, u, substitute) + Replaced(b, u, substitute)
  {
    if a == [] {
      assert a + b == b;
    } else {
      ReplacedAppend(a[1..], b, u, substitute);
      assert (a + b)[1..] == a[1..] + b;
      Reassociate(if a[0] == u then substitute else [a[0]], Replaced(a[1..], u, substitute), Replaced(b, u, substitute));
    }
  }

  lemma {:induction false} ReplacedNothing(t: Text, u: Unit, substitute: Text)
    requires u !in t
    ensures Replaced(t, u, substitute) == t
  {
    if t != [] {
      ReplacedNothing(t[1..], u, substitute);
    }
  }

  lemma ReplacedUnit(v: Unit, u: Unit, substitute: Text)
    ensures Replaced([v], u, substitute) == if v == u then substitute else [v]
  {
    assert [v][1..] == [];
    assert Replaced([v][1..], u, substitute) == [];
    assert substitute + [] == substitute;
  }

  lemma Entities()
    ensures T("&amp;") == [38, 97, 109, 112, 59] && T("&lt;") == [38, 108, 116, 59] && T("&gt;") == [38, 103, 116, 59]
    ensures T("&quot;") == [38, 113, 117, 111, 116, 59]
  {
  }

  lemma EntitiesAreDistinct()
    ensures LESS !in T("&amp;") && GREATER !in T("&amp;") && QUOTE !in T("&amp;") && GREATER !in T("&lt;")
  {
    Entities();
  }

  lemma EscapedUnit(u: Unit)
    ensures EscapedText([u]) == TextEntity(u)
  {
    EntitiesAreDistinct();
    hide T, Replaced;
    var amp, lt, gt := T("&amp;"), T("&lt;"), T("&gt;");
    ReplacedUnit(u, AMP, amp);
    if u == AMP {
      ReplacedNothing(amp, LESS, lt);
      ReplacedNothing(amp, GREATER, gt);
    } else {
      ReplacedUnit(u, LESS, lt);
      if u == LESS {
        ReplacedNothing(lt, GREATER, gt);
      } else {
        ReplacedUnit(u, GREATER, gt);
      }
    }
  }

  lemma EscapedAttributeUnit(u: Unit)
    ensures EscapedAttribute([u]) == AttributeEntity(u)
  {
    EntitiesAreDistinct();
    hide T, Replaced;
    var amp, quot := T("&amp;"), T("&quot;");
    ReplacedUnit(u, AMP, amp);
    if u == AMP {
      ReplacedNothing(amp, QUOTE, quot);
    } else {
      ReplacedUnit(u, QUOTE, quot);
    }
  }

  /** The replacements one after the other come to replacing each unit by itself: none of them meets what another wrote. */
  lemma {:induction false} EscapesEachUnit(t: Text)
    ensures EscapedText(t) == EachUnit(t, TextEntity) && EscapedAttribute(t) == EachUnit(t, AttributeEntity)
  {
    if t != [] {
      EscapesEachUnit(t[1..]);
      EscapedUnit(t[0]);
      EscapedAttributeUnit(t[0]);
      assert t == [t[0]] + t[1..];
      EscapedAppend([t[0]], t[1..]);
    }
  }

  lemma EscapedAppend(a: Text, b: Text)
    ensures EscapedText(a + b) == EscapedText(a) + EscapedText(b)
    ensures EscapedAttribute(a + b) == EscapedAttribute(a) + EscapedAttribute(b)
  {
    var amp, lt := T("&amp;"), T("&lt;");
    ReplacedAppend(a, b, AMP, amp);
    ReplacedAppend(Replaced(a, AMP, amp), Replaced(b, AMP, amp), LESS, lt);
    ReplacedAppend(Replaced(Replaced(a, AMP, amp), LESS, lt), Replaced(Replaced(b, AMP, amp), LESS, lt), GREATER, T("&gt;"));
    ReplacedAppend(Replaced(a, AMP, amp), Replaced(b, AMP, amp), QUOTE, T("&quot;"));
  }

  predicate Starts(t: Text, front: Text) {
    |t| >= |front| && t[..|front|] == front
  }

  /** How a page reads the four references. */
  function Unescaped(t: Text): Text {
    if t == [] then []
    else if Starts(t, T("&amp;")) then [AMP] + Unescaped(t[|T("&amp;")|..])
    else if Starts(t, T("&lt;")) then [LESS] + Unescaped(t[|T("&lt;")|..])
    else if Starts(t, T("&gt;")) then [GREATER] + Unescaped(t[|T("&gt;")|..])
    else if Starts(t, T("&quot;")) then [QUOTE] + Unescaped(t[|T("&quot;")|..])
    else [t[0]] + Unescaped(t[1..])
  }

  lemma ReadsOneEntity(entity: Text, u: Unit, rest: Text)
    requires entity == (if u == AMP then T("&amp;") else if u == LESS then T("&lt;") else if u == GREATER then T("&gt;") else T("&quot;"))
             || (u != AMP && entity == [u])
    requires u in {AMP, LESS, GREATER, QUOTE} || entity == [u]
    ensures Unescaped(entity + rest) == [u] + Unescaped(rest)
  {
    Entities();
    var t := entity + rest;
    assert t[|entity|..] == rest && t[..|entity|] == entity && t[0] == entity[0];
    if u in {AMP, LESS, GREATER, QUOTE} && entity != [u] {
      assert t[1] == entity[1];
    }
    forall front: Text | front in [T("&amp;"), T("&lt;"), T("&gt;"), T("&quot;")] && Starts(t, front) ensures front == entity {
      assert front[0] == t[0] && front[1] == t[1];
    }
  }

  lemma {:induction false} TextReadsBack(t: Text)
    ensures Unescaped(EachUnit(t, TextEntity)) == t
  {
    if t != [] {
      hide T, Unescaped;
      TextReadsBack(t[1..]);
      ReadsOneEntity(TextEntity(t[0]), t[0], EachUnit(t[1..], TextEntity));
    }
  }

  lemma {:induction false} AttributeReadsBack(t: Text)
    ensures Unescaped(EachUnit(t, AttributeEntity)) == t
  {
    if t != [] {
      hide T, Unescaped;
      AttributeReadsBack(t[1..]);
      ReadsOneEntity(AttributeEntity(t[0]), t[0], EachUnit(t[1..], AttributeEntity));
    }
  }

  lemma {:induction false} EntitiesAreInert(t: Text)
    ensures LESS !in EachUnit(t, TextEntity) && GREATER !in EachUnit(t, TextEntity) && QUOTE !in EachUnit(t, AttributeEntity)
  {
    Entities();
    if t != [] {
      EntitiesAreInert(t[1..]);
    }
  }

  /**
   * Escaped text holds neither angle bracket, an escaped attribute value no quote, so neither can end early; and read
   * with its references resolved, each is what was escaped.
   */
  lemma EscapesReadBack(t: Text)
    ensures LESS !in EscapedText(t) && GREATER !in EscapedText(t) && Unescaped(EscapedText(t)) == t
    ensures QUOTE !in EscapedAttribute(t) && Unescaped(EscapedAttribute(t)) == t
  {
    EscapesEachUnit(t);
    EntitiesAreInert(t);
    TextReadsBack(t);
    AttributeReadsBack(t);
  }

  /** Text is written as it is in script and style elements outside the content of a template, and escaped anywhere else. */
  lemma TextInElement(n: Node, t: Text, raw: bool, lower: Text -> Text)
    requires n.Element? && n.children == [TextNode(t)] && n.shadow == [] && !Void(FullTag(n, lower))
    ensures var tag := lower(n.tagName);
            var inside := if !n.inContent && (tag == T("script") || tag == T("style")) then t else EachUnit(t, TextEntity);
            Full(n, raw, lower) == FullOpening(n, lower) + (inside + CloseTag(FullTag(n, lower)))
  {
    EscapesEachUnit(t);
    hide T, EscapedText, FullOpening, CloseTag, FullTag, Void;
    var inside := FullAll(n.children, RawText(n, lower), lower);
    assert n.children[1..] == [];
    assert FullAll(n.children[1..], RawText(n, lower), lower) == [];
    assert inside == Full(TextNode(t), RawText(n, lower), lower) + [];
    assert inside + [] == inside;
  }

  // ---- comments ----

  /** `-->` somewhere. */
  ghost predicate EndsComment(t: Text) {
    exists i :: EndAt(t, i)
  }

  predicate EndAt(t: Text, i: int) {
    0 <= i && i + 3 <= |t| && t[i] == DASH && t[i + 1] == DASH && t[i + 2] == GREATER
  }

  /** How many dashes stand right before the place `i`. */
  function DashesBefore(t: Text, i: nat): nat
    requires i <= |t|
  {
    if i > 0 && t[i - 1] == DASH then DashesBefore(t, i - 1) + 1 else 0
  }

  /** An odd number of dashes, three at least, and then `>`. */
  predicate OddRunAt(t: Text, i: int) {
    0 <= i < |t| && t[i] == GREATER && DashesBefore(t, i) >= 3 && DashesBefore(t, i) % 2 == 1
  }

  ghost predicate OddRun(t: Text) {
    exists i :: OddRunAt(t, i)
  }

  lemma {:induction false} DashesInTail(t: Text, n: nat, i: nat)
    requires n <= i <= |t|
    ensures DashesBefore(t[n..], i - n) == (if DashesBefore(t, i) < i - n then DashesBefore(t, i) else i - n)
    ensures DashesBefore(t, i) <= i
    decreases i
  {
    if i > n {
      DashesInTail(t, n, i - 1);
    } else if i > 0 {
      DashesInTail(t, 0, i - 1);
    }
  }

  lemma {:induction false} AllDashes(t: Text, i: nat)
    requires i <= |t|
    ensures DashesBefore(t, i) <= i
    ensures DashesBefore(t, i) == i <==> forall k :: 0 <= k < i ==> t[k] == DASH
  {
    if i > 0 {
      AllDashes(t, i - 1);
    }
  }

  /** `->` at the very front. */
  predicate Pointed(t: Text) {
    |t| >= 2 && t[0] == DASH && t[1] == GREATER
  }

  lemma BrokenFront(t: Text)
    ensures t != [] ==> BrokenDashes(t) != [] && BrokenDashes(t)[0] == t[0]
    ensures Pointed(BrokenDashes(t)) <==> Pointed(t)
  {
    if |t| >= 2 && t[0] == DASH && t[1] == DASH {
      assert BrokenDashes(t)[1] == T("- -")[1] == 32;
    } else if t != [] && t[1..] != [] {
      assert BrokenDashes(t)[1..] == BrokenDashes(t[1..]);
    }
  }

  lemma PairEnds(rest: Text)
    ensures EndsComment(T("- -") + rest) <==> EndsComment(rest) || Pointed(rest)
  {
    var t := T("- -") + rest;
    assert t[0] == DASH && t[1] == 32 && t[2] == DASH && t[3..] == rest;
    if i :| EndAt(t, i) {
      if i >= 3 {
        assert EndAt(rest, i - 3);
      }
    }
    if i :| EndAt(rest, i) {
      assert EndAt(t, i + 3);
    }
    if Pointed(rest) {
      assert EndAt(t, 2);
    }
  }

  lemma UnitEnds(u: Unit, rest: Text)
    requires u == DASH ==> rest == [] || rest[0] != DASH
    ensures EndsComment([u] + rest) <==> EndsComment(rest)
  {
    var t := [u] + rest;
    if i :| EndAt(t, i) {
      assert EndAt(rest, i - 1);
    }
    if i :| EndAt(rest, i) {
      assert EndAt(t, i + 1);
    }
  }

  /** Two dashes in front leave every run odd or even. */
  lemma PairRuns(t: Text)
    requires |t| >= 2 && t[0] == DASH && t[1] == DASH
    ensures OddRun(t) <==> OddRun(t[2..]) || Pointed(t[2..])
  {
    var rest := t[2..];
    forall i: nat | 2 <= i < |t| ensures OddRunAt(t, i) <==> OddRunAt(rest, i - 2) || (i == 3 && Pointed(rest)) {
      DashesInTail(t, 2, i);
      AllDashes(t, i);
      AllDashes(rest, i - 2);
    }
    if i :| OddRunAt(t, i) {
      assert i >= 2;
    }
    if i :| OddRunAt(rest, i) {
      assert OddRunAt(t, i + 2);
    }
    if Pointed(rest) {
      assert OddRunAt(t, 3);
    }
  }

  lemma UnitRuns(t: Text)
    requires t != [] && (t[0] == DASH ==> |t| == 1 || t[1] != DASH)
    ensures OddRun(t) <==> OddRun(t[1..])
  {
    var rest := t[1..];
    forall i: nat | 1 <= i < |t| ensures OddRunAt(t, i) <==> OddRunAt(rest, i - 1) {
      DashesInTail(t, 1, i);
      AllDashes(t, i);
      AllDashes(rest, i - 1);
    }
    if i :| OddRunAt(t, i) {
      assert i >= 1;
    }
    if i :| OddRunAt(rest, i) {
      assert OddRunAt(t, i + 1);
    }
  }

  /**
   * Writing `- -` for every `--` is to keep a comment from ending early. It does so unless the data holds an odd number
   * of dashes, three at least, before a `>`: then the last two of them survive.
   */
  lemma {:induction false} CommentEndsEarlyIff(data: Text)
    ensures EndsComment(BrokenDashes(data)) <==> OddRun(data)
  {
    if data == [] {
    } else if |data| >= 2 && data[0] == DASH && data[1] == DASH {
      CommentEndsEarlyIff(data[2..]);
      BrokenFront(data[2..]);
      PairEnds(BrokenDashes(data[2..]));
      PairRuns(data);
    } else {
      CommentEndsEarlyIff(data[1..]);
      BrokenFront(data[1..]);
      UnitEnds(data[0], BrokenDashes(data[1..]));
      UnitRuns(data);
    }
  }

  /** A comment of three dashes and `>` is written so that it ends with its own data. */
  lemma CommentCanEndEarly()
    ensures EndsComment(BrokenDashes([DASH, DASH, DASH, GREATER]))
  {
    var data: Text := [DASH, DASH, DASH, GREATER];
    assert DashesBefore(data, 0) == 0 && DashesBefore(data, 1) == 1 && DashesBefore(data, 2) == 2 && DashesBefore(data, 3) == 3;
    assert OddRunAt(data, 3);
    CommentEndsEarlyIff(data);
  }

  /** Reading from the front: where the first `-->` of a written comment stands. */
  lemma CommentIsWhole(data: Text)
    ensures EndAt(BrokenDashes(data) + T("-->"), |BrokenDashes(data)|)
    ensures (exists i :: i < |BrokenDashes(data)| && EndAt(BrokenDashes(data) + T("-->"), i)) <==> OddRun(data)
  {
    var b := BrokenDashes(data);
    var t := b + T("-->");
    CommentEndsEarlyIff(data);
    assert t[|b|] == T("-->")[0] && t[|b| + 1] == T("-->")[1] && t[|b| + 2] == T("-->")[2];
    if i :| i < |b| && EndAt(t, i) {
      assert t[i] == b[i];
      assert EndAt(b, i);
    }
    if i :| EndAt(b, i) {
      assert EndAt(t, i);
    }
  }
}
