module TidyProofs {
  // What tidyHtml writes is well nested and never too deep, for any tokens and any name sets.

  import opened Basics
  import opened CodeUnits
  import opened TidyReader
  import opened TidyMachine

  /** The open elements whose start tags were written: those below the lowest dropped one, at
      most 65 of them. */
  function Shown(stack: seq<Element>): (k: nat)
    ensures k <= |stack| && k <= DEEPEST
  {
    var k := if DropAt(stack) >= 0 then DropAt(stack) else |stack|;
    if k <= DEEPEST then k else DEEPEST
  }

  /** Their names, lowest first. */
  function ShownNames(stack: seq<Element>): (r: seq<Text>)
    ensures |r| == Shown(stack) && forall i :: 0 <= i < |r| ==> r[i] == stack[i].kind.out
  {
    seq(Shown(stack), i requires 0 <= i < Shown(stack) => stack[i].kind.out)
  }

  /** Read as a text, what is written so far is well nested; the tags left open in it are exactly the shown
      part of the stack, and what stands between the tags is x. */
  ghost predicate Inv(s: Tidy, x: Text) {
    Read(BEGIN, Joined(s.out)) == Reading(InText, ShownNames(s.stack), x)
  }

  /** One piece more of the text. */
  lemma ReadPush(out: seq<Text>, str: Text)
    ensures Read(BEGIN, Joined(out + [str])) == Read(Read(BEGIN, Joined(out)), str)
  {
    assert (out + [str])[..|out|] == out;
    ReadConcat(BEGIN, Joined(out), str);
  }

  /** dropAt is the lowest element that is dropped, and -1 only when none is. */
  lemma {:induction false} DropAtIsLowest(stack: seq<Element>)
    ensures var d := DropAt(stack);
      && (d >= 0 ==> Drops(stack[..d], stack[d].kind, stack[d].ns))
      && forall k :: 0 <= k < (if d >= 0 then d else |stack|) ==> !Drops(stack[..k], stack[k].kind, stack[k].ns)
  {
    hide Drops;
    if stack != [] {
      var n := |stack| - 1;
      DropAtIsLowest(stack[..n]);
      assert forall k :: 0 <= k <= n ==> stack[..n][..k] == stack[..k];
    }
  }

  lemma DropAtPush(stack: seq<Element>, e: Element)
    ensures DropAt(stack + [e]) == if DropAt(stack) >= 0 then DropAt(stack)
                                   else if Drops(stack, e.kind, e.ns) then |stack| else -1
  {
    assert (stack + [e])[..|stack|] == stack;
  }

  /** What an element on top changes of the shown part: nothing when it is hidden, itself otherwise. */
  lemma ShownPush(stack: seq<Element>, e: Element)
    ensures ShownNames(stack + [e]) ==
      if DropAt(stack + [e]) >= 0 || |stack| > SHOWN then ShownNames(stack) else ShownNames(stack) + [e.kind.out]
    ensures !(DropAt(stack + [e]) >= 0 || |stack| > SHOWN) ==> Shown(stack) == |stack| < DEEPEST
  {
    hide DropAt, Drops;
    DropAtPush(stack, e);
    var longer := stack + [e];
    if DropAt(longer) >= 0 || |stack| > SHOWN {
      assert Shown(longer) == Shown(stack);
    } else {
      assert Shown(longer) == Shown(stack) + 1;
    }
  }

  lemma OpenKeeps(v: Vocabulary, s: Tidy, e: Element, x: Text)
    requires Inv(s, x)
    ensures Inv(Open(v, s, e), x)
  {
    hide DropAt, ShownNames, Read, Joined;
    var f := Opened(s.pending, e);
    ShownPush(s.stack, f);
    DropAtPush(s.stack, f);
    if !(DropAt(s.stack + [f]) >= 0 || |s.stack| > SHOWN) {
      ReadPush(s.out, StartPiece(e));
      StartReads(Reading(InText, ShownNames(s.stack), x), e.kind.out, e.text);
    }
  }

  lemma WithoutLast(x: seq<Text>, y: Text)
    ensures (x + [y])[..|x|] == x
  {}

  lemma CloseKeeps(v: Vocabulary, s: Tidy, x: Text)
    requires Inv(s, x) && s.stack != []
    ensures Inv(Close(v, s), x)
  {
    hide DropAt, ShownNames, Read, Joined, Drops;
    var n := |s.stack| - 1;
    var e, rest := s.stack[n], s.stack[..n];
    assert rest + [e] == s.stack;
    ShownPush(rest, e);
    if !(DropAt(s.stack) >= 0 || n > SHOWN) {
      ShownIsPlain(rest, e);
      EndPieceReads(s.out, ShownNames(rest), e, x);
    }
  }

  lemma ShownIsPlain(stack: seq<Element>, e: Element)
    requires DropAt(stack + [e]) < 0
    ensures IsPlain(e.kind.out)
  {
    DropAtPush(stack, e);
  }

  lemma EndPieceReads(out: seq<Text>, open: seq<Text>, e: Element, x: Text)
    requires IsPlain(e.kind.out) && Read(BEGIN, Joined(out)) == Reading(InText, open + [e.kind.out], x)
    ensures Read(BEGIN, Joined(out + [EndPiece(e)])) == Reading(InText, open, x)
  {
    hide Read, Joined;
    ReadPush(out, EndPiece(e));
    EndReads(Reading(InText, open + [e.kind.out], x), e.kind.out);
    WithoutLast(open, e.kind.out);
  }

  lemma LeafKeeps(v: Vocabulary, s: Tidy, str: Text, kind: Kind, ns: Namespace, x: Text)
    requires Inv(s, x) && (!kind.drop ==> ReadsAsLeaf(str))
    ensures Inv(Leaf(v, s, str, kind, ns), x)
  {
    hide Read, Joined;
    if !(Hidden(s.stack) || Drops(s.stack, kind, ns)) {
      ReadPush(s.out, str);
    }
  }

  /** A text is written as it is, escaped, or not at all. */
  lemma TextPieceKeeps(v: Vocabulary, s: Tidy, t: Text, x: Text)
    requires Inv(s, x)
    ensures Inv(Write(v, s, EscapeLt(t), false), x + EscapeLt(t))
  {
    hide Read, Joined, Escaped, Unescaped;
    ReadPush(s.out, EscapeLt(t));
    EscapedSaysTheSame(t);
    TextReads(Reading(InText, ShownNames(s.stack), x), EscapeLt(t));
  }

  lemma CommentKeeps(v: Vocabulary, s: Tidy, x: Text)
    requires Inv(s, x)
    ensures Inv(Write(v, s, COMMENT, false), x)
  {
    hide Read, Joined;
    ReadPush(s.out, COMMENT);
    CommentReads(Reading(InText, ShownNames(s.stack), x));
  }

  lemma UnseenKeeps(v: Vocabulary, s: Tidy, str: Text, x: Text)
    requires Inv(s, x)
    ensures Inv(Write(v, s, str, true), x)
  {}

  /** A zombie counts as the element it was. */
  lemma {:induction false} ZombieIsShownAlike(stack: seq<Element>, i: nat)
    requires i < |stack|
    ensures DropAt(stack[i := stack[i].(zombie := true)]) == DropAt(stack)
  {
    var n := |stack| - 1;
    var other := stack[i := stack[i].(zombie := true)];
    if i < n {
      ZombieIsShownAlike(stack[..n], i);
      assert other[..n] == stack[..n][i := stack[i].(zombie := true)];
    } else {
      assert other[..n] == stack[..n];
    }
  }

  lemma ZombieKeeps(s: Tidy, i: nat, x: Text)
    requires Inv(s, x) && i < |s.stack|
    ensures Inv(s.(stack := s.stack[i := s.stack[i].(zombie := true)]), x)
  {
    ZombieIsShownAlike(s.stack, i);
    assert ShownNames(s.stack[i := s.stack[i].(zombie := true)]) == ShownNames(s.stack);
  }

  lemma {:induction false} CloseDownKeeps(v: Vocabulary, s: Tidy, i: nat, kept: seq<Element>, x: Text)
    requires Inv(s, x)
    ensures Inv(CloseDown(v, s, i, kept).0, x)
    decreases |s.stack|
  {
    hide Inv, Write;
    if |s.stack| > i {
      CloseKeeps(v, s, x);
      var e, t := Top(s.stack), Close(v, s);
      CloseDownKeeps(v, t, i, if e.kind.marker then []
                              else if |t.stack| > i && e.kind.formatting && !e.zombie then kept + [e] else kept, x);
    }
  }

  lemma {:induction false} CloseZombiesKeeps(v: Vocabulary, s: Tidy, x: Text)
    requires Inv(s, x)
    ensures Inv(CloseZombies(v, s), x)
    decreases |s.stack|
  {
    hide Inv, Write;
    if s.stack != [] && Top(s.stack).zombie {
      CloseKeeps(v, s, x);
      CloseZombiesKeeps(v, Close(v, s), x);
    }
  }

  lemma PopToKeeps(v: Vocabulary, s: Tidy, i: nat, x: Text)
    requires Inv(s, x)
    ensures Inv(PopTo(v, s, i), x)
  {
    hide CloseDown, CloseZombies;
    CloseDownKeeps(v, s, i, [], x);
    var (t, kept) := CloseDown(v, s, i, []);
    CloseZombiesKeeps(v, if kept == [] then t else t.(pending := Reversed(kept) + t.pending), x);
  }

  lemma {:induction false} OpenAllKeeps(v: Vocabulary, s: Tidy, elements: seq<Element>, x: Text)
    requires Inv(s, x)
    ensures Inv(OpenAll(v, s, elements), x)
    decreases |elements|
  {
    hide Inv, Open, Entry;
    if elements != [] {
      var e := Entry(v, elements[0].name, Html, elements[0].text, []);
      OpenKeeps(v, s, e, x);
      OpenAllKeeps(v, Open(v, s, e), elements[1..], x);
    }
  }

  lemma ReopenKeeps(v: Vocabulary, s: Tidy, x: Text)
    requires Inv(s, x)
    ensures Inv(Reopen(v, s), x)
  {
    OpenAllKeeps(v, s.(pending := []), s.pending, x);
  }

  lemma PopIfInScopeKeeps(v: Vocabulary, s: Tidy, i: int, m: Mark, x: Text)
    requires Inv(s, x)
    ensures Inv(PopIfInScope(v, s, i, m), x)
  {
    if InScope(s.stack, i, m) { PopToKeeps(v, s, i, x); }
  }

  lemma DropPendingKeeps(s: Tidy, name: Text, x: Text)
    requires Inv(s, x)
    ensures Inv(DropPending(s, name), x)
  {}

  lemma EndFormattingKeeps(v: Vocabulary, s: Tidy, name: Text, x: Text)
    requires Inv(s, x)
    ensures Inv(EndFormatting(v, s, name), x)
  {
    hide Inv, PopTo, PopIfInScope, DropPending;
    var i := LastAt(s.stack, Html, name);
    if i >= 0 {
      PopToKeeps(v, s, i, x);
      ZombieKeeps(s, i, x);
    }
    DropPendingKeeps(s, name, x);
    var d := DropPending(s, name);
    PopIfInScopeKeeps(v, d, LastAt(d.stack, Html, name), Special, x);
  }

  lemma OpenOrLeafKeeps(v: Vocabulary, s: Tidy, e: Element, selfClosing: bool, x: Text)
    requires Inv(s, x) && e.kind.out == e.name
    ensures Inv(OpenOrLeaf(v, s, e, selfClosing), x)
  {
    hide Inv, Open, Leaf, ReadsAsLeaf;
    OpenKeeps(v, s, e, x);
    if !e.kind.drop { PairReads(e.name, e.text); }
    LeafKeeps(v, s, PairText(e), e.kind, e.ns, x);
  }

  lemma ColReads(text: AttributesText)
    ensures ReadsAsLeaf(VoidText(Units("col"), text))
  {
    hide ReadsAsLeaf;
    var name := Units("col");
    assert name[0] == 0x63 && name[1] == 0x6F && name[2] == 0x6C;
    VoidReads(name, text);
  }

  lemma ParagraphReads()
    ensures ReadsAsLeaf(Units("<p></p>"))
  {
    hide ReadsAsLeaf;
    var p := Units("<p></p>");
    PairReads([0x70], []);
    assert p[0] == LESS_THAN && p[1] == 0x70 && p[2] == GREATER_THAN && p[3] == LESS_THAN && p[4] == SLASH;
    assert p[5] == 0x70 && p[6] == GREATER_THAN;
    assert p == ([LESS_THAN] + [0x70] + [] + [GREATER_THAN]) + ([LESS_THAN, SLASH] + [0x70] + [GREATER_THAN]);
  }

  lemma BreakReads()
    ensures ReadsAsLeaf(Units("<br/>"))
  {
    hide ReadsAsLeaf;
    var b := Units("<br/>");
    VoidReads([0x62, 0x72], []);
    assert b[0] == LESS_THAN && b[1] == 0x62 && b[2] == 0x72 && b[3] == SLASH && b[4] == GREATER_THAN;
    assert b == [LESS_THAN] + [0x62, 0x72] + [] + [SLASH, GREATER_THAN];
  }

  lemma TablePartKeeps(v: Vocabulary, s: Tidy, name: Text, attrs: Attributes, x: Text)
    requires Inv(s, x)
    ensures Inv(TablePart(v, s, name, attrs), x)
  {
    hide Inv, Open, Leaf, PopTo, LastAt, KindOf, Entry, ReadsAsLeaf;
    var t := LastMarked(s.stack, TableScope);
    if t >= 0 {
      var text := AttrText(v, attrs, name, Html);
      ColReads(text);
      forall i: nat ensures Inv(PopTo(v, s, i), x) { PopToKeeps(v, s, i, x); }
      forall u | Inv(u, x)
        ensures Inv(Leaf(v, u, VoidText(Units("col"), text), KindOf(v, Units("col"), Html, false), Html), x)
      {
        LeafKeeps(v, u, VoidText(Units("col"), text), KindOf(v, Units("col"), Html, false), Html, x);
      }
      forall u | Inv(u, x) ensures Inv(Open(v, u, Entry(v, name, Html, text, attrs)), x) {
        OpenKeeps(v, u, Entry(v, name, Html, text, attrs), x);
      }
    }
  }

  lemma {:induction false} CloseImpliedKeeps(v: Vocabulary, s: Tidy, name: Text, x: Text)
    requires Inv(s, x)
    ensures Inv(CloseImplied(v, s, name), x)
    decreases |s.stack|
  {
    hide Inv, PopTo;
    if s.stack != [] {
      PopToKeeps(v, s, |s.stack| - 1, x);
      CloseImpliedKeeps(v, PopTo(v, s, |s.stack| - 1), name, x);
    }
  }

  lemma CloseBeforeKeeps(v: Vocabulary, s: Tidy, name: Text, x: Text)
    requires Inv(s, x)
    ensures Inv(CloseBefore(v, s, name), x)
  {
    hide Inv, PopTo, PopIfInScope, LastAt, LastMarked, DropPending, Reopen, EndFormatting, CloseImplied, InScope,
      IsHeading;
    forall u, i: nat | Inv(u, x) ensures Inv(PopTo(v, u, i), x) { PopToKeeps(v, u, i, x); }
    forall u, i, m | Inv(u, x) ensures Inv(PopIfInScope(v, u, i, m), x) { PopIfInScopeKeeps(v, u, i, m, x); }
    forall u, w | Inv(u, x) ensures Inv(DropPending(u, w), x) { DropPendingKeeps(u, w, x); }
    forall u | Inv(u, x) ensures Inv(Reopen(v, u), x) { ReopenKeeps(v, u, x); }
    forall u, w | Inv(u, x) ensures Inv(EndFormatting(v, u, w), x) { EndFormattingKeeps(v, u, w, x); }
    forall u | Inv(u, x) ensures Inv(CloseImplied(v, u, name), x) { CloseImpliedKeeps(v, u, name, x); }
  }

  lemma VoidTextReads(name: Plain, attrs: AttributesText)
    ensures ReadsAsLeaf(VoidText(name, attrs))
  {
    hide ReadsAsLeaf;
    VoidReads(name, attrs);
  }

  lemma HtmlStartKeeps(v: Vocabulary, s: Tidy, name: Text, attrs: Attributes, selfClosing: bool, x: Text)
    requires Inv(s, x)
    ensures Inv(HtmlStart(v, s, name, attrs, selfClosing), x)
  {
    hide Inv, TablePart, CloseBefore, Reopen, Leaf, Open, OpenOrLeaf, KindOf, LastAt, ReadsAsLeaf, AttrText, VoidText;
    TablePartKeeps(v, s, name, attrs, x);
    CloseBeforeKeeps(v, s, name, x);
    var t := CloseBefore(v, s, name);
    ReopenKeeps(v, t, x);
    var u := if name in v.noReopen then t else Reopen(v, t);
    if name in v.void {
      VoidTextReads(name, AttrText(v, attrs, name, Html));
      LeafKeeps(v, u, VoidText(name, AttrText(v, attrs, name, Html)), KindOf(v, name, Html, false), Html, x);
    }
    var ns := if name == Units("svg") then Svg else MathMl;
    OpenOrLeafKeeps(v, u, Entry(v, name, ns, AttrText(v, attrs, name, ns), attrs), selfClosing, x);
    var e := Entry(v, name, Html, AttrText(v, attrs, name, Html), attrs);
    OpenKeeps(v, u, e, x);
    FormKeeps(Open(v, u, e), true, x);
  }

  lemma FormKeeps(s: Tidy, form: bool, x: Text)
    requires Inv(s, x)
    ensures Inv(s.(formOpen := form), x)
  {}

  lemma StartTagKeeps(v: Vocabulary, s: Tidy, name: Text, attrs: Attributes, selfClosing: bool, x: Text)
    requires Inv(s, x)
    ensures Inv(StartTag(v, s, name, attrs, selfClosing), x)
  {
    hide Inv, HtmlStart, OpenOrLeaf, KindOf, PopTo, LastMarked, AttrText;
    if Foreign(s.stack) {
      forall ns | ns != Html {
        OpenOrLeafKeeps(v, s, Entry(v, name, ns, AttrText(v, attrs, name, ns), attrs), selfClosing, x);
      }
      PopToKeeps(v, s, LastMarked(s.stack, HtmlPoint) + 1, x);
      HtmlStartKeeps(v, PopTo(v, s, LastMarked(s.stack, HtmlPoint) + 1), name, attrs, selfClosing, x);
    } else {
      HtmlStartKeeps(v, s, name, attrs, selfClosing, x);
    }
  }

  lemma HtmlEndKeeps(v: Vocabulary, s: Tidy, name: Text, x: Text)
    requires Inv(s, x)
    ensures Inv(HtmlEnd(v, s, name), x)
  {
    hide Inv, PopTo, PopIfInScope, LastAt, LastMarked, Leaf, Reopen, KindOf, EndFormatting, AnyOtherEnd, IsHeading,
      ReadsAsLeaf, Units, InScope;
    ParagraphReads();
    BreakReads();
    FormKeeps(s, false, x);
    var t := if name == Units("form") && LastAt(s.stack, Html, Units("template")) < 0 then s.(formOpen := false) else s;
    forall i: nat ensures Inv(PopTo(v, t, i), x) { PopToKeeps(v, t, i, x); }
    forall i, m ensures Inv(PopIfInScope(v, t, i, m), x) { PopIfInScopeKeeps(v, t, i, m, x); }
    LeafKeeps(v, t, Units("<p></p>"), KindOf(v, Units("p"), Html, false), Html, x);
    ReopenKeeps(v, t, x);
    LeafKeeps(v, Reopen(v, t), Units("<br/>"), KindOf(v, Units("br"), Html, false), Html, x);
    EndFormattingKeeps(v, t, name, x);
    AnyOtherEndKeeps(v, t, name, x);
  }

  lemma AnyOtherEndKeeps(v: Vocabulary, s: Tidy, name: Text, x: Text)
    requires Inv(s, x)
    ensures Inv(AnyOtherEnd(v, s, name), x)
  {
    PopIfInScopeKeeps(v, s, LastAt(s.stack, Html, name), Special, x);
  }

  lemma EndTagKeeps(v: Vocabulary, s: Tidy, name: Text, x: Text)
    requires Inv(s, x)
    ensures Inv(EndTag(v, s, name), x)
  {
    hide Inv, PopTo, HtmlEnd, LastAt, LastMarked;
    HtmlEndKeeps(v, s, name, x);
    forall i: nat ensures Inv(PopTo(v, s, i), x) { PopToKeeps(v, s, i, x); }
    HtmlEndKeeps(v, PopTo(v, s, LastMarked(s.stack, HtmlPoint) + 1), name, x);
  }

  /** The machine after the elements that a text reopens. */
  function Resumed(v: Vocabulary, s: Tidy, t: Text): Tidy {
    if s.pending != [] && !Foreign(s.stack) && HasContent(t) then Reopen(v, s) else s
  }

  /** What a token adds to the text between the tags: a text that is not hidden, escaped. */
  function TextShown(v: Vocabulary, s: Tidy, token: Token): Text {
    if token.Characters? && !Hidden(Resumed(v, s, token.text).stack) then EscapeLt(token.text) else []
  }

  lemma TextKeeps(v: Vocabulary, s: Tidy, t: Text, x: Text)
    requires Inv(s, x)
    ensures Inv(CharacterData(v, s, t), x + TextShown(v, s, Characters(t)))
  {
    hide Inv, Write, Reopen, Escaped, EndsAsReference, Hidden;
    ReopenKeeps(v, s, x);
    var r := Resumed(v, s, t);
    if Hidden(r.stack) {
      UnseenKeeps(v, r, [], x);
      assert x + [] == x;
    } else {
      CommentKeeps(v, r, x);
      var c := if r.refTail then Write(v, r, COMMENT, false) else r;
      TextPieceKeeps(v, c, t, x);
      RefTailKeeps(Write(v, c, EscapeLt(t), false), EndsAsReference(LastOf(t, 48)), x + EscapeLt(t));
    }
  }

  lemma RefTailKeeps(s: Tidy, b: bool, x: Text)
    requires Inv(s, x)
    ensures Inv(s.(refTail := b), x)
  {}

  lemma StepKeeps(v: Vocabulary, s: Tidy, token: Token, x: Text)
    requires Inv(s, x)
    ensures Inv(Step(v, s, token), x + TextShown(v, s, token))
  {
    hide Inv, StartTag, EndTag, CharacterData, Resumed;
    assert x + [] == x;
    match token
    case Start(name, attrs, selfClosing) => StartTagKeeps(v, s, name, attrs, selfClosing, x);
    case End(name) => EndTagKeeps(v, s, name, x);
    case Characters(t) => TextKeeps(v, s, t, x);
  }

  /** What the tokens add, in their order. */
  function AllTextShown(v: Vocabulary, s: Tidy, tokens: seq<Token>): Text
    decreases |tokens|
  {
    if tokens == [] then []
    else TextShown(v, s, tokens[0]) + AllTextShown(v, Step(v, s, tokens[0]), tokens[1..])
  }

  lemma {:induction false} StepsKeep(v: Vocabulary, s: Tidy, tokens: seq<Token>, x: Text)
    requires Inv(s, x)
    ensures Inv(Steps(v, s, tokens), x + AllTextShown(v, s, tokens))
    decreases |tokens|
  {
    hide Inv, Step, TextShown;
    if tokens == [] {
      assert x + [] == x;
    } else {
      var t, shown := Step(v, s, tokens[0]), TextShown(v, s, tokens[0]);
      StepKeeps(v, s, tokens[0], x);
      StepsKeep(v, t, tokens[1..], x + shown);
      Associative(x, shown, AllTextShown(v, t, tokens[1..]));
    }
  }

  /** For any tokens and any name sets: the text that is written reads, by its characters alone, as well
      nested, nowhere more than 65 deep; what is left open are the open elements below the lowest dropped
      one, in order; and what stands between the tags are the texts that are not hidden, in order, each
      escaped, nothing lost and nothing added. */
  lemma WritesWellNested(v: Vocabulary, tokens: seq<Token>)
    ensures var s := Steps(v, START, tokens);
      Read(BEGIN, Joined(s.out)) == Reading(InText, ShownNames(s.stack), AllTextShown(v, START, tokens))
  {
    assert Inv(START, []);
    StepsKeep(v, START, tokens, []);
    assert [] + AllTextShown(v, START, tokens) == AllTextShown(v, START, tokens);
  }

  // ---- the attributes written

  /** An attribute of the tag, under the name it is written by, and the first of that name. */
  ghost predicate IsFirst(v: Vocabulary, attrs: Attributes, tag: Text, ns: Namespace, a: Text, value: Text) {
    exists i :: 0 <= i < |attrs| && WrittenAs(v, attrs[i].0, tag, ns) == Some(a) && attrs[i].1 == value &&
      forall j :: 0 <= j < i ==> WrittenAs(v, attrs[j].0, tag, ns) != Some(a)
  }

  lemma KeptIsSkipped(v: Vocabulary, attrs: Attributes, tag: Text, ns: Namespace, seen: set<Text>)
    requires attrs != []
    ensures var r, a := KeptAttrs(v, attrs, tag, ns, seen), WrittenAs(v, attrs[0].0, tag, ns);
      if a.None? || a.value in seen || !IsAttributeName(a.value) then r == KeptAttrs(v, attrs[1..], tag, ns, seen)
      else if |seen| + 1 > MAX_ATTRS then r == []
      else r == [(a.value, attrs[0].1)] + KeptAttrs(v, attrs[1..], tag, ns, seen + {a.value})
  {
    hide WrittenAs, IsAttributeName;
  }

  /** No name is written twice, nor one that was written before, and no more than 256. */
  lemma {:induction false} AttributesAreWrittenOnce(v: Vocabulary, attrs: Attributes, tag: Text, ns: Namespace,
    seen: set<Text>)
    requires |seen| <= MAX_ATTRS
    ensures var r := KeptAttrs(v, attrs, tag, ns, seen);
      && |r| + |seen| <= MAX_ATTRS
      && (forall j, k :: 0 <= j < k < |r| ==> r[j].0 != r[k].0) && (forall k :: 0 <= k < |r| ==> r[k].0 !in seen)
    decreases |attrs|
  {
    hide WrittenAs, IsAttributeName, KeptAttrs;
    if attrs == [] {
      NoneIsKept(v, tag, ns, seen);
    } else {
      KeptIsSkipped(v, attrs, tag, ns, seen);
      var a := WrittenAs(v, attrs[0].0, tag, ns);
      AttributesAreWrittenOnce(v, attrs[1..], tag, ns, seen);
      if a.Some? && a.value !in seen && |seen| < MAX_ATTRS {
        AttributesAreWrittenOnce(v, attrs[1..], tag, ns, seen + {a.value});
      }
    }
  }

  lemma NoneIsKept(v: Vocabulary, tag: Text, ns: Namespace, seen: set<Text>)
    ensures KeptAttrs(v, [], tag, ns, seen) == []
  {}

  /** Each is written with the value that it has first. */
  lemma {:induction false} AttributesHaveTheirFirstValue(v: Vocabulary, attrs: Attributes, tag: Text, ns: Namespace,
    seen: set<Text>, k: nat)
    requires |seen| <= MAX_ATTRS && k < |KeptAttrs(v, attrs, tag, ns, seen)|
    ensures var r := KeptAttrs(v, attrs, tag, ns, seen); IsFirst(v, attrs, tag, ns, r[k].0, r[k].1)
    decreases |attrs|
  {
    hide WrittenAs, IsAttributeName, KeptAttrs, IsFirst;
    NoneIsKept(v, tag, ns, seen);
    KeptIsSkipped(v, attrs, tag, ns, seen);
    var r, rest, a := KeptAttrs(v, attrs, tag, ns, seen), attrs[1..], WrittenAs(v, attrs[0].0, tag, ns);
    AttributesAreWrittenOnce(v, attrs, tag, ns, seen);
    if a.None? || a.value in seen || !IsAttributeName(a.value) {
      AttributesHaveTheirFirstValue(v, rest, tag, ns, seen, k);
      assert r[k].0 !in seen && IsAttributeName(r[k].0);
      FirstStays(v, attrs, tag, ns, r[k].0, r[k].1);
    } else if k > 0 {
      AttributesHaveTheirFirstValue(v, rest, tag, ns, seen + {a.value}, k - 1);
      assert r[0].0 == a.value && r[0].0 != r[k].0;
      FirstStays(v, attrs, tag, ns, r[k].0, r[k].1);
    } else {
      FirstIsFirst(v, attrs, tag, ns, a.value);
    }
  }

  lemma FirstIsFirst(v: Vocabulary, attrs: Attributes, tag: Text, ns: Namespace, a: Text)
    requires attrs != [] && WrittenAs(v, attrs[0].0, tag, ns) == Some(a)
    ensures IsFirst(v, attrs, tag, ns, a, attrs[0].1)
  {
    hide WrittenAs;
  }

  /** None is left out before 256 are written. */
  lemma {:induction false} NoAttributeIsLeftOut(v: Vocabulary, attrs: Attributes, tag: Text, ns: Namespace,
    seen: set<Text>, i: nat, a: Text)
    requires |seen| + |KeptAttrs(v, attrs, tag, ns, seen)| < MAX_ATTRS
    requires i < |attrs| && WrittenAs(v, attrs[i].0, tag, ns) == Some(a) && a !in seen && IsAttributeName(a)
    ensures exists k :: 0 <= k < |KeptAttrs(v, attrs, tag, ns, seen)| && KeptAttrs(v, attrs, tag, ns, seen)[k].0 == a
    decreases |attrs|
  {
    hide WrittenAs, IsAttributeName, KeptAttrs;
    KeptIsSkipped(v, attrs, tag, ns, seen);
    var r, rest, b := KeptAttrs(v, attrs, tag, ns, seen), attrs[1..], WrittenAs(v, attrs[0].0, tag, ns);
    if b.None? || b.value in seen || !IsAttributeName(b.value) {
      NoAttributeIsLeftOut(v, rest, tag, ns, seen, i - 1, a);
    } else if b.value == a {
      assert r[0].0 == a;
    } else {
      var more := KeptAttrs(v, rest, tag, ns, seen + {b.value});
      NoAttributeIsLeftOut(v, rest, tag, ns, seen + {b.value}, i - 1, a);
      var k :| 0 <= k < |more| && more[k].0 == a;
      assert r[k + 1].0 == a;
    }
  }

  lemma FirstStays(v: Vocabulary, attrs: Attributes, tag: Text, ns: Namespace, a: Text, value: Text)
    requires attrs != [] && IsFirst(v, attrs[1..], tag, ns, a, value)
    requires WrittenAs(v, attrs[0].0, tag, ns) != Some(a)
    ensures IsFirst(v, attrs, tag, ns, a, value)
  {
    hide WrittenAs;
    var rest := attrs[1..];
    var i :| 0 <= i < |rest| && WrittenAs(v, rest[i].0, tag, ns) == Some(a) && rest[i].1 == value &&
      forall j :: 0 <= j < i ==> WrittenAs(v, rest[j].0, tag, ns) != Some(a);
    assert attrs[i + 1] == rest[i];
    forall j | 0 <= j < i + 1 ensures WrittenAs(v, attrs[j].0, tag, ns) != Some(a) {
      assert j > 0 ==> attrs[j] == rest[j - 1];
    }
  }

  // ---- the formatting elements that wait to be reopened

  /** The formatting elements of a part of the stack that are reopened later. */
  function Reopenable(part: seq<Element>): seq<Element> {
    if part == [] then []
    else (if part[0].kind.formatting && !part[0].zombie then [part[0]] else []) + Reopenable(part[1..])
  }

  lemma {:induction false} ReopenablePush(part: seq<Element>, e: Element)
    ensures Reopenable(part + [e]) == Reopenable(part) + (if e.kind.formatting && !e.zombie then [e] else [])
  {
    if part == [] {
      assert part + [e] == [e] && [e][1..] == [];
    } else {
      assert (part + [e])[1..] == part[1..] + [e];
      ReopenablePush(part[1..], e);
      Associative(if part[0].kind.formatting && !part[0].zombie then [part[0]] else [], Reopenable(part[1..]),
                  if e.kind.formatting && !e.zombie then [e] else []);
    }
  }

  lemma {:induction false} ReversedConcat(x: seq<Element>, y: seq<Element>)
    ensures Reversed(x + y) == Reversed(y) + Reversed(x)
  {
    if x == [] {
      assert x + y == y;
    } else {
      assert (x + y)[1..] == x[1..] + y;
      ReversedConcat(x[1..], y);
    }
  }

  /** Closing down to i without a marker keeps exactly the formatting elements above i, so that
      they are reopened in the order they were open in, before those that already wait. */
  lemma {:induction false} CloseDownKeepsFormatting(v: Vocabulary, s: Tidy, i: nat, kept: seq<Element>)
    requires i < |s.stack| && forall k :: i <= k < |s.stack| ==> !s.stack[k].kind.marker
    ensures var (t, all) := CloseDown(v, s, i, kept);
      t.pending == s.pending && Reversed(all) == Reopenable(s.stack[i + 1..]) + Reversed(kept)
    decreases |s.stack|
  {
    hide Write, Reopenable, Reversed, DropAt;
    var e, t := Top(s.stack), Close(v, s);
    if |s.stack| - 1 == i {
      NothingAbove(s.stack, i, kept);
      assert CloseDown(v, s, i, kept) == (t, kept);
    } else {
      var next := if e.kind.formatting && !e.zombie then kept + [e] else kept;
      CloseDownKeepsFormatting(v, t, i, next);
      OneMoreKept(s.stack, i, kept);
    }
  }

  lemma NothingAbove(stack: seq<Element>, i: nat, kept: seq<Element>)
    requires |stack| == i + 1
    ensures Reopenable(stack[i + 1..]) + Reversed(kept) == Reversed(kept)
  {
    assert stack[i + 1..] == [];
  }

  /** The top element, when it is kept, is the last of those above i and the first reversed. */
  lemma OneMoreKept(stack: seq<Element>, i: nat, kept: seq<Element>)
    requires i + 1 < |stack|
    ensures var n := |stack| - 1;
      var e := stack[n];
      Reopenable(stack[..n][i + 1..]) + Reversed(if e.kind.formatting && !e.zombie then kept + [e] else kept)
      == Reopenable(stack[i + 1..]) + Reversed(kept)
  {
    var n := |stack| - 1;
    var e, part := stack[n], stack[..n][i + 1..];
    assert stack[i + 1..] == part + [e];
    ReopenablePush(part, e);
    ReversedConcat(kept, [e]);
    assert Reversed([e]) == [e];
  }

  /** Closing a marker (a cell, a caption, a template ...) puts back what waited when it was
      opened, whatever was closed inside it. */
  lemma {:induction false} ClosingAMarkerRestores(v: Vocabulary, s: Tidy, i: nat, kept: seq<Element>)
    requires i < |s.stack| && s.stack[i].kind.marker
    ensures var (t, all) := CloseDown(v, s, i, kept); all == [] && t.pending == s.stack[i].saved
    decreases |s.stack|
  {
    hide Write;
    var e, t := Top(s.stack), Close(v, s);
    if |s.stack| - 1 > i {
      ClosingAMarkerRestores(v, t, i, if e.kind.marker then []
                                      else if e.kind.formatting && !e.zombie then kept + [e] else kept);
    } else {
      assert CloseDown(v, s, i, kept) == (t, []);
    }
  }

  /** Opening a marker sets aside what waits; closing down to it, after anything that left it
      open, brings it back. */
  lemma MarkerBracketsPending(v: Vocabulary, s: Tidy, e: Element, t: Tidy)
    requires e.kind.marker
    requires |t.stack| > |s.stack| && t.stack[|s.stack|] == Open(v, s, e).stack[|s.stack|]
    ensures Open(v, s, e).pending == []
    ensures var (u, kept) := CloseDown(v, t, |s.stack|, []); kept == [] && u.pending == s.pending
  {
    ClosingAMarkerRestores(v, t, |s.stack|, []);
  }

  /** After popTo no zombie is on top of the stack. */
  lemma {:induction false} NoZombieOnTop(v: Vocabulary, s: Tidy)
    ensures var t := CloseZombies(v, s); t.stack == [] || !Top(t.stack).zombie
    decreases |s.stack|
  {
    hide Write;
    if s.stack != [] && Top(s.stack).zombie {
      NoZombieOnTop(v, Close(v, s));
    }
  }
}
