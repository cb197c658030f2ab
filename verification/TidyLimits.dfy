module TidyLimits {
  // The limits of tidyHtml, past which it throws. Here a passed limit sets failed, and a machine that
  // failed has no answer.

  import opened Basics
  import opened CodeUnits
  import opened TidyReader
  import opened TidyMachine
  import opened TidyProofs
  import opened TidyRules

  /** What tidyHtml answers for these tokens; None where it throws. */
  function Answer(v: Vocabulary, tokens: seq<Token>): Option<Text> {
    var s := Steps(v, START, tokens);
    if s.failed then None else Some(Joined(s.out))
  }

  /** outLength is what it says, and what did not fail is within the limits: of the length, of the nesting, and
      of the work, of which every piece written takes some. The rules of what may stand in what hold. */
  ghost predicate Within(v: Vocabulary, s: Tidy) {
    && s.outLength == |Joined(s.out)| && |s.out| <= s.work
    && (!s.failed ==> s.outLength <= v.maxOut && |s.stack| <= v.maxNest && |s.out| <= v.maxWork)
    && Rules(v, s)
  }

  /** From s to t no failure is forgotten, nothing written is taken back, and what is within the limits stays so. */
  ghost predicate Goes(v: Vocabulary, s: Tidy, t: Tidy) {
    && (s.failed ==> t.failed) && s.outLength <= t.outLength && s.work <= t.work
    && (Within(v, s) ==> Within(v, t))
  }

  lemma GoesOn(v: Vocabulary, s: Tidy, t: Tidy, r: Tidy)
    requires Goes(v, s, t) && Goes(v, t, r)
    ensures Goes(v, s, r)
  {}

  lemma WriteGoes(v: Vocabulary, s: Tidy, str: Text, unseen: bool)
    ensures Goes(v, s, Write(v, s, str, unseen))
  {
    hide IsWellMade;
    assert (s.out + [str])[..|s.out|] == s.out;
  }

  /** The element is made as one of its name is, and may stand here. */
  ghost predicate MayOpen(v: Vocabulary, s: Tidy, e: Element) {
    IsHtml(v) && Within(v, s) ==> IsMade(v, e) && MayStand(v, s.stack, e)
  }

  lemma OpenGoes(v: Vocabulary, s: Tidy, e: Element)
    requires MayOpen(v, s, e)
    ensures Goes(v, s, Open(v, s, e))
  {
    hide DropAt, Drops, StartPiece, IsWellMade, IsMade, IsHtml, Joined, Opened;
    var f := Opened(s.pending, e);
    var unseen := DropAt(s.stack + [f]) >= 0 || |s.stack| > SHOWN;
    var b := s.(failed := s.failed || |s.stack| >= v.maxNest);
    var t := Write(v, b, StartPiece(e), unseen);
    Stays(v, s, b);
    WriteGoes(v, b, StartPiece(e), unseen);
    if Within(v, s) && IsHtml(v) {
      OpenedIsMade(v, s.pending, e);
      OpenedStands(v, s.stack, s.pending, e);
      PushIsWellMade(v, s.stack, f);
    }
  }

  lemma OpenedStands(v: Vocabulary, stack: seq<Element>, pending: seq<Element>, e: Element)
    ensures MayStand(v, stack, Opened(pending, e)) == MayStand(v, stack, e)
  {}

  lemma CloseGoes(v: Vocabulary, s: Tidy)
    requires s.stack != []
    ensures Goes(v, s, Close(v, s))
  {
    hide DropAt, EndPiece, IsHtml, Joined, MayStand;
    var n := |s.stack| - 1;
    var unseen := DropAt(s.stack) >= 0 || n > SHOWN;
    var b := s.(stack := s.stack[..n]);
    if IsHtml(v) && Rules(v, s) {
      PrefixIsWellMade(v, s.stack, n);
      assert IsMade(v, s.stack[n]);
    }
    hide IsWellMade, IsMade;
    WriteGoes(v, b, EndPiece(s.stack[n]), unseen);
  }

  lemma {:induction false} CloseDownGoes(v: Vocabulary, s: Tidy, i: nat, kept: seq<Element>)
    ensures Goes(v, s, CloseDown(v, s, i, kept).0)
    decreases |s.stack|
  {
    hide Goes, Close;
    if |s.stack| <= i {
      ItselfGoes(v, s);
    } else {
      var e, t := Top(s.stack), Close(v, s);
      var more := if e.kind.marker then []
                  else if |t.stack| > i && e.kind.formatting && !e.zombie then kept + [e] else kept;
      CloseGoes(v, s);
      CloseDownGoes(v, t, i, more);
      GoesOn(v, s, t, CloseDown(v, t, i, more).0);
    }
  }

  lemma {:induction false} CloseZombiesGoes(v: Vocabulary, s: Tidy)
    ensures Goes(v, s, CloseZombies(v, s))
    decreases |s.stack|
  {
    hide Goes, Close;
    if s.stack != [] && Top(s.stack).zombie {
      CloseGoes(v, s);
      CloseZombiesGoes(v, Close(v, s));
      GoesOn(v, s, Close(v, s), CloseZombies(v, Close(v, s)));
    } else {
      ItselfGoes(v, s);
    }
  }

  /** The limits and the rules look at nothing else. */
  lemma Stays(v: Vocabulary, s: Tidy, t: Tidy)
    requires t.out == s.out && t.outLength == s.outLength && t.stack == s.stack && s.work <= t.work
    requires t.failed == s.failed || (t.failed && !s.failed)
    requires IsHtml(v) && Within(v, s) ==> AreInline(v, t.pending)
    ensures Goes(v, s, t)
  {
    hide IsHtml, IsWellMade, AreInline;
  }

  lemma {:induction false} KeptAreInline(v: Vocabulary, s: Tidy, i: nat, kept: seq<Element>)
    requires IsWellMade(v, s.stack) && AreInline(v, kept)
    ensures AreInline(v, CloseDown(v, s, i, kept).1)
    decreases |s.stack|
  {
    hide Close, MayStand;
    if |s.stack| > i {
      var n := |s.stack| - 1;
      var e, t := Top(s.stack), Close(v, s);
      assert IsMade(v, s.stack[n]);
      PrefixIsWellMade(v, s.stack, n);
      KeptAreInline(v, t, i, if e.kind.marker then []
                             else if |t.stack| > i && e.kind.formatting && !e.zombie then kept + [e] else kept);
    }
  }

  lemma {:induction false} ReversedHas(x: seq<Element>)
    ensures forall e :: e in Reversed(x) <==> e in x
  {
    if x != [] {
      ReversedHas(x[1..]);
    }
  }

  lemma PopToGoes(v: Vocabulary, s: Tidy, i: nat)
    ensures Goes(v, s, PopTo(v, s, i))
  {
    hide Goes, CloseDown, CloseZombies, Reversed, IsWellMade;
    var (t, kept) := CloseDown(v, s, i, []);
    var u := if kept == [] then t else t.(pending := Reversed(kept) + t.pending);
    CloseDownGoes(v, s, i, []);
    if IsHtml(v) && Within(v, s) {
      KeptAreInline(v, s, i, []);
      ReversedHas(kept);
    }
    PendingGoes(v, s, t, u);
    CloseZombiesGoes(v, u);
    GoesOn(v, s, u, CloseZombies(v, u));
  }

  lemma PendingGoes(v: Vocabulary, s: Tidy, t: Tidy, u: Tidy)
    requires Goes(v, s, t) && u == t.(pending := u.pending)
    requires IsHtml(v) && Within(v, s) && Within(v, t) ==> AreInline(v, u.pending)
    ensures Goes(v, s, u)
  {
    hide IsHtml, IsWellMade, AreInline;
  }

  lemma OpenOnlyAdds(v: Vocabulary, s: Tidy, e: Element)
    ensures var t := Open(v, s, e); (s.failed ==> t.failed) && s.outLength <= t.outLength && s.work <= t.work
  {
    hide DropAt, StartPiece;
  }

  lemma {:induction false} OpenAllOnlyAdds(v: Vocabulary, s: Tidy, elements: seq<Element>)
    ensures var t := OpenAll(v, s, elements);
      (s.failed ==> t.failed) && s.outLength <= t.outLength && s.work <= t.work
    decreases |elements|
  {
    hide Open, Entry;
    if elements != [] {
      var e := Entry(v, elements[0].name, Html, elements[0].text, []);
      OpenOnlyAdds(v, s, e);
      OpenAllOnlyAdds(v, Open(v, s, e), elements[1..]);
    }
  }

  lemma {:induction false} OpenAllWithin(v: Vocabulary, s: Tidy, elements: seq<Element>)
    requires Within(v, s) && (IsHtml(v) ==> AreInline(v, elements))
    ensures Within(v, OpenAll(v, s, elements))
    decreases |elements|
  {
    hide Open, Entry, Within, IsHtml, MayStand, IsMade;
    if elements != [] {
      var e := Entry(v, elements[0].name, Html, elements[0].text, []);
      if IsHtml(v) {
        assert elements[0] in elements;
        EntryIsMade(v, elements[0].name, Html, elements[0].text, []);
        EntryIsCalled(v, elements[0].name, Html, elements[0].text, []);
        OthersMayStand(v, s.stack, e);
      }
      OpenGoes(v, s, e);
      OpenAllWithin(v, Open(v, s, e), elements[1..]);
    }
  }

  lemma ReopenGoes(v: Vocabulary, s: Tidy)
    ensures Goes(v, s, Reopen(v, s))
  {
    var t := s.(pending := []);
    Stays(v, s, t);
    hide OpenAll;
    OpenAllOnlyAdds(v, t, s.pending);
    if Within(v, s) {
      hide IsHtml, IsWellMade;
      OpenAllWithin(v, t, s.pending);
    }
  }

  lemma PopIfInScopeGoes(v: Vocabulary, s: Tidy, i: int, m: Mark)
    ensures Goes(v, s, PopIfInScope(v, s, i, m))
  {
    hide Goes, PopTo;
    ItselfGoes(v, s);
    if i >= 0 {
      PopToGoes(v, s, i);
    }
  }

  lemma DropPendingGoes(v: Vocabulary, s: Tidy, name: Text)
    ensures Goes(v, s, DropPending(s, name))
  {
    hide Goes, IsWellMade, IsHtml;
    Stays(v, s, DropPending(s, name));
  }

  lemma ZombieGoes(v: Vocabulary, s: Tidy, i: nat)
    requires i < |s.stack| && (IsHtml(v) ==> s.stack[i].ns == Html && s.stack[i].name in v.formatting)
    ensures Goes(v, s, s.(stack := s.stack[i := s.stack[i].(zombie := true)]))
  {
    if Within(v, s) && IsHtml(v) {
      ZombieIsWellMade(v, s.stack, i);
    }
    hide IsWellMade, IsHtml;
  }

  lemma EndFormattingGoes(v: Vocabulary, s: Tidy, name: Text)
    requires IsHtml(v) ==> name in v.formatting
    ensures Goes(v, s, EndFormatting(v, s, name))
  {
    hide Goes, PopTo, PopIfInScope, DropPending, LastAt, LastMarked, IsHtml;
    var i, t := LastAt(s.stack, Html, name), DropPending(s, name);
    if 0 <= i {
      LastIsThere(s.stack, name);
      ItselfGoes(v, s);
      ZombieGoes(v, s, i);
      PopToGoes(v, s, i);
    }
    DropPendingGoes(v, s, name);
    PopIfInScopeGoes(v, t, LastAt(t.stack, Html, name), Special);
    GoesOn(v, s, t, AnyOtherEnd(v, t, name));
  }

  lemma ItselfGoes(v: Vocabulary, s: Tidy)
    ensures Goes(v, s, s)
  {}

  lemma LeafGoes(v: Vocabulary, s: Tidy, str: Text, kind: Kind, ns: Namespace)
    ensures Goes(v, s, Leaf(v, s, str, kind, ns))
  {
    hide Goes, Write;
    WriteGoes(v, s, str, Hidden(s.stack) || Drops(s.stack, kind, ns));
  }

  lemma ColumnGoes(v: Vocabulary, s: Tidy, t: nat, text: AttributesText)
    requires t < |s.stack|
    ensures Goes(v, s, Column(v, s, t, text))
  {
    hide Goes, PopTo, Leaf, KindOf;
    ItselfGoes(v, s);
    PopToGoes(v, s, t + 1);
    var u := if Top(s.stack).ns == Html && Top(s.stack).name == Units("colgroup") && |s.stack| - 1 > t then s
             else PopTo(v, s, t + 1);
    LeafGoes(v, u, VoidText(Units("col"), text), KindOf(v, Units("col"), Html, false), Html);
    GoesOn(v, s, u, Column(v, s, t, text));
  }

  /** An element of another namespace, a formatting one, or a part of a table may be opened anywhere. */
  lemma EntryMayOpen(v: Vocabulary, s: Tidy, name: Text, ns: Namespace, text: AttributesText, attrs: Attributes)
    requires IsHtml(v) ==> ns != Html || name in v.formatting || name in v.tablePart
    ensures MayOpen(v, s, Entry(v, name, ns, text, attrs))
  {
    hide Within, IsMade, MayStand, Entry;
    if IsHtml(v) {
      EntryIsMade(v, name, ns, text, attrs);
      EntryIsCalled(v, name, ns, text, attrs);
      OthersMayStand(v, s.stack, Entry(v, name, ns, text, attrs));
    }
  }

  lemma TablePartGoes(v: Vocabulary, s: Tidy, name: Text, attrs: Attributes)
    requires name in v.tablePart
    ensures Goes(v, s, TablePart(v, s, name, attrs))
  {
    hide Goes, PopTo, Open, Column, Entry, TableDepth, MayOpen;
    var t, text := LastMarked(s.stack, TableScope), AttrText(v, attrs, name, Html);
    ItselfGoes(v, s);
    if t >= 0 {
      ColumnGoes(v, s, t, text);
      var u := PopTo(v, s, TableDepth(s.stack, t, name));
      PopToGoes(v, s, TableDepth(s.stack, t, name));
      EntryMayOpen(v, u, name, Html, text, attrs);
      OpenGoes(v, u, Entry(v, name, Html, text, attrs));
      GoesOn(v, s, u, Open(v, u, Entry(v, name, Html, text, attrs)));
    }
  }

  lemma OpenOrLeafGoes(v: Vocabulary, s: Tidy, e: Element, selfClosing: bool)
    requires MayOpen(v, s, e)
    ensures Goes(v, s, OpenOrLeaf(v, s, e, selfClosing))
  {
    hide Goes, Open, Leaf, MayOpen;
    OpenGoes(v, s, e);
    LeafGoes(v, s, PairText(e), e.kind, e.ns);
  }

  lemma {:induction false} CloseImpliedGoes(v: Vocabulary, s: Tidy, name: Text)
    ensures Goes(v, s, CloseImplied(v, s, name))
    decreases |s.stack|
  {
    hide Goes, PopTo;
    ItselfGoes(v, s);
    if s.stack != [] {
      var t := PopTo(v, s, |s.stack| - 1);
      PopToGoes(v, s, |s.stack| - 1);
      CloseImpliedGoes(v, t, name);
      GoesOn(v, s, t, CloseImplied(v, t, name));
    }
  }

  lemma CloseItemsGoes(v: Vocabulary, s: Tidy, name: Text)
    ensures Goes(v, s, CloseItems(v, s, name))
  {
    hide Goes, PopIfInScope;
    ItselfGoes(v, s);
    forall i, m { PopIfInScopeGoes(v, s, i, m); }
    var t := if name == Units("li") then PopIfInScope(v, s, LastAt(s.stack, Html, Units("li")), NotAddressDivP)
             else if name == Units("dd") || name == Units("dt") then
               PopIfInScope(v, s, Max(LastAt(s.stack, Html, Units("dd")), LastAt(s.stack, Html, Units("dt"))),
                            NotAddressDivP)
             else s;
    PopIfInScopeGoes(v, t, LastAt(t.stack, Html, Units("p")), ButtonScope);
    GoesOn(v, s, t, PopIfInScope(v, t, LastAt(t.stack, Html, Units("p")), ButtonScope));
  }

  lemma CloseBlocksGoes(v: Vocabulary, s: Tidy, name: Text)
    ensures Goes(v, s, CloseBlocks(v, s, name))
  {
    hide Goes, PopIfInScope, PopTo, CloseItems, LastAt, IsHeading;
    var a := CloseItems(v, s, name);
    var b := CloseHeading(v, a, name);
    var c := if name == Units("table") then CloseTable(v, b) else b;
    var d := PopIfInScope(v, c, LastAt(c.stack, Html, Units("button")), Scope);
    CloseItemsGoes(v, s, name);
    ItselfGoes(v, a);
    if a.stack != [] { PopToGoes(v, a, |a.stack| - 1); }
    GoesOn(v, s, a, b);
    ItselfGoes(v, b);
    forall t: nat { PopToGoes(v, b, t); }
    GoesOn(v, s, b, c);
    PopIfInScopeGoes(v, c, LastAt(c.stack, Html, Units("button")), Scope);
    GoesOn(v, s, c, d);
  }

  lemma AnchorsGoes(v: Vocabulary, s: Tidy)
    ensures var t := if LastAt(s.stack, Html, Units("a")) > LastMarked(s.stack, Marker)
      then EndFormatting(v, s, Units("a")) else s;
      Goes(v, s, DropPending(t, Units("a")))
  {
    hide Goes, EndFormatting, DropPending;
    var t := if LastAt(s.stack, Html, Units("a")) > LastMarked(s.stack, Marker)
      then EndFormatting(v, s, Units("a")) else s;
    ItselfGoes(v, s);
    EndFormattingGoes(v, s, Units("a"));
    DropPendingGoes(v, t, Units("a"));
    GoesOn(v, s, t, DropPending(t, Units("a")));
  }

  lemma CloseInlinesGoes(v: Vocabulary, s: Tidy, name: Text)
    ensures Goes(v, s, CloseInlines(v, s, name))
  {
    hide Goes, PopTo, EndFormatting, DropPending, Reopen, CloseImplied, LastAt, InScope;
    var x := if LastAt(s.stack, Html, Units("a")) > LastMarked(s.stack, Marker)
      then EndFormatting(v, s, Units("a")) else s;
    var a := if name == Units("a") then DropPending(x, Units("a")) else s;
    ItselfGoes(v, s);
    AnchorsGoes(v, s);
    var b := if name == Units("nobr") then Reopen(v, a) else a;
    ReopenGoes(v, a);
    ItselfGoes(v, a);
    GoesOn(v, s, a, b);
    var c := if name == Units("nobr") && InScope(b.stack, LastAt(b.stack, Html, Units("nobr")), Scope)
      then EndFormatting(v, b, Units("nobr")) else b;
    EndFormattingGoes(v, b, Units("nobr"));
    ItselfGoes(v, b);
    GoesOn(v, s, b, c);
    var d := if (name == Units("option") || name == Units("optgroup")) && c.stack != [] && Top(c.stack).ns == Html &&
      Top(c.stack).name == Units("option") then PopTo(v, c, |c.stack| - 1) else c;
    forall t: nat { PopToGoes(v, c, t); }
    ItselfGoes(v, c);
    GoesOn(v, s, c, d);
    CloseImpliedGoes(v, d, name);
    GoesOn(v, s, d, CloseImplied(v, d, name));
  }

  lemma CloseBeforeGoes(v: Vocabulary, s: Tidy, name: Text)
    ensures Goes(v, s, CloseBefore(v, s, name))
  {
    hide Goes, CloseBlocks, CloseInlines;
    CloseBlocksGoes(v, s, name);
    CloseInlinesGoes(v, CloseBlocks(v, s, name), name);
    GoesOn(v, s, CloseBlocks(v, s, name), CloseBefore(v, s, name));
  }

  lemma {:induction false} OpenAllKeepsClear(v: Vocabulary, s: Tidy, elements: seq<Element>, name: Text, m: Mark)
    requires IsClear(s.stack, name, m) && forall e :: e in elements ==> e.name != name
    ensures IsClear(OpenAll(v, s, elements).stack, name, m)
    decreases |elements|
  {
    hide Entry, IsClear, DropAt, Write;
    if elements != [] {
      var e := Entry(v, elements[0].name, Html, elements[0].text, []);
      EntryIsCalled(v, elements[0].name, Html, elements[0].text, []);
      assert elements[0] in elements;
      ClearUnderInline(v, s.stack, Opened(s.pending, e), name, m);
      OpenAllKeepsClear(v, Open(v, s, e), elements[1..], name, m);
    }
  }

  lemma ReopenKeepsClear(v: Vocabulary, s: Tidy, name: Text, m: Mark)
    requires IsClear(s.stack, name, m) && AreInline(v, s.pending) && name !in v.formatting
    ensures IsClear(Reopen(v, s).stack, name, m)
  {
    hide OpenAll, IsClear;
    OpenAllKeepsClear(v, s.(pending := []), s.pending, name, m);
  }

  /** The machine where a start tag has closed and reopened what it does. */
  function Prepared(v: Vocabulary, s: Tidy, name: Text): Tidy {
    var t := CloseBefore(v, s, name);
    if name in v.noReopen then t else Reopen(v, t)
  }

  lemma PreparedGoes(v: Vocabulary, s: Tidy, name: Text)
    ensures Goes(v, s, Prepared(v, s, name))
  {
    hide Goes, CloseBefore, Reopen;
    var t := CloseBefore(v, s, name);
    CloseBeforeGoes(v, s, name);
    ReopenGoes(v, t);
    GoesOn(v, s, t, Reopen(v, t));
  }

  /** Then its element may be opened. */
  lemma StartMayOpen(v: Vocabulary, s: Tidy, name: Text, text: AttributesText, attrs: Attributes)
    requires Within(v, s)
    ensures MayOpen(v, Prepared(v, s, name), Entry(v, name, Html, text, attrs))
  {
    hide CloseBefore, Reopen, Entry, IsMade, IsClear, IsWellMade;
    if IsHtml(v) {
      var t, e := CloseBefore(v, s, name), Entry(v, name, Html, text, attrs);
      EntryIsMade(v, name, Html, text, attrs);
      EntryIsCalled(v, name, Html, text, attrs);
      CloseBeforeGoes(v, s, name);
      assert AreInline(v, t.pending);
      assert P !in v.formatting && BUTTON !in v.formatting;
      if name in v.closesP {
        BlocksLeaveNoParagraph(v, s, name);
        ReopenKeepsClear(v, t, P, ButtonScope);
      }
      if name == BUTTON {
        BlocksLeaveNoButton(v, s);
        ReopenKeepsClear(v, t, BUTTON, Scope);
      }
    }
  }

  lemma StartOpens(v: Vocabulary, s: Tidy, name: Text, text: AttributesText, attrs: Attributes)
    ensures Goes(v, s, Open(v, Prepared(v, s, name), Entry(v, name, Html, text, attrs)))
  {
    var u, e := Prepared(v, s, name), Entry(v, name, Html, text, attrs);
    hide Prepared, Open, Within, MayOpen, Entry;
    PreparedGoes(v, s, name);
    OpenOnlyAdds(v, u, e);
    if Within(v, s) {
      StartMayOpen(v, s, name, text, attrs);
      OpenGoes(v, u, e);
    }
  }

  lemma FormGoes(v: Vocabulary, s: Tidy, t: Tidy, form: bool)
    requires Goes(v, s, t)
    ensures Goes(v, s, t.(formOpen := form))
  {
    hide IsHtml, IsWellMade;
  }

  lemma HtmlStartGoes(v: Vocabulary, s: Tidy, name: Text, attrs: Attributes, selfClosing: bool)
    ensures Goes(v, s, HtmlStart(v, s, name, attrs, selfClosing))
  {
    hide Goes, TablePart, CloseBefore, Reopen, Leaf, Open, OpenOrLeaf, Entry, KindOf, LastAt, MayOpen, AttrText,
      VoidText;
    var u := Prepared(v, s, name);
    ItselfGoes(v, s);
    if name in v.tablePart { TablePartGoes(v, s, name, attrs); }
    PreparedGoes(v, s, name);
    var leaf := Leaf(v, u, VoidText(name, AttrText(v, attrs, name, Html)), KindOf(v, name, Html, false), Html);
    LeafGoes(v, u, VoidText(name, AttrText(v, attrs, name, Html)), KindOf(v, name, Html, false), Html);
    GoesOn(v, s, u, leaf);
    var ns := if name == Units("svg") then Svg else MathMl;
    var foreign := Entry(v, name, ns, AttrText(v, attrs, name, ns), attrs);
    EntryMayOpen(v, u, name, ns, AttrText(v, attrs, name, ns), attrs);
    OpenOrLeafGoes(v, u, foreign, selfClosing);
    GoesOn(v, s, u, OpenOrLeaf(v, u, foreign, selfClosing));
    var w := Open(v, u, Entry(v, name, Html, AttrText(v, attrs, name, Html), attrs));
    StartOpens(v, s, name, AttrText(v, attrs, name, Html), attrs);
    FormGoes(v, s, w, true);
  }

  lemma StartTagGoes(v: Vocabulary, s: Tidy, name: Text, attrs: Attributes, selfClosing: bool)
    ensures Goes(v, s, StartTag(v, s, name, attrs, selfClosing))
  {
    hide Goes, PopTo, HtmlStart, OpenOrLeaf, Entry, HasFontAttribute, MayOpen, AttrText;
    if Foreign(s.stack) {
      var top := Top(s.stack);
      var ns := if top.ns == MathMl && top.name == Units("annotation-xml") && name == Units("svg") then Svg else top.ns;
      EntryMayOpen(v, s, name, ns, AttrText(v, attrs, name, ns), attrs);
      OpenOrLeafGoes(v, s, Entry(v, name, ns, AttrText(v, attrs, name, ns), attrs), selfClosing);
    }
    var t := if Foreign(s.stack) then PopTo(v, s, LastMarked(s.stack, HtmlPoint) + 1) else s;
    PopToGoes(v, s, LastMarked(s.stack, HtmlPoint) + 1);
    ItselfGoes(v, s);
    HtmlStartGoes(v, t, name, attrs, selfClosing);
    GoesOn(v, s, t, HtmlStart(v, t, name, attrs, selfClosing));
  }

  lemma HtmlEndGoes(v: Vocabulary, s: Tidy, name: Text)
    ensures Goes(v, s, HtmlEnd(v, s, name))
  {
    hide Goes, PopTo, PopIfInScope, EndFormatting, Leaf, Reopen, KindOf, IsHeading, LastAt, InScope;
    var form := name == Units("form") && LastAt(s.stack, Html, Units("template")) < 0;
    var t := if form then s.(formOpen := false) else s;
    var r := HtmlEnd(v, s, name);
    ItselfGoes(v, s);
    Stays(v, s, t);
    ItselfGoes(v, t);
    forall i: nat { PopToGoes(v, t, i); }
    forall i, m { PopIfInScopeGoes(v, t, i, m); }
    if name in v.formatting { EndFormattingGoes(v, t, name); }
    LeafGoes(v, t, Units("<p></p>"), KindOf(v, Units("p"), Html, false), Html);
    ReopenGoes(v, t);
    LeafGoes(v, Reopen(v, t), Units("<br/>"), KindOf(v, Units("br"), Html, false), Html);
    GoesOn(v, t, Reopen(v, t), Leaf(v, Reopen(v, t), Units("<br/>"), KindOf(v, Units("br"), Html, false), Html));
    if name !in v.ignored {
      assert Goes(v, t, r);
      GoesOn(v, s, t, r);
    }
  }

  lemma EndTagGoes(v: Vocabulary, s: Tidy, name: Text)
    ensures Goes(v, s, EndTag(v, s, name))
  {
    hide Goes, PopTo, HtmlEnd;
    HtmlEndGoes(v, s, name);
    forall i: nat { PopToGoes(v, s, i); }
    var t := PopTo(v, s, LastMarked(s.stack, HtmlPoint) + 1);
    HtmlEndGoes(v, t, name);
    GoesOn(v, s, t, HtmlEnd(v, t, name));
  }

  lemma WriteTextGoes(v: Vocabulary, s: Tidy, t: Text)
    ensures Goes(v, s, WriteText(v, s, t))
  {
    hide Goes, Write, Escaped, EndsAsReference, LastOf;
    ItselfGoes(v, s);
    WriteGoes(v, s, COMMENT, false);
    var c := if s.refTail then Write(v, s, COMMENT, false) else s;
    var w := Write(v, c, EscapeLt(t), false);
    WriteGoes(v, c, EscapeLt(t), false);
    GoesOn(v, s, c, w);
    Stays(v, w, WriteText(v, s, t));
    GoesOn(v, s, w, WriteText(v, s, t));
  }

  lemma TextGoes(v: Vocabulary, s: Tidy, t: Text)
    ensures Goes(v, s, CharacterData(v, s, t))
  {
    hide Goes, Write, WriteText, Reopen, HasContent;
    var r := if s.pending != [] && !Foreign(s.stack) && HasContent(t) then Reopen(v, s) else s;
    ItselfGoes(v, s);
    ReopenGoes(v, s);
    WriteGoes(v, r, [], true);
    WriteTextGoes(v, r, t);
    GoesOn(v, s, r, CharacterData(v, s, t));
  }

  lemma StepGoes(v: Vocabulary, s: Tidy, token: Token)
    ensures Goes(v, s, Step(v, s, token))
  {
    hide Goes, StartTag, EndTag, CharacterData;
    match token
    case Start(name, attrs, selfClosing) => StartTagGoes(v, s, name, attrs, selfClosing);
    case End(name) => EndTagGoes(v, s, name);
    case Characters(text) => TextGoes(v, s, text);
  }

  lemma {:induction false} StepsGo(v: Vocabulary, s: Tidy, tokens: seq<Token>)
    ensures Goes(v, s, Steps(v, s, tokens))
    decreases |tokens|
  {
    hide Goes, Step;
    if tokens == [] {
      ItselfGoes(v, s);
    } else {
      var t := Step(v, s, tokens[0]);
      StepGoes(v, s, tokens[0]);
      StepsGo(v, t, tokens[1..]);
      GoesOn(v, s, t, Steps(v, t, tokens[1..]));
      assert Steps(v, s, tokens) == Steps(v, t, tokens[1..]);
    }
  }

  lemma {:induction false} StepsThenSteps(v: Vocabulary, s: Tidy, tokens: seq<Token>, k: nat)
    requires k <= |tokens|
    ensures Steps(v, s, tokens) == Steps(v, Steps(v, s, tokens[..k]), tokens[k..])
    decreases k
  {
    hide Step;
    if k > 0 {
      StepsThenSteps(v, Step(v, s, tokens[0]), tokens[1..], k - 1);
      assert tokens[..k][1..] == tokens[1..][..k - 1] && tokens[1..][k - 1..] == tokens[k..];
    } else {
      assert tokens[..0] == [] && tokens[0..] == tokens;
    }
  }

  /** Where tidyHtml throws it throws whatever comes after: a text has an answer only if every part of
      it that begins it has one. Then the answer is within the limit of its length, and so was the
      nesting at every token. */
  lemma AnswersAreWithinLimits(v: Vocabulary, tokens: seq<Token>, k: nat)
    requires k <= |tokens| && Answer(v, tokens).Some?
    ensures Answer(v, tokens[..k]).Some?
    ensures |Answer(v, tokens).value| <= v.maxOut && |Answer(v, tokens[..k]).value| <= |Answer(v, tokens).value|
    ensures |Steps(v, START, tokens[..k]).stack| <= v.maxNest
  {
    hide Step;
    var s := Steps(v, START, tokens[..k]);
    assert Within(v, START);
    StepsThenSteps(v, START, tokens, k);
    StepsGo(v, START, tokens[..k]);
    StepsGo(v, s, tokens[k..]);
  }

  /** With the name sets of HTML, at every token: no block is open, nor has been opened, inside of a paragraph
      that is in scope, and no button inside of a button; and only formatting elements wait to be reopened. */
  lemma NothingStandsWhereItMayNot(v: Vocabulary, tokens: seq<Token>, k: nat)
    requires IsHtml(v) && k < |Steps(v, START, tokens).stack|
    ensures var stack := Steps(v, START, tokens).stack;
      stack[k].ns == Html ==>
        && (stack[k].name in v.closesP ==> !InScope(stack[..k], LastAt(stack[..k], Html, P), ButtonScope))
        && (stack[k].name == BUTTON ==> !InScope(stack[..k], LastAt(stack[..k], Html, BUTTON), Scope))
    ensures forall e :: e in Steps(v, START, tokens).pending ==> e.name in v.formatting
  {
    hide Steps, IsMade, IsHtml;
    assert Within(v, START);
    StepsGo(v, START, tokens);
    var s := Steps(v, START, tokens);
    assert MayStand(v, s.stack[..k], s.stack[k]);
  }

  /** What tidyHtml answers, read by its characters alone, is well nested up to what it leaves open, and says
      between its tags just what is shown of the texts. */
  lemma AnswersAreWellNested(v: Vocabulary, tokens: seq<Token>)
    requires Answer(v, tokens).Some?
    ensures Read(BEGIN, Answer(v, tokens).value)
         == Reading(InText, ShownNames(Steps(v, START, tokens).stack), AllTextShown(v, START, tokens))
    ensures forall k :: 0 <= k <= |Answer(v, tokens).value| ==>
      var r := Read(BEGIN, Answer(v, tokens).value[..k]);
      r.Reading? && |r.open| <= DEEPEST
  {
    hide Steps, Read, Joined, AllTextShown;
    WritesWellNested(v, tokens);
    var t := Answer(v, tokens).value;
    forall k | 0 <= k <= |t| ensures Read(BEGIN, t[..k]).Reading? && |Read(BEGIN, t[..k]).open| <= DEEPEST {
      PrefixIsWellNested(t, k);
    }
  }
}
