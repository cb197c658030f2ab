/** What a tag does to the elements that are open,
    and what is shown of them. */
module TidyTags {
  import opened Basics
  import opened CodeUnits
  import opened TidyReader
  import opened TidyMachine
  import opened TidyProofs

  /** The start tags that are ignored: of what only the page has, and of a form inside of a form, but in a template. */
  predicate IsIgnored(v: Vocabulary, s: Tidy, name: Text) {
    name in v.ignored || name == Units("keygen") ||
    (name == Units("form") && s.formOpen && LastAt(s.stack, Html, Units("template")) < 0)
  }

  lemma IgnoredDoesNothing(v: Vocabulary, s: Tidy, name: Text, attrs: Attributes, selfClosing: bool)
    requires !Foreign(s.stack) && IsIgnored(v, s, name)
    ensures StartTag(v, s, name, attrs, selfClosing) == s
  {}

  /** Any other start tag opens an element of its name, with the attributes that are kept, on top of what it
      leaves open; a void one is written and not opened. */
  lemma AStartTagOpens(v: Vocabulary, s: Tidy, name: Text, attrs: Attributes, selfClosing: bool)
    requires !Foreign(s.stack) && !IsIgnored(v, s, name) && name !in v.tablePart && name !in v.void
    requires name != Units("svg") && name != Units("math")
    ensures var stack := StartTag(v, s, name, attrs, selfClosing).stack;
      stack != [] && IsOpened(v, Top(stack), name, Html, attrs)
  {
    hide CloseBefore, Reopen, KindOf, DropAt, AttrText, Write;
  }

  predicate IsOpened(v: Vocabulary, e: Element, name: Text, ns: Namespace, attrs: Attributes) {
    e.name == name && e.ns == ns && e.text == AttrText(v, attrs, name, ns) && !e.zombie
  }

  /** In SVG and MathML a start tag opens an element of the same namespace, unless it is one that breaks out, or
      closes itself. */
  lemma AForeignTagOpens(v: Vocabulary, s: Tidy, name: Text, attrs: Attributes)
    requires Foreign(s.stack) && name !in v.breakout && !(name == Units("font") && HasFontAttribute(attrs))
    requires Top(s.stack).name != Units("annotation-xml")
    ensures var t := StartTag(v, s, name, attrs, false);
      t.stack != [] && t.stack[..|t.stack| - 1] == s.stack && IsOpened(v, Top(t.stack), name, Top(s.stack).ns, attrs)
    ensures StartTag(v, s, name, attrs, true).stack == s.stack
  {
    hide KindOf, DropAt, AttrText, Write, HasFontAttribute;
  }

  /** A part of a table is opened in the innermost table, and nowhere else. */
  lemma APartOfATableOpens(v: Vocabulary, s: Tidy, name: Text, attrs: Attributes, selfClosing: bool)
    requires !Foreign(s.stack) && !IsIgnored(v, s, name) && name in v.tablePart && name != Units("col")
    ensures var t, i := StartTag(v, s, name, attrs, selfClosing), LastMarked(s.stack, TableScope);
      if i < 0 || s.stack[i].name != Units("table") then t == s
      else
        && t.stack != [] && IsOpened(v, Top(t.stack), name, Html, attrs)
        && |t.stack| <= TableDepth(s.stack, i, name) + 1
  {
    hide PopTo, KindOf, DropAt, AttrText, Write, TableDepth;
  }

  /** The names with an end tag of their own kind. */
  predicate HasOwnEnd(v: Vocabulary, name: Text) {
    name in v.ignored || name == Units("form") || name == Units("p") || name == Units("br") || name == Units("li")
    || IsHeading(name)
  }

  /** An end tag closes the innermost element of its name, and all in it, when that is in scope; when it is not,
      it does nothing. */
  lemma AnEndTagCloses(v: Vocabulary, s: Tidy, name: Text)
    requires (s.stack == [] || Top(s.stack).ns == Html) && !HasOwnEnd(v, name)
    requires name in v.scopedEnd || name in v.tableEnd || name !in v.formatting
    ensures var t, i := EndTag(v, s, name), LastAt(s.stack, Html, name);
      var m := if name in v.scopedEnd then Scope else if name in v.tableEnd then TableScope else Special;
      if i >= 0 && i >= LastMarked(s.stack, m) then |t.stack| <= i && t.stack == s.stack[..|t.stack|] else t == s
  {
    hide PopTo, LastAt, LastMarked, IsHeading;
  }

  /** </p> closes the paragraph in scope; without one it writes an empty one. */
  lemma AParagraphEnds(v: Vocabulary, s: Tidy)
    requires (s.stack == [] || Top(s.stack).ns == Html) && Units("p") !in v.ignored
    ensures var t, i := EndTag(v, s, Units("p")), LastAt(s.stack, Html, Units("p"));
      if i >= 0 && i >= LastMarked(s.stack, ButtonScope) then |t.stack| <= i && t.stack == s.stack[..|t.stack|]
      else t == Leaf(v, s, Units("<p></p>"), KindOf(v, Units("p"), Html, false), Html)
  {
    hide PopTo, LastAt, LastMarked, IsHeading, Leaf, KindOf;
    NamesDiffer();
  }

  lemma NamesDiffer()
    ensures Units("p") != Units("form")
  {
    assert |Units("p")| == 1;
  }

  lemma {:induction false} ZombiesLeavePending(v: Vocabulary, s: Tidy)
    requires forall k :: 0 <= k < |s.stack| && s.stack[k].zombie ==> !s.stack[k].kind.marker
    ensures CloseZombies(v, s).pending == s.pending
    decreases |s.stack|
  {
    hide Write, DropAt;
    if s.stack != [] && Top(s.stack).zombie {
      var t := Close(v, s);
      assert t.stack == s.stack[..|s.stack| - 1];
      ZombiesLeavePending(v, t);
    }
  }

  /** The end tag of a formatting element, misnested or not: it is closed, and the formatting elements that it
      closes with it wait to be opened again, outermost first, before those that wait already. */
  lemma AFormattingEndReopens(v: Vocabulary, s: Tidy, name: Text)
    requires s.stack != [] && Top(s.stack).ns == Html && !HasOwnEnd(v, name)
    requires name in v.formatting && name !in v.scopedEnd && name !in v.tableEnd
    requires var i := LastAt(s.stack, Html, name);
      && i >= 0 && !s.stack[i].zombie && !s.stack[i].kind.marker
      && LastMarked(s.stack, Marker) < i && LastMarked(s.stack, Scope) <= i && LastMarked(s.stack, Special) <= i
      && (forall k :: i < k < |s.stack| ==> !s.stack[k].kind.marker)
    requires forall k :: 0 <= k < |s.stack| && s.stack[k].zombie ==> !s.stack[k].kind.marker
    ensures var t, i := EndTag(v, s, name), LastAt(s.stack, Html, name);
      |t.stack| <= i && t.pending == Reopenable(s.stack[i + 1..]) + s.pending
  {
    hide EndTag, CloseDown, CloseZombies, Reopenable, Reversed, LastAt, LastMarked, HasOwnEnd;
    var i := LastAt(s.stack, Html, name);
    EndIsPopTo(v, s, name);
    CloseDownKeepsFormatting(v, s, i, []);
    var (t, kept) := CloseDown(v, s, i, []);
    assert Reversed([]) == [] by { NoneReversed(); }
    assert Reopenable(s.stack[i + 1..]) + [] == Reopenable(s.stack[i + 1..]);
    if kept == [] {
      assert [] + s.pending == s.pending;
    }
    ZombiesLeavePending(v, if kept == [] then t else t.(pending := Reversed(kept) + t.pending));
  }

  lemma NoneReversed()
    ensures Reversed([]) == []
  {}

  /** The other end tags of formatting elements. Of one out of scope: nothing. Of one with a special element in
      it: it stays open, marked as a zombie, and nothing else changes. Of one that waits to be reopened: the last
      of that name waits no more. */
  lemma AFormattingEndAcross(v: Vocabulary, s: Tidy, name: Text)
    requires s.stack != [] && Top(s.stack).ns == Html && !HasOwnEnd(v, name)
    requires name in v.formatting && name !in v.scopedEnd && name !in v.tableEnd
    ensures var t, i := EndTag(v, s, name), LastAt(s.stack, Html, name);
      if i > LastMarked(s.stack, Marker) && !s.stack[i].zombie then
        && (i < LastMarked(s.stack, Scope) ==> t == s)
        && (LastMarked(s.stack, Scope) <= i < LastMarked(s.stack, Special) ==>
              t == s.(stack := t.stack) && |t.stack| == |s.stack| && t.stack[i] == s.stack[i].(zombie := true) &&
              forall k :: 0 <= k < |s.stack| && k != i ==> t.stack[k] == s.stack[k])
      else
        (exists e :: e in s.pending && e.name == name) ==>
          && t.stack == s.stack && t.out == s.out
          && exists k :: 0 <= k < |s.pending| && s.pending[k].name == name &&
                         (forall j :: k < j < |s.pending| ==> s.pending[j].name != name) &&
                         t.pending == s.pending[..k] + s.pending[k + 1..]
  {
    ItEndsFormatting(v, s, name);
    hide EndTag, EndFormatting, HasOwnEnd, PopTo, LastAt, LastMarked;
    var i := LastAt(s.stack, Html, name);
    if i > LastMarked(s.stack, Marker) && !s.stack[i].zombie {
      AnOpenOneEnds(v, s, name);
    } else if e :| e in s.pending && e.name == name {
      AWaitingOneEnds(v, s, name, e);
    }
  }

  lemma AnOpenOneEnds(v: Vocabulary, s: Tidy, name: Text)
    requires var i := LastAt(s.stack, Html, name); i > LastMarked(s.stack, Marker) && !s.stack[i].zombie
    ensures var t, i := EndFormatting(v, s, name), LastAt(s.stack, Html, name);
      && (i < LastMarked(s.stack, Scope) ==> t == s)
      && (LastMarked(s.stack, Scope) <= i < LastMarked(s.stack, Special) ==>
            t == s.(stack := t.stack) && |t.stack| == |s.stack| && t.stack[i] == s.stack[i].(zombie := true) &&
            forall k :: 0 <= k < |s.stack| && k != i ==> t.stack[k] == s.stack[k])
  {
    hide PopTo, LastAt, LastMarked;
  }

  lemma AWaitingOneEnds(v: Vocabulary, s: Tidy, name: Text, e: Element)
    requires var i := LastAt(s.stack, Html, name); i <= LastMarked(s.stack, Marker) || s.stack[i].zombie
    requires e in s.pending && e.name == name
    ensures var t := EndFormatting(v, s, name);
      && t.stack == s.stack && t.out == s.out
      && exists k :: 0 <= k < |s.pending| && s.pending[k].name == name &&
                     (forall j :: k < j < |s.pending| ==> s.pending[j].name != name) &&
                     t.pending == s.pending[..k] + s.pending[k + 1..]
  {
    hide PopTo, LastAt, LastMarked, LastPending, AnyOtherEnd;
    LastPendingIsLast(s.pending, name);
    var k := LastPending(s.pending, name);
    assert DropPending(s, name).pending == s.pending[..k] + s.pending[k + 1..];
  }

  lemma ItEndsFormatting(v: Vocabulary, s: Tidy, name: Text)
    requires s.stack != [] && Top(s.stack).ns == Html && !HasOwnEnd(v, name)
    requires name in v.formatting && name !in v.scopedEnd && name !in v.tableEnd
    ensures EndTag(v, s, name) == EndFormatting(v, s, name)
  {
    hide EndFormatting, LastAt, LastMarked, IsHeading, Units;
  }

  lemma {:induction false} LastPendingIsLast(pending: seq<Element>, name: Text)
    ensures var k := LastPending(pending, name);
      if k < 0 then forall e :: e in pending ==> e.name != name
      else pending[k].name == name && forall j :: k < j < |pending| ==> pending[j].name != name
  {
    if pending != [] {
      var n := |pending| - 1;
      LastPendingIsLast(pending[..n], name);
      assert pending == pending[..n] + [pending[n]];
    }
  }

  lemma EndIsPopTo(v: Vocabulary, s: Tidy, name: Text)
    requires s.stack != [] && Top(s.stack).ns == Html && !HasOwnEnd(v, name)
    requires name in v.formatting && name !in v.scopedEnd && name !in v.tableEnd
    requires var i := LastAt(s.stack, Html, name);
      && i >= 0 && !s.stack[i].zombie
      && LastMarked(s.stack, Marker) < i && LastMarked(s.stack, Scope) <= i && LastMarked(s.stack, Special) <= i
    ensures EndTag(v, s, name) == PopTo(v, s, LastAt(s.stack, Html, name))
  {
    ItEndsFormatting(v, s, name);
    hide PopTo, LastAt, LastMarked, EndTag;
  }

  /** A form that is opened outside of templates keeps others from opening, until its end tag. */
  lemma AFormIsOpen(v: Vocabulary, s: Tidy, attrs: Attributes, selfClosing: bool)
    requires !Foreign(s.stack) && !IsIgnored(v, s, Units("form")) && LastAt(s.stack, Html, Units("template")) < 0
    requires Units("form") !in v.tablePart && Units("form") !in v.void
    ensures StartTag(v, s, Units("form"), attrs, selfClosing).formOpen
  {
    assert |Units("form")| == 4 && |Units("svg")| == 3 && Units("math")[0] == 0x6D && Units("form")[0] == 0x66;
    hide CloseBefore, Reopen, Open, Leaf, Entry, KindOf, AttrText, OpenOrLeaf, Units;
  }

  /** What bounds the scope bounds the narrower scopes too, and each of these has its own bounds. */
  lemma ScopesAreNested(v: Vocabulary, name: Text, ns: Namespace, point: bool)
    ensures var m := KindOf(v, name, ns, point).marks;
      ButtonScope in m <==> Scope in m || (ns == Html && name == Units("button"))
  {
    hide Units, IsHeading, IsAddressDivP, IsPlain;
  }

  lemma ListsHaveTheirScope(v: Vocabulary, name: Text, ns: Namespace, point: bool)
    ensures var m := KindOf(v, name, ns, point).marks;
      ListScope in m <==> Scope in m || (ns == Html && (name == Units("ol") || name == Units("ul")))
  {
    assert |Units("button")| == 6 && |Units("ol")| == 2 && |Units("ul")| == 2;
    hide Units, IsHeading, IsAddressDivP, IsPlain;
  }

  lemma OthersHaveTheirBounds(v: Vocabulary, name: Text, ns: Namespace, point: bool)
    ensures var m, h := KindOf(v, name, ns, point).marks, ns == Html;
      && (TableScope in m <==> h && (name == Units("table") || name == Units("template")))
      && (NotAddressDivP in m <==> Special in m && !(h && IsAddressDivP(name)))
      && (Special in m && !h ==> Scope in m)
  {
    hide Units, IsHeading, IsAddressDivP, IsPlain;
  }

  lemma PlacesAreMarked(v: Vocabulary, name: Text, ns: Namespace, point: bool)
    ensures var m, h := KindOf(v, name, ns, point).marks, ns == Html;
      && (InHtml in m <==> h) && (h || point ==> HtmlPoint in m) && (HtmlPoint in m && !h ==> Scope in m || point)
      && (Marker in m <==> KindOf(v, name, ns, point).marker) && (Heading in m <==> h && IsHeading(name))
  {
    hide Units, IsHeading, IsAddressDivP, IsPlain;
  }

  /** An element that is shown has its own name, or, where only its content stays, one that does nothing. */
  lemma NamesAreWritten(v: Vocabulary, name: Text, ns: Namespace, point: bool)
    ensures var out := KindOf(v, name, ns, point).out;
      if ns == Html && name == Units("bdi") then out == Units("span")
      else out == name || (ns == Html && name !in v.htmlOk && name !in v.role && out == Units("nb-w"))
    ensures name in v.htmlOk && name != Units("bdi") ==> KindOf(v, name, ns, point).out == name
  {
    hide Units, IsHeading, IsAddressDivP;
  }

  /** An element of HTML straight inside of one of SVG is not shown, nor what is in it. */
  lemma HtmlInSvgIsHidden(v: Vocabulary, s: Tidy, e: Element, str: Text)
    requires s.stack != [] && Top(s.stack).ns == Svg && e.ns == Html
    ensures Open(v, s, e).out == s.out && Hidden(Open(v, s, e).stack) && Leaf(v, s, str, e.kind, Html).out == s.out
  {
    var n, stack := |s.stack|, s.stack + [Opened(s.pending, e)];
    assert stack[..n] == s.stack;
    assert DropAt(stack) >= 0;
  }

  /** A text ends as a character reference may begin: with a & and nothing behind it but letters, digits and #. */
  lemma {:induction false} WhatMayBecomeAReference(t: Text)
    ensures EndsAsReference(t) <==>
      exists k :: 0 <= k < |t| && t[k] == AMPERSAND && forall j :: k < j < |t| ==> IsReferenceChar(t[j])
  {
    hide IsReferenceChar;
    if t != [] {
      var n := |t| - 1;
      WhatMayBecomeAReference(t[..n]);
      if t[n] != AMPERSAND && EndsAsReference(t) {
        var k :| 0 <= k < n && t[k] == AMPERSAND && forall j :: k < j < n ==> IsReferenceChar(t[..n][j]);
        assert forall j :: k < j < |t| ==> IsReferenceChar(t[j]);
      }
    }
  }

  /** A text that is shown behind one that could become a reference with it stands apart from it. */
  lemma TextsStandApart(v: Vocabulary, s: Tidy, t: Text)
    requires !Hidden(s.stack) && s.pending == []
    ensures CharacterData(v, s, t).out == s.out + (if s.refTail then [COMMENT] else []) + [EscapeLt(t)]
    ensures |t| <= 48 ==> (CharacterData(v, s, t).refTail <==> EndsAsReference(t))
  {
    hide DropAt, EscapeLt, EndsAsReference;
  }
}
