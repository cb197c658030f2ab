/** What may not be inside of what: no paragraph around a block, no button around a button. A parser of HTML
    would close the outer one first, and read another nesting than the one written. */
module TidyRules {
  import opened Basics
  import opened CodeUnits
  import opened TidyReader
  import opened TidyMachine

  const P: Text := Units("p")
  const BUTTON: Text := Units("button")

  predicate IsInlineRule(name: Text) {
    || name == Units("a") || name == Units("nobr") || name == Units("option") || name == Units("optgroup")
    || IsRubyPart(name) || name == BUTTON
  }

  /** What the name sets of HTML have in common, as far as the rules need it. */
  ghost predicate IsHtml(v: Vocabulary) {
    && P in v.closesP && Units("table") in v.closesP
    && (forall n :: IsHeading(n) ==> n in v.closesP)
    && (forall n :: IsInlineRule(n) ==> n !in v.closesP)
    && (forall n :: n in v.formatting ==> n !in v.closesP && n !in v.scope && n != BUTTON)
    && (forall n :: n in v.tablePart ==> n !in v.closesP && n != BUTTON)
    && Units("a") in v.formatting && Units("nobr") in v.formatting
  }

  /** No element of this name is within this scope. */
  predicate IsClear(stack: seq<Element>, name: Text, m: Mark) { !InScope(stack, LastAt(stack, Html, name), m) }

  /** An element may be opened here. */
  predicate MayStand(v: Vocabulary, stack: seq<Element>, e: Element) {
    e.ns == Html ==>
      && (e.name in v.closesP ==> IsClear(stack, P, ButtonScope))
      && (e.name == BUTTON ==> IsClear(stack, BUTTON, Scope))
  }

  ghost predicate AreInline(v: Vocabulary, list: seq<Element>) { forall e :: e in list ==> e.name in v.formatting }

  /** What an element is made of agrees. */
  ghost predicate IsMade(v: Vocabulary, e: Element) {
    && (e.kind.formatting <==> e.ns == Html && e.name in v.formatting)
    && (e.kind.formatting ==> ButtonScope !in e.kind.marks && Scope !in e.kind.marks)
    && (TableScope in e.kind.marks ==> e.ns == Html)
    && (e.zombie ==> e.kind.formatting) && AreInline(v, e.saved)
  }

  ghost predicate IsWellMade(v: Vocabulary, stack: seq<Element>) {
    forall k :: 0 <= k < |stack| ==> IsMade(v, stack[k]) && MayStand(v, stack[..k], stack[k])
  }

  /** The rules hold of what is open, and only formatting elements wait to be opened again. */
  ghost predicate Rules(v: Vocabulary, s: Tidy) {
    IsHtml(v) ==> IsWellMade(v, s.stack) && AreInline(v, s.pending)
  }

  // ---- pushing and popping

  lemma PrefixIsWellMade(v: Vocabulary, stack: seq<Element>, n: nat)
    requires n <= |stack| && IsWellMade(v, stack)
    ensures IsWellMade(v, stack[..n])
  {
    hide IsMade, MayStand;
    assert forall k :: 0 <= k < n ==> stack[..n][..k] == stack[..k];
  }

  lemma PushIsWellMade(v: Vocabulary, stack: seq<Element>, e: Element)
    requires IsWellMade(v, stack) && IsMade(v, e) && MayStand(v, stack, e)
    ensures IsWellMade(v, stack + [e])
  {
    hide IsMade, MayStand;
    var more := stack + [e];
    assert more[..|stack|] == stack;
    assert forall k :: 0 <= k < |stack| ==> more[..k] == stack[..k] && more[k] == stack[k];
  }

  lemma {:induction false} NameStays(stack: seq<Element>, i: nat, ns: Namespace, name: Text)
    requires i < |stack|
    ensures LastAt(stack[i := stack[i].(zombie := true)], ns, name) == LastAt(stack, ns, name)
  {
    var n := |stack| - 1;
    var other := stack[i := stack[i].(zombie := true)];
    assert other[n].ns == stack[n].ns && other[n].name == stack[n].name;
    if i < n {
      NameStays(stack[..n], i, ns, name);
      assert other[..n] == stack[..n][i := stack[i].(zombie := true)];
    } else {
      assert other[..n] == stack[..n];
    }
  }

  lemma {:induction false} MarkStays(stack: seq<Element>, i: nat, m: Mark)
    requires i < |stack|
    ensures LastMarked(stack[i := stack[i].(zombie := true)], m) == LastMarked(stack, m)
  {
    var n := |stack| - 1;
    var other := stack[i := stack[i].(zombie := true)];
    assert other[n].kind == stack[n].kind;
    if i < n {
      MarkStays(stack[..n], i, m);
      assert other[..n] == stack[..n][i := stack[i].(zombie := true)];
    } else {
      assert other[..n] == stack[..n];
    }
  }

  /** A formatting element marked as a zombie breaks no rule. */
  lemma ZombieIsWellMade(v: Vocabulary, stack: seq<Element>, i: nat)
    requires i < |stack| && IsWellMade(v, stack) && stack[i].ns == Html && stack[i].name in v.formatting
    ensures IsWellMade(v, stack[i := stack[i].(zombie := true)])
  {
    var other := stack[i := stack[i].(zombie := true)];
    forall k | 0 <= k < |other| ensures IsMade(v, other[k]) && MayStand(v, other[..k], other[k]) {
      assert IsMade(v, stack[k]) && MayStand(v, stack[..k], stack[k]);
      if i < k {
        assert other[..k] == stack[..k][i := stack[i].(zombie := true)];
        NameStays(stack[..k], i, Html, P);
        NameStays(stack[..k], i, Html, BUTTON);
        MarkStays(stack[..k], i, ButtonScope);
        MarkStays(stack[..k], i, Scope);
      } else {
        assert other[..k] == stack[..k];
      }
    }
  }

  /** Closing zombies brings nothing into scope. */
  lemma {:induction false} ClearBelowZombies(v: Vocabulary, stack: seq<Element>, j: nat, name: Text, m: Mark)
    requires j <= |stack| && IsClear(stack, name, m) && (m == ButtonScope || m == Scope) && name !in v.formatting
    requires forall k :: j <= k < |stack| ==> IsMade(v, stack[k]) && stack[k].kind.formatting
    ensures IsClear(stack[..j], name, m)
    decreases |stack|
  {
    if j < |stack| {
      var n := |stack| - 1;
      assert IsMade(v, stack[n]);
      ClearBelowZombies(v, stack[..n], j, name, m);
      assert stack[..n][..j] == stack[..j];
    } else {
      assert stack[..j] == stack;
    }
  }

  /** What is popped below i are zombies. */
  lemma {:induction false} ZombiesArePopped(v: Vocabulary, s: Tidy, k: nat)
    requires |CloseZombies(v, s).stack| <= k < |s.stack|
    ensures s.stack[k].zombie
    decreases |s.stack|
  {
    hide Close;
    if k < |s.stack| - 1 {
      ZombiesArePopped(v, Close(v, s), k);
    }
  }

  lemma PopToZombies(v: Vocabulary, s: Tidy, i: nat, k: nat)
    requires i <= |s.stack| && |PopTo(v, s, i).stack| <= k < i
    ensures s.stack[k].zombie
  {
    hide Reversed;
    var (t, kept) := CloseDown(v, s, i, []);
    ZombiesArePopped(v, if kept == [] then t else t.(pending := Reversed(kept) + t.pending), k);
  }

  /** Closing an element, and what is above it, leaves the stack clear where the element could stand. */
  lemma PopToIsClear(v: Vocabulary, s: Tidy, i: nat, name: Text, m: Mark)
    requires IsHtml(v) && IsWellMade(v, s.stack) && i < |s.stack| && IsClear(s.stack[..i], name, m)
    requires (m == ButtonScope || m == Scope) && name !in v.formatting
    ensures IsClear(PopTo(v, s, i).stack, name, m)
  {
    var t := PopTo(v, s, i);
    forall k | |t.stack| <= k < i ensures IsMade(v, s.stack[..i][k]) && s.stack[..i][k].kind.formatting {
      PopToZombies(v, s, i, k);
    }
    ClearBelowZombies(v, s.stack[..i], |t.stack|, name, m);
    assert s.stack[..i][..|t.stack|] == t.stack;
  }

  // ---- what a start tag closes before it

  lemma ScopeIsLeft(v: Vocabulary, s: Tidy, name: Text, m: Mark)
    requires IsHtml(v) && IsWellMade(v, s.stack) && ((name == P && m == ButtonScope) || (name == BUTTON && m == Scope))
    ensures IsClear(PopIfInScope(v, s, LastAt(s.stack, Html, name), m).stack, name, m)
  {
    hide PopTo;
    var i := LastAt(s.stack, Html, name);
    if InScope(s.stack, i, m) {
      LastIsThere(s.stack, name);
      assert MayStand(v, s.stack[..i], s.stack[i]);
      PopToIsClear(v, s, i, name, m);
    }
  }

  lemma {:induction false} LastIsThere(stack: seq<Element>, name: Text)
    ensures var i := LastAt(stack, Html, name); i >= 0 ==> stack[i].ns == Html && stack[i].name == name
  {
    if stack != [] {
      LastIsThere(stack[..|stack| - 1], name);
    }
  }

  lemma {:induction false} LastMarkIsThere(stack: seq<Element>, m: Mark)
    ensures var i := LastMarked(stack, m); i >= 0 ==> m in stack[i].kind.marks
  {
    if stack != [] {
      LastMarkIsThere(stack[..|stack| - 1], m);
    }
  }

  lemma ItemsLeaveNoParagraph(v: Vocabulary, s: Tidy, name: Text)
    requires IsHtml(v) && IsWellMade(v, s.stack) && name in v.closesP
    ensures IsWellMade(v, CloseItems(v, s, name).stack) && IsClear(CloseItems(v, s, name).stack, P, ButtonScope)
  {
    hide PopTo, IsWellMade, IsClear, InScope;
    var t := if name == Units("li") then PopIfInScope(v, s, LastAt(s.stack, Html, Units("li")), NotAddressDivP)
             else if name == Units("dd") || name == Units("dt") then
               PopIfInScope(v, s, Max(LastAt(s.stack, Html, Units("dd")), LastAt(s.stack, Html, Units("dt"))),
                            NotAddressDivP)
             else s;
    assert t.stack == s.stack[..|t.stack|];
    PrefixIsWellMade(v, s.stack, |t.stack|);
    ScopeIsLeft(v, t, P, ButtonScope);
    var u := PopIfInScope(v, t, LastAt(t.stack, Html, P), ButtonScope);
    assert u.stack == t.stack[..|u.stack|];
    PrefixIsWellMade(v, t.stack, |u.stack|);
  }

  lemma HeadingLeavesNoParagraph(v: Vocabulary, s: Tidy, name: Text)
    requires IsHtml(v) && IsWellMade(v, s.stack) && IsClear(s.stack, P, ButtonScope)
    ensures IsWellMade(v, CloseHeading(v, s, name).stack) && IsClear(CloseHeading(v, s, name).stack, P, ButtonScope)
  {
    hide PopTo, IsClear, IsHeading, IsMade;
    var t, n := CloseHeading(v, s, name), |s.stack| - 1;
    assert t.stack == s.stack[..|t.stack|];
    PrefixIsWellMade(v, s.stack, |t.stack|);
    if IsHeading(name) && s.stack != [] && Top(s.stack).ns == Html && IsHeading(Top(s.stack).name) {
      assert MayStand(v, s.stack[..n], s.stack[n]);
      PopToIsClear(v, s, n, P, ButtonScope);
    }
  }

  lemma TableLeavesNoParagraph(v: Vocabulary, s: Tidy)
    requires IsHtml(v) && IsWellMade(v, s.stack) && IsClear(s.stack, P, ButtonScope)
    ensures IsWellMade(v, CloseTable(v, s).stack) && IsClear(CloseTable(v, s).stack, P, ButtonScope)
  {
    hide PopTo, IsClear;
    var t, i := CloseTable(v, s), LastMarked(s.stack, TableScope);
    assert t.stack == s.stack[..|t.stack|];
    PrefixIsWellMade(v, s.stack, |t.stack|);
    if i >= 0 && s.stack[i].name == Units("table") {
      LastMarkIsThere(s.stack, TableScope);
      assert IsMade(v, s.stack[i]) && MayStand(v, s.stack[..i], s.stack[i]);
      PopToIsClear(v, s, i, P, ButtonScope);
    }
  }

  /** Before a block: no paragraph is in its way. */
  lemma BlocksLeaveNoParagraph(v: Vocabulary, s: Tidy, name: Text)
    requires IsHtml(v) && IsWellMade(v, s.stack) && name in v.closesP
    ensures IsClear(CloseBefore(v, s, name).stack, P, ButtonScope)
  {
    hide CloseItems, CloseHeading, CloseTable, IsClear, IsWellMade, IsRubyPart;
    assert !IsInlineRule(name);
    ItemsLeaveNoParagraph(v, s, name);
    var t := CloseItems(v, s, name);
    HeadingLeavesNoParagraph(v, t, name);
    TableLeavesNoParagraph(v, CloseHeading(v, t, name));
  }

  /** Before a button: no button is in its way. */
  lemma BlocksLeaveNoButton(v: Vocabulary, s: Tidy)
    requires IsHtml(v) && IsWellMade(v, s.stack)
    ensures IsClear(CloseBefore(v, s, BUTTON).stack, BUTTON, Scope)
  {
    hide CloseItems, CloseHeading, CloseTable, IsClear, IsWellMade, PopIfInScope;
    ButtonIsNoOther();
    var t := CloseHeading(v, CloseItems(v, s, BUTTON), BUTTON);
    PoppedOnly(v, s, BUTTON);
    PrefixIsWellMade(v, s.stack, |t.stack|);
    ScopeIsLeft(v, t, BUTTON, Scope);
  }

  lemma ButtonIsNoOther()
    ensures var b := BUTTON;
      && b != Units("table") && b != Units("a") && b != Units("nobr") && b != Units("option") && b != Units("optgroup")
      && !IsRubyPart(b)
  {
    assert BUTTON[0] == 0x62;
    assert Units("table")[0] == 0x74 && Units("a")[0] == 0x61 && Units("nobr")[0] == 0x6E;
    assert Units("option")[0] == 0x6F && Units("optgroup")[0] == 0x6F;
  }

  lemma PoppedOnly(v: Vocabulary, s: Tidy, name: Text)
    ensures var t := CloseHeading(v, CloseItems(v, s, name), name);
      |t.stack| <= |s.stack| && t.stack == s.stack[..|t.stack|]
  {
    hide PopTo, InScope, IsHeading;
    var t := CloseItems(v, s, name);
    assert t.stack == s.stack[..|t.stack|];
    var u := CloseHeading(v, t, name);
    assert u.stack == t.stack[..|u.stack|];
  }

  // ---- elements as they are made

  lemma EntryIsMade(v: Vocabulary, name: Text, ns: Namespace, text: AttributesText, attrs: Attributes)
    requires IsHtml(v)
    ensures IsMade(v, Entry(v, name, ns, text, attrs))
  {}

  lemma OpenedIsMade(v: Vocabulary, pending: seq<Element>, e: Element)
    requires IsMade(v, e) && AreInline(v, pending)
    ensures IsMade(v, Opened(pending, e))
  {}

  /** Formatting elements, parts of tables and elements of other namespaces may stand anywhere. */
  lemma OthersMayStand(v: Vocabulary, stack: seq<Element>, e: Element)
    requires IsHtml(v) && (e.ns != Html || e.name in v.formatting || e.name in v.tablePart)
    ensures MayStand(v, stack, e)
  {}

  /** A formatting element on top brings nothing into scope. */
  lemma ClearUnderInline(v: Vocabulary, stack: seq<Element>, e: Element, name: Text, m: Mark)
    requires IsClear(stack, name, m) && e.name != name
    ensures IsClear(stack + [e], name, m)
  {
    assert (stack + [e])[..|stack|] == stack;
  }
}
