/** What a tag closes before it does anything else,
    and where the parts of a table stand. */
module TidyCloses {
  import opened Basics
  import opened CodeUnits
  import opened TidyReader
  import opened TidyMachine

  // ---- what is below stays

  lemma {:induction false} NameBelow(stack: seq<Element>, j: nat, ns: Namespace, name: Text)
    requires LastAt(stack, ns, name) < j <= |stack|
    ensures LastAt(stack[..j], ns, name) == LastAt(stack, ns, name)
  {
    var n := |stack| - 1;
    if j == |stack| {
      assert stack[..j] == stack;
    } else {
      NameBelow(stack[..n], j, ns, name);
      assert stack[..n][..j] == stack[..j];
    }
  }

  lemma {:induction false} MarkBelow(stack: seq<Element>, j: nat, m: Mark)
    requires j <= |stack|
    ensures LastMarked(stack[..j], m) <= LastMarked(stack, m)
    ensures LastMarked(stack, m) < j ==> LastMarked(stack[..j], m) == LastMarked(stack, m)
  {
    var n := |stack| - 1;
    if j == |stack| {
      assert stack[..j] == stack;
    } else {
      MarkBelow(stack[..n], j, m);
      assert stack[..n][..j] == stack[..j];
    }
  }

  /** Closing down to an element that is open leaves all below it, but zombies on top. */
  lemma PopToLeaves(v: Vocabulary, s: Tidy, i: nat)
    requires i <= |s.stack| && (i > 0 ==> !s.stack[i - 1].zombie)
    ensures PopTo(v, s, i).stack == s.stack[..i]
  {
    hide Close, Reversed;
  }

  // ---- start tags

  predicate IsTop(stack: seq<Element>, i: int, name: Text) {
    0 <= i == |stack| - 1 && stack[i].ns == Html && stack[i].name == name
  }

  /** No cell and no caption stands above the innermost table, at i. */
  predicate IsBareTable(stack: seq<Element>, i: int) {
    && 0 <= i == LastMarked(stack, TableScope) && stack[i].name == Units("table")
    && LastAt(stack, Html, Units("td")) < i && LastAt(stack, Html, Units("th")) < i
    && LastAt(stack, Html, Units("caption")) < i
  }

  datatype Rule = ForItem | ForBlock | ForHeading | ForTable | ForButton | ForOption

  /** By this rule a start tag of this name closes the element at i. */
  predicate Ends(v: Vocabulary, stack: seq<Element>, name: Text, rule: Rule, i: int) {
    match rule
    case ForItem =>
      if name == Units("li") then i == LastAt(stack, Html, Units("li")) && InScope(stack, i, NotAddressDivP)
      else
        && (name == Units("dd") || name == Units("dt")) && InScope(stack, i, NotAddressDivP)
        && i == Max(LastAt(stack, Html, Units("dd")), LastAt(stack, Html, Units("dt")))
    case ForBlock => name in v.closesP && i == LastAt(stack, Html, Units("p")) && InScope(stack, i, ButtonScope)
    case ForHeading => IsHeading(name) && 0 <= i == |stack| - 1 && stack[i].ns == Html && IsHeading(stack[i].name)
    case ForTable => name == Units("table") && IsBareTable(stack, i)
    case ForButton =>
      name == Units("button") && i == LastAt(stack, Html, Units("button")) && InScope(stack, i, Scope)
    case ForOption => (name == Units("option") || name == Units("optgroup")) && IsTop(stack, i, Units("option"))
  }

  /** What ends while more than i elements are open ends still when only those above it were closed. */
  lemma EndsBelow(v: Vocabulary, stack: seq<Element>, name: Text, rule: Rule, i: int, j: nat)
    requires i < j <= |stack| && Ends(v, stack, name, rule, i)
    ensures Ends(v, stack[..j], name, rule, i)
  {
    var u := stack[..j];
    forall n | LastAt(stack, Html, n) <= i ensures LastAt(u, Html, n) == LastAt(stack, Html, n) {
      NameBelow(stack, j, Html, n);
    }
    forall m
      ensures LastMarked(u, m) <= LastMarked(stack, m)
      ensures LastMarked(stack, m) < j ==> LastMarked(u, m) == LastMarked(stack, m)
    {
      MarkBelow(stack, j, m);
    }
    hide LastAt, LastMarked, IsHeading, Units;
  }

  function ByRule(v: Vocabulary, s: Tidy, name: Text, rule: Rule): Tidy {
    match rule
    case ForItem =>
      if name == Units("li") then PopIfInScope(v, s, LastAt(s.stack, Html, Units("li")), NotAddressDivP)
      else if name == Units("dd") || name == Units("dt") then
        PopIfInScope(v, s, Max(LastAt(s.stack, Html, Units("dd")), LastAt(s.stack, Html, Units("dt"))), NotAddressDivP)
      else s
    case ForBlock =>
      if name in v.closesP then PopIfInScope(v, s, LastAt(s.stack, Html, Units("p")), ButtonScope) else s
    case ForHeading => CloseHeading(v, s, name)
    case ForTable => if name == Units("table") then CloseTable(v, s) else s
    case ForButton =>
      if name == Units("button") then PopIfInScope(v, s, LastAt(s.stack, Html, Units("button")), Scope) else s
    case ForOption =>
      if (name == Units("option") || name == Units("optgroup")) && s.stack != [] && Top(s.stack).ns == Html &&
         Top(s.stack).name == Units("option")
      then PopTo(v, s, |s.stack| - 1) else s
  }

  /** From s to t all that these rules close is closed, only from the top, and nothing when they close nothing. */
  ghost predicate Closed(v: Vocabulary, s: Tidy, t: Tidy, name: Text, rules: set<Rule>) {
    && |t.stack| <= |s.stack| && t.stack == s.stack[..|t.stack|]
    && (forall rule, i :: rule in rules && Ends(v, s.stack, name, rule, i) ==> |t.stack| <= i)
    && ((forall rule, i :: rule in rules ==> !Ends(v, s.stack, name, rule, i)) ==> t == s)
  }

  lemma RuleCloses(v: Vocabulary, s: Tidy, name: Text, rule: Rule)
    ensures Closed(v, s, ByRule(v, s, name, rule), name, {rule})
  {
    hide PopTo, LastAt, LastMarked, IsHeading, Units;
    var t := ByRule(v, s, name, rule);
    if t != s {
      assert Ends(v, s.stack, name, rule, EndOf(s.stack, name, rule));
    }
  }

  function EndOf(stack: seq<Element>, name: Text, rule: Rule): int {
    match rule
    case ForItem =>
      if name == Units("li") then LastAt(stack, Html, Units("li"))
      else Max(LastAt(stack, Html, Units("dd")), LastAt(stack, Html, Units("dt")))
    case ForBlock => LastAt(stack, Html, Units("p"))
    case ForTable => LastMarked(stack, TableScope)
    case ForButton => LastAt(stack, Html, Units("button"))
    case ForHeading | ForOption => |stack| - 1
  }

  lemma OneMoreRule(v: Vocabulary, s: Tidy, t: Tidy, name: Text, rules: set<Rule>, rule: Rule)
    requires Closed(v, s, t, name, rules)
    ensures Closed(v, s, ByRule(v, t, name, rule), name, rules + {rule})
  {
    hide Ends, ByRule;
    var u := ByRule(v, t, name, rule);
    RuleCloses(v, t, name, rule);
    forall i | Ends(v, s.stack, name, rule, i) ensures |u.stack| <= i {
      if i < |t.stack| {
        EndsBelow(v, s.stack, name, rule, i, |t.stack|);
        assert rule in {rule};
      }
    }
  }

  const RULES: set<Rule> := {ForItem, ForBlock, ForHeading, ForTable, ForButton, ForOption}

  /** Before it opens an element, a start tag closes, from the top only, all that its name ends: an item the item
      before it, a block the paragraph it would stand in, a heading the heading it would stand in, a table the
      table without a cell, a button the button around it, an option the option. When there is nothing of
      these, it closes nothing. */
  lemma AStartTagCloses(v: Vocabulary, s: Tidy, name: Text)
    requires name != Units("a") && name != Units("nobr") && !IsRubyPart(name)
    ensures Closed(v, s, CloseBefore(v, s, name), name, RULES)
  {
    hide Closed, ByRule, PopTo;
    var items := ByRule(v, s, name, ForItem);
    RuleCloses(v, s, name, ForItem);
    var blocks := ByRule(v, items, name, ForBlock);
    OneMoreRule(v, s, items, name, {ForItem}, ForBlock);
    var headings := ByRule(v, blocks, name, ForHeading);
    OneMoreRule(v, s, blocks, name, {ForItem} + {ForBlock}, ForHeading);
    var tables := ByRule(v, headings, name, ForTable);
    OneMoreRule(v, s, headings, name, {ForItem} + {ForBlock} + {ForHeading}, ForTable);
    var buttons := ByRule(v, tables, name, ForButton);
    OneMoreRule(v, s, tables, name, {ForItem} + {ForBlock} + {ForHeading} + {ForTable}, ForButton);
    OneMoreRule(v, s, buttons, name, {ForItem} + {ForBlock} + {ForHeading} + {ForTable} + {ForButton}, ForOption);
    assert {ForItem} + {ForBlock} + {ForHeading} + {ForTable} + {ForButton} + {ForOption} == RULES;
    RulesInOrder(v, s, name);
  }

  lemma RulesInOrder(v: Vocabulary, s: Tidy, name: Text)
    requires name != Units("a") && name != Units("nobr") && !IsRubyPart(name)
    ensures CloseBefore(v, s, name) ==
      ByRule(v, ByRule(v, ByRule(v, ByRule(v, ByRule(v, ByRule(v, s, name, ForItem), name, ForBlock), name, ForHeading),
                              name, ForTable), name, ForButton), name, ForOption)
  {
    hide PopTo, LastAt, InScope, Units, CloseHeading, CloseTable, IsRubyPart;
  }

  /** An <a> first does what </a> would when one is open behind the last marker, and no <a> waits after it; a
      <nobr> reopens what waits, and then does what </nobr> would when one is in scope. */
  lemma AnAnchorEndsTheLast(v: Vocabulary, s: Tidy)
    requires Units("a") in v.formatting && Units("a") !in v.closesP
    requires Units("nobr") in v.formatting && Units("nobr") !in v.closesP
    ensures var a := Units("a");
      CloseBefore(v, s, a) ==
        DropPending(if LastAt(s.stack, Html, a) > LastMarked(s.stack, Marker) then EndFormatting(v, s, a) else s, a)
    ensures var t, nobr := Reopen(v, s), Units("nobr");
      CloseBefore(v, s, nobr) ==
        if InScope(t.stack, LastAt(t.stack, Html, nobr), Scope) then EndFormatting(v, t, nobr) else t
  {
    InlinesAreNoOthers(Units("a"));
    InlinesAreNoOthers(Units("nobr"));
    hide PopTo, LastAt, LastMarked, InScope, EndFormatting, DropPending, Reopen, Units;
  }

  lemma InlinesAreNoOthers(n: Text)
    requires n == Units("a") || n == Units("nobr")
    ensures
      && n != Units("li") && n != Units("dd") && n != Units("dt") && n != Units("table") && n != Units("button")
      && n != Units("option") && n != Units("optgroup") && !IsHeading(n) && !IsRubyPart(n)
    ensures Units("a") != Units("nobr")
  {
    assert |Units("a")| == 1 && Units("nobr")[0] == 0x6E;
    assert Units("button")[0] == 0x62 && Units("rb")[0] == 0x72 && Units("rtc")[0] == 0x72;
  }

  /** A part of a ruby inside of one closes all whose end tag may be left out, and no more. */
  lemma {:induction false} ImpliedEndsAreClosed(v: Vocabulary, s: Tidy, name: Text)
    ensures var t := CloseImplied(v, s, name);
      && |t.stack| <= |s.stack| && t.stack == s.stack[..|t.stack|]
      && (t.stack != [] ==> !IsImplied(v, Top(t.stack), name))
      && (s.stack != [] && !IsImplied(v, Top(s.stack), name) ==> t == s)
    decreases |s.stack|
  {
    hide PopTo, Units;
    if s.stack != [] && IsImplied(v, Top(s.stack), name) {
      var t := PopTo(v, s, |s.stack| - 1);
      ImpliedEndsAreClosed(v, t, name);
      assert s.stack[..|t.stack|][..|CloseImplied(v, t, name).stack|] == s.stack[..|CloseImplied(v, t, name).stack|];
    }
  }

  predicate IsImplied(v: Vocabulary, e: Element, name: Text) {
    && e.ns == Html && e.name in v.impliedEnd
    && !(e.name == Units("rtc") && (name == Units("rp") || name == Units("rt")))
  }

  lemma ARubyPartClosesTheLast(v: Vocabulary, s: Tidy, name: Text)
    requires IsRubyPart(name) && name !in v.closesP && InScope(s.stack, LastAt(s.stack, Html, Units("ruby")), Scope)
    ensures CloseBefore(v, s, name) == CloseImplied(v, s, name)
  {
    RubyPartsAreNoOthers(name);
    hide PopTo, LastAt, LastMarked, InScope, IsRubyPart, CloseImplied, Units;
  }

  lemma RubyPartsAreNoOthers(name: Text)
    requires IsRubyPart(name)
    ensures
      && name != Units("li") && name != Units("dd") && name != Units("dt") && name != Units("table")
      && name != Units("button") && name != Units("option") && name != Units("optgroup") && !IsHeading(name)
      && name != Units("a") && name != Units("nobr")
  {
    assert Units("rb")[0] == 0x72 && Units("rtc")[0] == 0x72 && Units("rp")[0] == 0x72 && Units("rt")[0] == 0x72;
    assert Units("li")[0] == 0x6C && Units("dd")[0] == 0x64 && Units("dt")[0] == 0x64 && Units("table")[0] == 0x74;
    assert Units("button")[0] == 0x62 && Units("option")[0] == 0x6F && Units("optgroup")[0] == 0x6F;
    assert Units("a")[0] == 0x61 && Units("nobr")[0] == 0x6E;
  }

  // ---- parts of tables

  /** Where a part of a table, the innermost, at t, belongs: a cell in the row, a row in the section, and where
      there is none, as all others, further out. */
  predicate BelongsIn(stack: seq<Element>, t: int, name: Text, k: int) {
    var cell := name == Units("td") || name == Units("th");
    var row, body := LastAt(stack, Html, Units("tr")), LastAt(stack, Html, Units("tbody"));
    var sec := Max(body, Max(LastAt(stack, Html, Units("thead")), LastAt(stack, Html, Units("tfoot"))));
    if cell && row > t then k == row
    else if (cell || name == Units("tr")) && sec > t then k == sec
    else k == t
  }

  /** A part of a table is opened straight inside of what it belongs in; all that was open above is closed. */
  lemma ATablePartStandsWhereItBelongs(
    v: Vocabulary, s: Tidy, name: Text, attrs: Attributes, selfClosing: bool, k: nat)
    requires !Foreign(s.stack) && name !in v.ignored && name != Units("keygen") && name != Units("form")
    requires name in v.tablePart && name != Units("col")
    requires var t := LastMarked(s.stack, TableScope);
      && t >= 0 && s.stack[t].name == Units("table") && k < |s.stack| && BelongsIn(s.stack, t, name, k)
      && !s.stack[k].zombie
    ensures var u := StartTag(v, s, name, attrs, selfClosing).stack;
      |u| == k + 2 && u[..k + 1] == s.stack[..k + 1] && u[k + 1].name == name && u[k + 1].ns == Html
  {
    hide PopTo, AttrText, TableDepth, LastMarked, LastAt, Units, BelongsIn, StartTag, TablePart, Foreign;
    var t := LastMarked(s.stack, TableScope);
    DepthIsWhereItBelongs(s.stack, t, name, k);
    ItIsATablePart(v, s, name, attrs, selfClosing);
    APartIsOpened(v, s, name, attrs, k);
  }

  lemma APartIsOpened(v: Vocabulary, s: Tidy, name: Text, attrs: Attributes, k: nat)
    requires k < |s.stack| && !s.stack[k].zombie && name != Units("col")
    requires var t := LastMarked(s.stack, TableScope);
      t >= 0 && s.stack[t].name == Units("table") && TableDepth(s.stack, t, name) == k + 1
    ensures var u := TablePart(v, s, name, attrs).stack;
      |u| == k + 2 && u[..k + 1] == s.stack[..k + 1] && u[k + 1].name == name && u[k + 1].ns == Html
  {
    hide PopTo, AttrText, TableDepth, LastMarked, LastAt, Units, Open, Entry;
    var text := AttrText(v, attrs, name, Html);
    PopToLeaves(v, s, k + 1);
    EntryIsCalled(v, name, Html, text, attrs);
    OpenPushes(v, PopTo(v, s, k + 1), Entry(v, name, Html, text, attrs));
  }

  lemma OpenPushes(v: Vocabulary, s: Tidy, e: Element)
    ensures Open(v, s, e).stack == s.stack + [Opened(s.pending, e)]
  {
    hide Write, DropAt;
  }

  lemma ItIsATablePart(v: Vocabulary, s: Tidy, name: Text, attrs: Attributes, selfClosing: bool)
    requires !Foreign(s.stack) && name !in v.ignored && name != Units("keygen") && name != Units("form")
    requires name in v.tablePart
    ensures StartTag(v, s, name, attrs, selfClosing) == TablePart(v, s, name, attrs)
  {
    hide TablePart, CloseBefore, Reopen, Open, Leaf, OpenOrLeaf, AttrText, LastAt, KindOf, Units;
  }

  lemma DepthIsWhereItBelongs(stack: seq<Element>, t: nat, name: Text, k: nat)
    requires BelongsIn(stack, t, name, k)
    ensures TableDepth(stack, t, name) == k + 1
  {
    assert Units("td")[1] == 0x64 && Units("th")[1] == 0x68 && Units("tr")[1] == 0x72;
    hide LastAt, Units;
  }

  // ---- end tags with a rule of their own

  /** </li> closes the item that is in list scope, an end tag of any heading the innermost heading in scope; where
      there is none, they do nothing. */
  lemma OwnEndsClose(v: Vocabulary, s: Tidy, name: Text)
    requires (s.stack == [] || Top(s.stack).ns == Html) && name !in v.ignored
    requires name == Units("li") || IsHeading(name)
    ensures var t := EndTag(v, s, name);
      var i := if name == Units("li") then LastAt(s.stack, Html, name) else LastMarked(s.stack, Heading);
      if i >= 0 && i >= LastMarked(s.stack, if name == Units("li") then ListScope else Scope)
      then |t.stack| <= i && t.stack == s.stack[..|t.stack|] else t == s
  {
    assert Units("li")[0] == 0x6C && |Units("form")| == 4 && |Units("p")| == 1 && Units("br")[0] == 0x62;
    hide PopTo, LastAt, LastMarked;
  }
}
