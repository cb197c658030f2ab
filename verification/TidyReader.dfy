/** A reader of HTML text that knows only tags, quotes, and the empty comment: it tells whether the tags
    of a text are well nested, what is left open, and what text stands between them. */
module TidyReader {
  import opened Basics
  import opened CodeUnits

  /** What is written is never nested deeper than this. */
  const DEEPEST: nat := 65

  const COMMENT: Text := [LESS_THAN, BANG, HYPHEN, HYPHEN, HYPHEN, HYPHEN, GREATER_THAN]

  predicate IsTagSpace(c: Unit) { c == TAB || c == LF || c == FORM_FEED || c == SPACE }

  /** What a tag name may be made of. */
  predicate IsNameUnit(c: Unit) {
    !IsTagSpace(c) && c != LESS_THAN && c != GREATER_THAN && c != SLASH && c != QUOTE && c != APOSTROPHE && c != BANG
  }

  predicate IsPlain(name: Text) { name != [] && forall k :: 0 <= k < |name| ==> IsNameUnit(name[k]) }

  type Plain = t: Text | IsPlain(t) witness [0x61]

  datatype Mode =
    | InText
    | AfterLess                      // behind a <
    | InName(name: Text)
    | InTag(name: Text)              // behind the name
    | InQuotes(name: Text, quote: Unit)
    | AfterSlash(name: Text)         // behind the / that ends an empty element
    | InEnd(name: Text)              // in the name of an end tag
    | InComment(k: nat)              // behind k units of the empty comment

  /** open: the elements open at this place, outermost first. text: what stood outside of tags. */
  datatype Reading = Reading(mode: Mode, open: seq<Text>, text: Text) | Broken

  const BEGIN: Reading := Reading(InText, [], [])

  function Pushed(r: Reading, name: Text): Reading
    requires r.Reading?
  {
    if |r.open| < DEEPEST then Reading(InText, r.open + [name], r.text) else Broken
  }

  function Popped(r: Reading, name: Text): Reading
    requires r.Reading?
  {
    if r.open != [] && r.open[|r.open| - 1] == name then Reading(InText, r.open[..|r.open| - 1], r.text) else Broken
  }

  function ReadUnit(r: Reading, c: Unit): Reading {
    if r.Broken? then Broken
    else
      match r.mode
      case InText => if c == LESS_THAN then r.(mode := AfterLess) else r.(text := r.text + [c])
      case AfterLess =>
        if c == SLASH then r.(mode := InEnd([]))
        else if c == BANG then r.(mode := InComment(2))
        else if IsNameUnit(c) then r.(mode := InName([c])) else Broken
      case InName(name) =>
        if c == GREATER_THAN then Pushed(r, name)
        else if c == SLASH then r.(mode := AfterSlash(name))
        else if IsTagSpace(c) then r.(mode := InTag(name))
        else if IsNameUnit(c) then r.(mode := InName(name + [c])) else Broken
      case InTag(name) =>
        if c == GREATER_THAN then Pushed(r, name)
        else if c == SLASH then r.(mode := AfterSlash(name))
        else if c == QUOTE || c == APOSTROPHE then r.(mode := InQuotes(name, c))
        else if c == LESS_THAN then Broken else r
      case InQuotes(name, quote) => if c == quote then r.(mode := InTag(name)) else r
      case AfterSlash(_) => if c == GREATER_THAN && |r.open| < DEEPEST then r.(mode := InText) else Broken
      case InEnd(name) =>
        if c == GREATER_THAN then Popped(r, name)
        else if IsNameUnit(c) then r.(mode := InEnd(name + [c])) else Broken
      case InComment(k) =>
        if k >= |COMMENT| || c != COMMENT[k] then Broken
        else if k + 1 == |COMMENT| then r.(mode := InText) else r.(mode := InComment(k + 1))
  }

  function Read(r: Reading, t: Text): Reading
    decreases |t|
  {
    if t == [] then r else Read(ReadUnit(r, t[0]), t[1..])
  }

  lemma {:induction false} ReadConcat(r: Reading, a: Text, b: Text)
    ensures Read(r, a + b) == Read(Read(r, a), b)
    decreases |a|
  {
    hide ReadUnit;
    if a == [] {
      assert a + b == b;
    } else {
      assert (a + b)[1..] == a[1..] + b;
      ReadConcat(ReadUnit(r, a[0]), a[1..], b);
    }
  }

  lemma ReadOne(r: Reading, c: Unit)
    ensures Read(r, [c]) == ReadUnit(r, c)
  {
    hide ReadUnit;
    assert [c][1..] == [];
  }

  lemma {:induction false} BrokenStays(t: Text)
    ensures Read(Broken, t) == Broken
    decreases |t|
  {
    if t != [] {
      BrokenStays(t[1..]);
    }
  }

  lemma {:induction false} ReadIsShallow(r: Reading, t: Text)
    requires r.Reading? ==> |r.open| <= DEEPEST
    ensures var q := Read(r, t); q.Reading? ==> |q.open| <= DEEPEST
    decreases |t|
  {
    if t != [] {
      ReadIsShallow(ReadUnit(r, t[0]), t[1..]);
    }
  }

  /** A text that can be read can be read up to anywhere, and is nowhere too deep. */
  lemma PrefixIsWellNested(t: Text, k: nat)
    requires k <= |t| && Read(BEGIN, t).Reading?
    ensures var q := Read(BEGIN, t[..k]); q.Reading? && |q.open| <= DEEPEST
  {
    assert t == t[..k] + t[k..];
    ReadConcat(BEGIN, t[..k], t[k..]);
    BrokenStays(t[k..]);
    ReadIsShallow(BEGIN, t[..k]);
  }

  // ---- the attributes of a tag

  /** Between a tag's name and its end, at a place: before anything, behind a space or a value, in a value. */
  datatype Place = AtName | AtTag | AtQuote | Bad

  function SkimUnit(p: Place, c: Unit): Place {
    match p
    case AtName => if IsTagSpace(c) then AtTag else Bad
    case AtTag =>
      if c == QUOTE then AtQuote
      else if c == APOSTROPHE || c == LESS_THAN || c == GREATER_THAN || c == SLASH then Bad else AtTag
    case AtQuote => if c == QUOTE then AtTag else AtQuote
    case Bad => Bad
  }

  function Skim(p: Place, t: Text): Place
    decreases |t|
  {
    if t == [] then p else Skim(SkimUnit(p, t[0]), t[1..])
  }

  /** Attributes as they stand in a tag: nothing, or a space and what is closed in quotes. */
  predicate IsAttributes(t: Text) { Skim(AtName, t) == AtName || Skim(AtName, t) == AtTag }

  type AttributesText = t: Text | IsAttributes(t) witness []

  lemma {:induction false} SkimConcat(p: Place, a: Text, b: Text)
    ensures Skim(p, a + b) == Skim(Skim(p, a), b)
    decreases |a|
  {
    hide SkimUnit;
    if a == [] {
      assert a + b == b;
    } else {
      assert (a + b)[1..] == a[1..] + b;
      SkimConcat(SkimUnit(p, a[0]), a[1..], b);
    }
  }

  function ModeAt(p: Place, name: Text): Mode {
    match p
    case AtQuote => InQuotes(name, QUOTE)
    case AtTag => InTag(name)
    case _ => InName(name)
  }

  lemma {:induction false} BadStays(t: Text)
    ensures Skim(Bad, t) == Bad
    decreases |t|
  {
    if t != [] {
      BadStays(t[1..]);
    }
  }

  lemma {:induction false} AttributesRead(r: Reading, name: Text, p: Place, t: Text)
    requires r.Reading? && p != Bad && Skim(p, t) != Bad
    ensures Read(r.(mode := ModeAt(p, name)), t) == r.(mode := ModeAt(Skim(p, t), name))
    decreases |t|
  {
    if t != [] {
      var q := SkimUnit(p, t[0]);
      if q == Bad { BadStays(t[1..]); }
      assert ReadUnit(r.(mode := ModeAt(p, name)), t[0]) == r.(mode := ModeAt(q, name));
      AttributesRead(r, name, q, t[1..]);
    }
  }

  // ---- tags and text

  lemma {:induction false} NameReads(r: Reading, before: Text, name: Text)
    requires r.Reading? && forall k :: 0 <= k < |name| ==> IsNameUnit(name[k])
    ensures Read(r.(mode := InName(before)), name) == r.(mode := InName(before + name))
    ensures Read(r.(mode := InEnd(before)), name) == r.(mode := InEnd(before + name))
    decreases |name|
  {
    if name == [] {
      assert before + name == before;
    } else {
      NameReads(r, before + [name[0]], name[1..]);
      assert (before + [name[0]]) + name[1..] == before + name;
    }
  }

  /** A start tag up to its end, from between tags. */
  lemma TagReads(r: Reading, name: Text, attributes: Text)
    requires r.Reading? && r.mode == InText && IsPlain(name) && IsAttributes(attributes)
    ensures var p := Skim(AtName, attributes);
      p in {AtName, AtTag} && Read(r, [LESS_THAN] + name + attributes) == r.(mode := ModeAt(p, name))
  {
    hide Read, Skim;
    var less, first, rest := [LESS_THAN], [name[0]], name[1..];
    assert name == first + rest;
    ReadConcat(r, less + name, attributes);
    ReadConcat(r, less, name);
    ReadOne(r, LESS_THAN);
    var s := r.(mode := AfterLess);
    ReadConcat(s, first, rest);
    ReadOne(s, name[0]);
    NameReads(r, first, rest);
    AttributesRead(r, name, AtName, attributes);
  }

  lemma StartReads(r: Reading, name: Text, attributes: Text)
    requires r.Reading? && r.mode == InText && IsPlain(name) && IsAttributes(attributes)
    ensures Read(r, [LESS_THAN] + name + attributes + [GREATER_THAN]) == Pushed(r, name)
  {
    hide Read, Skim;
    TagReads(r, name, attributes);
    ReadConcat(r, [LESS_THAN] + name + attributes, [GREATER_THAN]);
    ReadOne(Read(r, [LESS_THAN] + name + attributes), GREATER_THAN);
  }

  lemma EndReads(r: Reading, name: Text)
    requires r.Reading? && r.mode == InText && IsPlain(name)
    ensures Read(r, [LESS_THAN, SLASH] + name + [GREATER_THAN]) == Popped(r, name)
  {
    hide Read;
    var less, slash := [LESS_THAN], [SLASH];
    assert [LESS_THAN, SLASH] == less + slash;
    ReadConcat(r, less + slash + name, [GREATER_THAN]);
    ReadConcat(r, less + slash, name);
    ReadConcat(r, less, slash);
    ReadOne(r, LESS_THAN);
    ReadOne(r.(mode := AfterLess), SLASH);
    NameReads(r, [], name);
    assert [] + name == name;
    ReadOne(r.(mode := InEnd(name)), GREATER_THAN);
  }

  /** What reads as an element without content: nothing changes, if one more may be open here. */
  ghost predicate ReadsAsLeaf(t: Text) {
    forall r: Reading :: r.Reading? && r.mode == InText && |r.open| < DEEPEST ==> Read(r, t) == r
  }

  lemma VoidReads(name: Text, attributes: Text)
    requires IsPlain(name) && IsAttributes(attributes)
    ensures ReadsAsLeaf([LESS_THAN] + name + attributes + [SLASH, GREATER_THAN])
  {
    hide Read, Skim;
    var tag := [LESS_THAN] + name + attributes;
    forall r: Reading | r.Reading? && r.mode == InText && |r.open| < DEEPEST
      ensures Read(r, tag + [SLASH, GREATER_THAN]) == r
    {
      TagReads(r, name, attributes);
      var slash, greater := [SLASH], [GREATER_THAN];
      assert [SLASH, GREATER_THAN] == slash + greater;
      ReadConcat(r, tag, slash + greater);
      ReadConcat(Read(r, tag), slash, greater);
      ReadOne(Read(r, tag), SLASH);
      ReadOne(r.(mode := AfterSlash(name)), GREATER_THAN);
    }
  }

  lemma PairReads(name: Text, attributes: Text)
    requires IsPlain(name) && IsAttributes(attributes)
    ensures
      ReadsAsLeaf(([LESS_THAN] + name + attributes + [GREATER_THAN]) + ([LESS_THAN, SLASH] + name + [GREATER_THAN]))
  {
    hide Read, Skim;
    var start, end := [LESS_THAN] + name + attributes + [GREATER_THAN], [LESS_THAN, SLASH] + name + [GREATER_THAN];
    forall r: Reading | r.Reading? && r.mode == InText && |r.open| < DEEPEST ensures Read(r, start + end) == r {
      ReadConcat(r, start, end);
      StartReads(r, name, attributes);
      EndReads(Pushed(r, name), name);
      assert (r.open + [name])[..|r.open|] == r.open;
    }
  }

  /** Text without a < stays text. */
  lemma {:induction false} TextReads(r: Reading, t: Text)
    requires r.Reading? && r.mode == InText && LESS_THAN !in t
    ensures Read(r, t) == r.(text := r.text + t)
    decreases |t|
  {
    if t == [] {
      assert r.text + t == r.text;
    } else {
      TextReads(r.(text := r.text + [t[0]]), t[1..]);
      assert (r.text + [t[0]]) + t[1..] == r.text + t;
    }
  }

  lemma CommentReads(r: Reading)
    requires r.Reading? && r.mode == InText
    ensures Read(r, COMMENT) == r
  {
    hide Read;
    assert COMMENT == [LESS_THAN] + ([BANG] + ([HYPHEN] + ([HYPHEN] + ([HYPHEN] + ([HYPHEN] + [GREATER_THAN])))));
    ReadStep(r, LESS_THAN, [BANG] + ([HYPHEN] + ([HYPHEN] + ([HYPHEN] + ([HYPHEN] + [GREATER_THAN])))));
    ReadStep(r.(mode := AfterLess), BANG, [HYPHEN] + ([HYPHEN] + ([HYPHEN] + ([HYPHEN] + [GREATER_THAN]))));
    ReadStep(r.(mode := InComment(2)), HYPHEN, [HYPHEN] + ([HYPHEN] + ([HYPHEN] + [GREATER_THAN])));
    ReadStep(r.(mode := InComment(3)), HYPHEN, [HYPHEN] + ([HYPHEN] + [GREATER_THAN]));
    ReadStep(r.(mode := InComment(4)), HYPHEN, [HYPHEN] + [GREATER_THAN]);
    ReadStep(r.(mode := InComment(5)), HYPHEN, [GREATER_THAN]);
    ReadOne(r.(mode := InComment(6)), GREATER_THAN);
  }

  lemma ReadStep(r: Reading, c: Unit, t: Text)
    ensures Read(r, [c] + t) == Read(ReadUnit(r, c), t)
  {
    hide Read;
    ReadConcat(r, [c], t);
    ReadOne(r, c);
  }

  // ---- escaped text

  /** t with every c written as x. */
  function Escaped(t: Text, c: Unit, x: Text): Text {
    if t == [] then [] else (if t[0] == c then x else [t[0]]) + Escaped(t[1..], c, x)
  }

  lemma {:induction false} EscapedHasNo(t: Text, c: Unit, x: Text)
    requires c !in x
    ensures c !in Escaped(t, c, x)
    ensures forall u :: u in Escaped(t, c, x) ==> u in t || u in x
  {
    if t != [] {
      EscapedHasNo(t[1..], c, x);
    }
  }

  const LT: Text := [AMPERSAND, 0x6C, 0x74, SEMICOLON]

  function EscapeLt(t: Text): Text { Escaped(t, LESS_THAN, LT) }

  /** &lt; read as < again. */
  function Unescaped(t: Text): Text
    decreases |t|
  {
    if t == [] then []
    else if |t| >= 4 && t[..4] == LT then [LESS_THAN] + Unescaped(t[4..])
    else [t[0]] + Unescaped(t[1..])
  }

  lemma UnescapedLt(t: Text)
    ensures Unescaped(LT + t) == [LESS_THAN] + Unescaped(t)
  {
    assert (LT + t)[..4] == LT && (LT + t)[4..] == t;
  }

  lemma UnescapedOther(t: Text)
    requires t != [] && !(|t| >= 4 && t[..4] == LT)
    ensures Unescaped(t) == [t[0]] + Unescaped(t[1..])
  {}

  lemma EscapedFirst(t: Text)
    requires t != []
    ensures EscapeLt(t) == (if t[0] == LESS_THAN then LT else [t[0]]) + EscapeLt(t[1..])
  {}

  /** A &lt; is found in the escaped text only where it stands in the text itself, or for a <. */
  lemma EscapedStarts(t: Text)
    requires |EscapeLt(t)| >= 4 && EscapeLt(t)[..4] == LT && t[0] != LESS_THAN
    ensures |t| >= 4 && t[..4] == LT && EscapeLt(t) == LT + EscapeLt(t[4..])
  {
    var e := EscapeLt(t);
    EscapedFirst(t);
    assert e[0] == AMPERSAND && e[1] == 0x6C && e[2] == 0x74 && e[3] == SEMICOLON;
    var t1 := t[1..];
    assert e[1..] == EscapeLt(t1);
    EscapedFirst(t1);
    var t2 := t1[1..];
    assert t1[0] == 0x6C && e[2..] == EscapeLt(t2);
    EscapedFirst(t2);
    var t3 := t2[1..];
    assert t2[0] == 0x74 && e[3..] == EscapeLt(t3);
    EscapedFirst(t3);
    assert t3[0] == SEMICOLON && t3[1..] == t[4..] && e[4..] == EscapeLt(t[4..]);
    assert t[..4] == LT;
  }

  /** Escaping changes nothing of what the text says. */
  lemma {:induction false} EscapedSaysTheSame(t: Text)
    ensures Unescaped(EscapeLt(t)) == Unescaped(t) && LESS_THAN !in EscapeLt(t)
    decreases |t|
  {
    hide Unescaped, Escaped;
    EscapedHasNo(t, LESS_THAN, LT);
    var e := EscapeLt(t);
    if t == [] {
      EscapedNothing();
    } else if t[0] == LESS_THAN {
      EscapedFirst(t);
      UnescapedLt(EscapeLt(t[1..]));
      EscapedSaysTheSame(t[1..]);
      assert t[0] != LT[0];
      assert |t| >= 4 ==> t[..4][0] == t[0];
      UnescapedOther(t);
    } else if |e| >= 4 && e[..4] == LT {
      EscapedStarts(t);
      EscapedSaysTheSame(t[4..]);
      UnescapedLt(EscapeLt(t[4..]));
      UnescapedLt(t[4..]);
      assert t == LT + t[4..];
    } else {
      EscapedFirst(t);
      if |t| >= 4 && t[..4] == LT {
        LtStays(t);
        assert false;
      }
      UnescapedOther(t);
      UnescapedOther(e);
      assert e[1..] == EscapeLt(t[1..]);
      EscapedSaysTheSame(t[1..]);
    }
  }

  lemma EscapedNothing()
    ensures EscapeLt([]) == [] && Unescaped([]) == []
  {}

  lemma LtStays(t: Text)
    requires |t| >= 4 && t[..4] == LT
    ensures |EscapeLt(t)| >= 4 && EscapeLt(t)[..4] == LT
  {
    assert t[0] == AMPERSAND && t[1] == 0x6C && t[2] == 0x74 && t[3] == SEMICOLON;
    EscapedFirst(t);
    EscapedFirst(t[1..]);
    EscapedFirst(t[1..][1..]);
    EscapedFirst(t[1..][1..][1..]);
  }
}
