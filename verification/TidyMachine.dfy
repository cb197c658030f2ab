/** The stack machine of tidyHtml (packaging/emscripten/web/notebook-lib.js), over a sequence
    of tokens, in its plain form: every question about the open elements searches the stack.
    The sets of names are parameters, so that what is proved holds for any of them. */
module TidyMachine {
  import opened Basics
  import opened CodeUnits
  import opened TidyReader

  datatype Namespace = Html | Svg | MathMl

  /** The kinds of scope whose bounds are looked for. */
  datatype Mark =
    | Scope | ButtonScope | ListScope | TableScope | Special | NotAddressDivP | Marker | HtmlPoint | InHtml | Heading

  type Attributes = seq<(Text, Text)>

  /** The name sets of tidyHtml, the attributes that it keeps, of all elements and of each, and its limits. */
  datatype Vocabulary = Vocabulary(
    void: set<Plain>, ignored: set<Text>, formatting: set<Text>, marker: set<Text>, special: set<Text>,
    scope: set<Text>, mathText: set<Text>, svgPoint: set<Text>, closesP: set<Text>, noReopen: set<Text>,
    breakout: set<Text>, impliedEnd: set<Text>, tablePart: set<Text>, scopedEnd: set<Text>,
      tableEnd: set<Text>,
    role: set<Plain>, htmlOk: set<Plain>, htmlDrop: set<Text>, svgOk: set<Plain>,
    anyAttrs: set<Text>, ownAttrs: map<Text, set<Text>>, svgAttrs: set<Text>, isHtmlEncoding: Text -> bool,
    maxNest: nat, maxWork: nat, maxOut: nat)

  /** What is nested deeper than this many elements is not written. */
  const SHOWN: nat := 64

  datatype AnyKind = Kind(formatting: bool, marker: bool, point: bool, marks: set<Mark>, out: Text, drop: bool)

  /** What is not dropped has a name that can be written. */
  type Kind = k: AnyKind | k.drop || IsPlain(k.out) witness Kind(false, false, false, {}, [], true)

  datatype Element =
    Element(name: Text, ns: Namespace, text: AttributesText, kind: Kind, zombie: bool, saved: seq<Element>)

  /** Besides the stack: what is to be opened again, what was written, and whether a limit was passed, in
      which case tidyHtml throws and nothing it wrote is used. */
  datatype Tidy = Tidy(stack: seq<Element>, pending: seq<Element>, formOpen: bool, out: seq<Text>,
                       outLength: nat, work: nat, refTail: bool, failed: bool)

  const START: Tidy := Tidy([], [], false, [], 0, 0, false, false)

  predicate IsHeading(name: Text) { |name| == 2 && name[0] == 0x68 && 0x31 <= name[1] <= 0x36 }

  predicate IsAddressDivP(name: Text) { name == Units("address") || name == Units("div") || name == Units("p") }

  function KindOf(v: Vocabulary, name: Text, ns: Namespace, asPoint: bool): (k: Kind)
    ensures ns != Html ==> k.out == name
  {
    WrittenNamesArePlain();
    var h := ns == Html;
    var point := asPoint || (if ns == Svg then name in v.svgPoint else ns == MathMl && name in v.mathText);
    var scope := if h then name in v.scope
                 else if ns == MathMl then name in v.mathText || name == Units("annotation-xml")
                 else point;
    var special := if h then name in v.special else scope;
    var marks :=
      (if scope then {Scope, ButtonScope, ListScope}
       else if h && name == Units("button") then {ButtonScope}
       else if h && (name == Units("ol") || name == Units("ul")) then {ListScope} else {})
      + (if h && (name == Units("table") || name == Units("template")) then {TableScope} else {})
      + (if special then {Special} else {})
      + (if special && !(h && IsAddressDivP(name)) then {NotAddressDivP} else {})
      + (if h && name in v.marker then {Marker} else {})
      + (if h || point then {HtmlPoint} else {})
      + (if h then {InHtml} else {})
      + (if h && IsHeading(name) then {Heading} else {});
    var out := if !h then name else if name == Units("bdi") then Units("span")
               else if name in v.htmlOk || name in v.role then name else Units("nb-w");
    var drop := ns == MathMl || (if h then name in v.htmlDrop else name !in v.svgOk);
    Kind(h && name in v.formatting, h && name in v.marker, point, marks, out, drop)
  }

  lemma WrittenNamesArePlain()
    ensures IsPlain(Units("span")) && IsPlain(Units("nb-w"))
  {
    var a, b := Units("span"), Units("nb-w");
    assert a[0] == 0x73 && a[1] == 0x70 && a[2] == 0x61 && a[3] == 0x6E;
    assert b[0] == 0x6E && b[1] == 0x62 && b[2] == 0x2D && b[3] == 0x77;
  }

  function Entry(v: Vocabulary, name: Text, ns: Namespace, text: AttributesText, attrs: Attributes): Element {
    var point := ns == MathMl && name == Units("annotation-xml") &&
                 exists k :: 0 <= k < |attrs| && attrs[k].0 == Units("encoding") && v.isHtmlEncoding(attrs[k].1);
    Element(name, ns, text, KindOf(v, name, ns, point), false, [])
  }

  lemma EntryIsCalled(v: Vocabulary, name: Text, ns: Namespace, text: AttributesText, attrs: Attributes)
    ensures var e := Entry(v, name, ns, text, attrs); e.name == name && e.ns == ns
  {
    hide KindOf;
  }

  // ---- attributes

  const MAX_ATTRS: nat := 256

  /** aria- and small letters. */
  predicate IsAria(a: Text) {
    |a| > 5 && a[..5] == Units("aria-") && forall k :: 5 <= k < |a| ==> IsLower(a[k])
  }

  predicate IsAttributeName(a: Text) {
    a != [] && forall k :: 0 <= k < |a| ==>
      !IsTagSpace(a[k]) && a[k] != SLASH && a[k] != GREATER_THAN && a[k] != QUOTE && a[k] != APOSTROPHE &&
      a[k] != LESS_THAN && a[k] != EQUALS && a[k] != 0
  }

  /** Under what name an attribute is written, if it is one that is kept. */
  function WrittenAs(v: Vocabulary, a: Text, tag: Text, ns: Namespace): Option<Text> {
    if ns == Html then
      if a == Units("dir") then Some(Units("data-nb-dir"))
      else if a in v.anyAttrs || (tag in v.ownAttrs && a in v.ownAttrs[tag]) || IsAria(a) || a == Units("data-nb-dir")
              || (a == Units("data-nb-bdi") && tag == Units("span")) then Some(a)
      else None
    else if a in v.svgAttrs || IsAria(a) || a == Units("xlink:href") then Some(a) else None
  }

  const QUOT: Text := Units("&quot;")

  function AttributeText(a: Text, value: Text): Text {
    [SPACE] + a + [EQUALS, QUOTE] + EscapeLt(Escaped(value, QUOTE, QUOT)) + [QUOTE]
  }

  /** The attributes that are written, with their values: each once, the first of its name, and no more than
      256 of an element. */
  function KeptAttrs(v: Vocabulary, attrs: Attributes, tag: Text, ns: Namespace, seen: set<Text>): (r: Attributes)
    ensures forall k :: 0 <= k < |r| ==> IsAttributeName(r[k].0)
    decreases |attrs|
  {
    if attrs == [] then []
    else
      var a := WrittenAs(v, attrs[0].0, tag, ns);
      if a.None? || a.value in seen || !IsAttributeName(a.value) then KeptAttrs(v, attrs[1..], tag, ns, seen)
      else if |seen| + 1 > MAX_ATTRS then []
      else [(a.value, attrs[0].1)] + KeptAttrs(v, attrs[1..], tag, ns, seen + {a.value})
  }

  function TextOf(list: Attributes): (t: Text)
    requires forall k :: 0 <= k < |list| ==> IsAttributeName(list[k].0)
    ensures Skim(AtTag, t) == AtTag && (t != [] ==> t[0] == SPACE)
  {
    if list == [] then []
    else
      AttributeSkims(list[0].0, list[0].1);
      SkimConcat(AtTag, AttributeText(list[0].0, list[0].1), TextOf(list[1..]));
      AttributeText(list[0].0, list[0].1) + TextOf(list[1..])
  }

  const DATA_BDI: Text := Units("data-nb-bdi")

  function TagOf(name: Text): Text { if name == Units("image") then Units("img") else name }

  /** The attributes that are kept, and that an element is a <bdi>. */
  function AttrText(v: Vocabulary, attrs: Attributes, name: Text, ns: Namespace): AttributesText {
    var tag := TagOf(name);
    if ns == MathMl || (ns == Html && tag !in v.htmlOk) then []
    else if ns == Html && tag == Units("bdi") then
      var first, more := AttributeText(DATA_BDI, []), TextOf(KeptAttrs(v, attrs, tag, ns, {DATA_BDI}));
      BdiSkims();
      SkimConcat(AtTag, first, more);
      SpaceBegins(first + more);
      first + more
    else
      var more := TextOf(KeptAttrs(v, attrs, tag, ns, {}));
      SpaceBegins(more);
      more
  }

  lemma SpaceBegins(t: Text)
    requires Skim(AtTag, t) == AtTag && (t != [] ==> t[0] == SPACE)
    ensures IsAttributes(t)
  {}

  lemma {:induction false} NameSkims(a: Text)
    requires forall k :: 0 <= k < |a| ==> SkimUnit(AtTag, a[k]) == AtTag
    ensures Skim(AtTag, a) == AtTag
  {
    if a != [] {
      NameSkims(a[1..]);
    }
  }

  lemma {:induction false} ValueSkims(t: Text)
    requires QUOTE !in t
    ensures Skim(AtQuote, t) == AtQuote
  {
    if t != [] {
      ValueSkims(t[1..]);
    }
  }

  lemma QuotHasNoQuote()
    ensures QUOTE !in QUOT && QUOTE !in LT
  {
    assert QUOT[0] == AMPERSAND && QUOT[1] == 0x71 && QUOT[2] == 0x75 && QUOT[3] == 0x6F && QUOT[4] == 0x74;
    assert QUOT[5] == SEMICOLON;
  }

  lemma AttributeSkims(a: Text, value: Text)
    requires IsAttributeName(a)
    ensures var t := AttributeText(a, value); Skim(AtTag, t) == AtTag && t[0] == SPACE
  {
    hide Skim, Escaped;
    var e := EscapeLt(Escaped(value, QUOTE, QUOT));
    QuotHasNoQuote();
    EscapedHasNo(value, QUOTE, QUOT);
    EscapedHasNo(Escaped(value, QUOTE, QUOT), LESS_THAN, LT);
    ValueSkims(e);
    NameSkims([SPACE] + a + [EQUALS]);
    var head := [SPACE] + a + [EQUALS];
    assert AttributeText(a, value) == head + ([QUOTE] + (e + [QUOTE]));
    SkimConcat(AtTag, head, [QUOTE] + (e + [QUOTE]));
    SkimConcat(AtTag, [QUOTE], e + [QUOTE]);
    SkimConcat(AtQuote, e, [QUOTE]);
    SkimOne(AtTag, QUOTE);
    SkimOne(AtQuote, QUOTE);
  }

  lemma SkimOne(p: Place, c: Unit)
    ensures Skim(p, [c]) == SkimUnit(p, c)
  {
    assert [c][1..] == [];
  }

  lemma BdiSkims()
    ensures var t := AttributeText(DATA_BDI, []); Skim(AtTag, t) == AtTag && t[0] == SPACE
  {
    assert IsAttributeName(DATA_BDI) by {
      var a := DATA_BDI;
      assert a[0] == 0x64 && a[1] == 0x61 && a[2] == 0x74 && a[3] == 0x61 && a[4] == 0x2D && a[5] == 0x6E;
      assert a[6] == 0x62 && a[7] == 0x2D && a[8] == 0x62 && a[9] == 0x64 && a[10] == 0x69;
    }
    AttributeSkims(DATA_BDI, []);
  }

  // ---- questions about the stack

  /** Searches the stack from the top for a name; -1 when it is not there. */
  function LastAt(stack: seq<Element>, ns: Namespace, name: Text): (i: int)
    ensures -1 <= i < |stack|
  {
    if stack == [] then -1
    else
      var n := |stack| - 1;
      if stack[n].ns == ns && stack[n].name == name then n else LastAt(stack[..n], ns, name)
  }

  /** The index of the last open element with a mark, or -1. */
  function LastMarked(stack: seq<Element>, m: Mark): (i: int)
    ensures -1 <= i < |stack|
  {
    if stack == [] then -1
    else
      var n := |stack| - 1;
      if m in stack[n].kind.marks then n else LastMarked(stack[..n], m)
  }

  /** What would be dropped with its content: an element of HTML straight inside one of SVG too. */
  predicate Drops(stack: seq<Element>, kind: Kind, ns: Namespace) {
    kind.drop || (ns == Html && stack != [] && stack[|stack| - 1].ns == Svg)
  }

  /** The index of the lowest dropped element, or -1. */
  function DropAt(stack: seq<Element>): (i: int)
    ensures -1 <= i < |stack|
  {
    if stack == [] then -1
    else
      var n := |stack| - 1;
      var below := DropAt(stack[..n]);
      if below >= 0 then below else if Drops(stack[..n], stack[n].kind, stack[n].ns) then n else -1
  }

  predicate Hidden(stack: seq<Element>) { DropAt(stack) >= 0 || |stack| > SHOWN }

  function Top(stack: seq<Element>): Element
    requires stack != []
  {
    stack[|stack| - 1]
  }

  predicate Foreign(stack: seq<Element>) {
    stack != [] && Top(stack).ns != Html && !Top(stack).kind.point
  }

  predicate InScope(stack: seq<Element>, i: int, m: Mark) { i >= 0 && i >= LastMarked(stack, m) }

  /** The text written: its pieces one after the other. */
  function Joined(out: seq<Text>): Text {
    if out == [] then [] else Joined(out[..|out| - 1]) + out[|out| - 1]
  }

  // ---- writing

  function Write(v: Vocabulary, s: Tidy, str: Text, unseen: bool): (t: Tidy)
    ensures t.stack == s.stack && t.pending == s.pending && t.formOpen == s.formOpen
  {
    var work := s.work + |s.stack| + 1;
    var t := s.(work := work, failed := s.failed || work > v.maxWork);
    if unseen then t
    else
      var length := s.outLength + |str|;
      t.(out := s.out + [str], outLength := length, refTail := false, failed := t.failed || length > v.maxOut)
  }

  function VoidText(name: Text, attrs: Text): Text { [LESS_THAN] + name + attrs + [SLASH, GREATER_THAN] }

  function PairText(e: Element): Text {
    ([LESS_THAN] + e.name + e.text + [GREATER_THAN]) + ([LESS_THAN, SLASH] + e.name + [GREATER_THAN])
  }

  function Leaf(v: Vocabulary, s: Tidy, str: Text, kind: Kind, ns: Namespace): Tidy {
    Write(v, s, str, Hidden(s.stack) || Drops(s.stack, kind, ns))
  }

  function StartPiece(e: Element): Text { [LESS_THAN] + e.kind.out + e.text + [GREATER_THAN] }
  function EndPiece(e: Element): Text { [LESS_THAN, SLASH] + e.kind.out + [GREATER_THAN] }

  /** A marker keeps what is pending, until it is closed. */
  function Opened(pending: seq<Element>, e: Element): Element {
    if e.kind.marker then e.(saved := pending) else e
  }

  /** It is written unless it, or an element around it, is dropped or too deep. */
  function Open(v: Vocabulary, s: Tidy, e: Element): Tidy {
    var stack := s.stack + [Opened(s.pending, e)];
    var unseen := DropAt(stack) >= 0 || |s.stack| > SHOWN;
    var t := Write(v, s.(failed := s.failed || |s.stack| >= v.maxNest),
                   StartPiece(e), unseen);
    t.(stack := stack, pending := if e.kind.marker then [] else s.pending)
  }

  function Close(v: Vocabulary, s: Tidy): (t: Tidy)
    requires s.stack != []
    ensures t.stack == s.stack[..|s.stack| - 1]
  {
    var n := |s.stack| - 1;
    var e := s.stack[n];
    var t := Write(v, s.(stack := s.stack[..n]), EndPiece(e),
                   DropAt(s.stack) >= 0 || n > SHOWN);
    if e.kind.marker then t.(pending := e.saved) else t
  }

  /** Pops as far as index i; kept collects what is to be opened again. */
  function CloseDown(v: Vocabulary, s: Tidy, i: nat, kept: seq<Element>): (r: (Tidy, seq<Element>))
    ensures r.0.stack == if i < |s.stack| then s.stack[..i] else s.stack
    decreases |s.stack|
  {
    if |s.stack| <= i then (s, kept)
    else
      var e, t := Top(s.stack), Close(v, s);
      CloseDown(v, t, i, if e.kind.marker then []
                         else if |t.stack| > i && e.kind.formatting && !e.zombie then kept + [e] else kept)
  }

  function Reversed(x: seq<Element>): seq<Element> {
    if x == [] then [] else Reversed(x[1..]) + [x[0]]
  }

  function CloseZombies(v: Vocabulary, s: Tidy): (t: Tidy)
    ensures |t.stack| <= |s.stack| && t.stack == s.stack[..|t.stack|]
    decreases |s.stack|
  {
    if s.stack != [] && Top(s.stack).zombie then CloseZombies(v, Close(v, s)) else s
  }

  function PopTo(v: Vocabulary, s: Tidy, i: nat): (t: Tidy)
    ensures |t.stack| <= |s.stack| && |t.stack| <= i && t.stack == s.stack[..|t.stack|]
  {
    var (t, kept) := CloseDown(v, s, i, []);
    CloseZombies(v, if kept == [] then t else t.(pending := Reversed(kept) + t.pending))
  }

  function OpenAll(v: Vocabulary, s: Tidy, elements: seq<Element>): Tidy
    decreases |elements|
  {
    if elements == [] then s
    else OpenAll(v, Open(v, s, Entry(v, elements[0].name, Html, elements[0].text, [])), elements[1..])
  }

  function Reopen(v: Vocabulary, s: Tidy): Tidy {
    OpenAll(v, s.(pending := []), s.pending)
  }

  /** The index of the last pending element of a name, or -1. */
  function LastPending(pending: seq<Element>, name: Text): (k: int)
    ensures -1 <= k < |pending|
  {
    if pending == [] then -1
    else
      var n := |pending| - 1;
      if pending[n].name == name then n else LastPending(pending[..n], name)
  }

  function DropPending(s: Tidy, name: Text): Tidy {
    var k := LastPending(s.pending, name);
    var t := s.(work := s.work + |s.pending|);
    if k < 0 then t else t.(pending := s.pending[..k] + s.pending[k + 1..])
  }

  function PopIfInScope(v: Vocabulary, s: Tidy, i: int, m: Mark): Tidy {
    if InScope(s.stack, i, m) then PopTo(v, s, i) else s
  }

  function AnyOtherEnd(v: Vocabulary, s: Tidy, name: Text): Tidy {
    PopIfInScope(v, s, LastAt(s.stack, Html, name), Special)
  }

  /** An end tag of a formatting element; across a special element it leaves a zombie. */
  function EndFormatting(v: Vocabulary, s: Tidy, name: Text): Tidy {
    var i := LastAt(s.stack, Html, name);
    if i > LastMarked(s.stack, Marker) && !s.stack[i].zombie then
      if i < LastMarked(s.stack, Scope) then s
      else if LastMarked(s.stack, Special) > i then s.(stack := s.stack[i := s.stack[i].(zombie := true)])
      else PopTo(v, s, i)
    else if LastPending(s.pending, name) >= 0 then DropPending(s, name)
    else AnyOtherEnd(v, DropPending(s, name), name)
  }

  // ---- tokens

  /** How far a part of a table closes: to the innermost section, row or table that it belongs into. */
  function TableDepth(stack: seq<Element>, t: nat, name: Text): nat {
    var sec := Max(LastAt(stack, Html, Units("tbody")),
                   Max(LastAt(stack, Html, Units("thead")), LastAt(stack, Html, Units("tfoot"))));
    var row := LastAt(stack, Html, Units("tr"));
    if name == Units("tr") then Max(sec, t) + 1
    else if name == Units("td") || name == Units("th") then (if row > t then row else Max(sec, t)) + 1
    else t + 1
  }

  function Column(v: Vocabulary, s: Tidy, t: nat, text: AttributesText): Tidy
    requires t < |s.stack|
  {
    var u := if Top(s.stack).ns == Html && Top(s.stack).name == Units("colgroup") && |s.stack| - 1 > t then s
             else PopTo(v, s, t + 1);
    Leaf(v, u, VoidText(Units("col"), text), KindOf(v, Units("col"), Html, false), Html)
  }

  function TablePart(v: Vocabulary, s: Tidy, name: Text, attrs: Attributes): Tidy {
    var t := LastMarked(s.stack, TableScope);
    if t < 0 || s.stack[t].name != Units("table") then s
    else
      var text := AttrText(v, attrs, name, Html);
      if name == Units("col") then Column(v, s, t, text)
      else Open(v, PopTo(v, s, TableDepth(s.stack, t, name)), Entry(v, name, Html, text, attrs))
  }

  predicate HasFontAttribute(attrs: Attributes) {
    exists k :: 0 <= k < |attrs| &&
      (attrs[k].0 == Units("color") || attrs[k].0 == Units("face") || attrs[k].0 == Units("size"))
  }

  function OpenOrLeaf(v: Vocabulary, s: Tidy, e: Element, selfClosing: bool): Tidy {
    if selfClosing then Leaf(v, s, PairText(e), e.kind, e.ns) else Open(v, s, e)
  }

  predicate IsRubyPart(name: Text) {
    name == Units("rb") || name == Units("rtc") || name == Units("rp") || name == Units("rt")
  }

  function CloseImplied(v: Vocabulary, s: Tidy, name: Text): Tidy
    decreases |s.stack|
  {
    if s.stack != [] && Top(s.stack).ns == Html && Top(s.stack).name in v.impliedEnd
       && !(Top(s.stack).name == Units("rtc") && (name == Units("rp") || name == Units("rt")))
    then CloseImplied(v, PopTo(v, s, |s.stack| - 1), name)
    else s
  }

  function CloseItems(v: Vocabulary, s: Tidy, name: Text): Tidy {
    var t := if name == Units("li") then PopIfInScope(v, s, LastAt(s.stack, Html, Units("li")), NotAddressDivP)
             else if name == Units("dd") || name == Units("dt") then
               PopIfInScope(v, s, Max(LastAt(s.stack, Html, Units("dd")), LastAt(s.stack, Html, Units("dt"))),
                            NotAddressDivP)
             else s;
    if name in v.closesP then PopIfInScope(v, t, LastAt(t.stack, Html, Units("p")), ButtonScope) else t
  }

  function CloseHeading(v: Vocabulary, s: Tidy, name: Text): Tidy {
    if IsHeading(name) && s.stack != [] && Top(s.stack).ns == Html && IsHeading(Top(s.stack).name)
    then PopTo(v, s, |s.stack| - 1) else s
  }

  function CloseTable(v: Vocabulary, s: Tidy): Tidy {
    var t := LastMarked(s.stack, TableScope);
    if t >= 0 && s.stack[t].name == Units("table")
       && t > Max(LastAt(s.stack, Html, Units("td")),
                  Max(LastAt(s.stack, Html, Units("th")), LastAt(s.stack, Html, Units("caption"))))
    then PopTo(v, s, t) else s
  }

  function CloseBlocks(v: Vocabulary, s: Tidy, name: Text): Tidy {
    var t := CloseHeading(v, CloseItems(v, s, name), name);
    var u := if name == Units("table") then CloseTable(v, t) else t;
    if name == Units("button") then PopIfInScope(v, u, LastAt(u.stack, Html, Units("button")), Scope) else u
  }

  function CloseInlines(v: Vocabulary, s5: Tidy, name: Text): Tidy {
    var s6 := if name == Units("a") then
                DropPending(if LastAt(s5.stack, Html, Units("a")) > LastMarked(s5.stack, Marker)
                  then EndFormatting(v, s5, Units("a")) else s5, Units("a"))
              else s5;
    var r := if name == Units("nobr") then Reopen(v, s6) else s6;
    var s7 := if name == Units("nobr") && InScope(r.stack, LastAt(r.stack, Html, Units("nobr")), Scope)
      then EndFormatting(v, r, Units("nobr")) else r;
    var s8 := if (name == Units("option") || name == Units("optgroup")) && s7.stack != [] && Top(s7.stack).ns == Html &&
      Top(s7.stack).name == Units("option")
              then PopTo(v, s7, |s7.stack| - 1) else s7;
    if IsRubyPart(name) && InScope(s8.stack, LastAt(s8.stack, Html, Units("ruby")), Scope)
    then CloseImplied(v, s8, name) else s8
  }

  /** What a start tag closes before it, one rule after the other. */
  function CloseBefore(v: Vocabulary, s: Tidy, name: Text): Tidy {
    CloseInlines(v, CloseBlocks(v, s, name), name)
  }

  function HtmlStart(v: Vocabulary, s: Tidy, name: Text, attrs: Attributes, selfClosing: bool): Tidy {
    var inTemplate := LastAt(s.stack, Html, Units("template")) >= 0;
    if name in v.ignored || name == Units("keygen") then s
    else if name == Units("form") && s.formOpen && !inTemplate then s
    else if name in v.tablePart then TablePart(v, s, name, attrs)
    else
      var t := CloseBefore(v, s, name);
      var u := if name in v.noReopen then t else Reopen(v, t);
      if name in v.void then
        Leaf(v, u, VoidText(name, AttrText(v, attrs, name, Html)), KindOf(v, name, Html, false), Html)
      else if name == Units("svg") || name == Units("math") then
        var ns := if name == Units("svg") then Svg else MathMl;
        OpenOrLeaf(v, u, Entry(v, name, ns, AttrText(v, attrs, name, ns), attrs), selfClosing)
      else
        var w := Open(v, u, Entry(v, name, Html, AttrText(v, attrs, name, Html), attrs));
        if name == Units("form") && !inTemplate then w.(formOpen := true) else w
  }

  function StartTag(v: Vocabulary, s: Tidy, name: Text, attrs: Attributes, selfClosing: bool): Tidy {
    if Foreign(s.stack) && !(name in v.breakout || (name == Units("font") && HasFontAttribute(attrs))) then
      var top := Top(s.stack);
      var ns := if top.ns == MathMl && top.name == Units("annotation-xml") && name == Units("svg") then Svg else top.ns;
      OpenOrLeaf(v, s, Entry(v, name, ns, AttrText(v, attrs, name, ns), attrs), selfClosing)
    else
      HtmlStart(v, if Foreign(s.stack) then PopTo(v, s, LastMarked(s.stack, HtmlPoint) + 1) else s, name, attrs,
        selfClosing)
  }

  function HtmlEnd(v: Vocabulary, s: Tidy, name: Text): Tidy {
    if name in v.ignored then s
    else
      var form := name == Units("form") && LastAt(s.stack, Html, Units("template")) < 0;
      var t := if form then s.(formOpen := false) else s;
      if form && !s.formOpen then t
      else if name == Units("p") then
        var i := LastAt(t.stack, Html, Units("p"));
        if InScope(t.stack, i, ButtonScope) then PopTo(v, t, i)
          else Leaf(v, t, Units("<p></p>"), KindOf(v, Units("p"), Html, false), Html)
      else if name == Units("br") then Leaf(v, Reopen(v, t), Units("<br/>"), KindOf(v, Units("br"), Html, false), Html)
      else if name == Units("li") then PopIfInScope(v, t, LastAt(t.stack, Html, Units("li")), ListScope)
      else if IsHeading(name) then PopIfInScope(v, t, LastMarked(t.stack, Heading), Scope)
      else if name in v.scopedEnd then PopIfInScope(v, t, LastAt(t.stack, Html, name), Scope)
      else if name in v.tableEnd then PopIfInScope(v, t, LastAt(t.stack, Html, name), TableScope)
      else if name in v.formatting then EndFormatting(v, t, name)
      else AnyOtherEnd(v, t, name)
  }

  function EndTag(v: Vocabulary, s: Tidy, name: Text): Tidy {
    if s.stack != [] && Top(s.stack).ns != Html then
      if name == Units("br") || name == Units("p") then
        HtmlEnd(v, PopTo(v, s, LastMarked(s.stack, HtmlPoint) + 1), name)
      else
        var i := Max(LastAt(s.stack, Svg, name), LastAt(s.stack, MathMl, name));
        if i > LastMarked(s.stack, InHtml) then PopTo(v, s, i) else HtmlEnd(v, s, name)
    else HtmlEnd(v, s, name)
  }

  predicate IsReferenceChar(c: Unit) { IsUpper(c) || IsLower(c) || IsDigit(c) || c == HASH }

  /** Text written after t could complete a reference: t has a & with only letters, digits and # behind. */
  predicate EndsAsReference(t: Text) {
    t != [] && (t[|t| - 1] == AMPERSAND || (IsReferenceChar(t[|t| - 1]) && EndsAsReference(t[..|t| - 1])))
  }

  function LastOf(t: Text, n: nat): Text { if |t| <= n then t else t[|t| - n..] }

  predicate HasContent(t: Text) { exists k :: 0 <= k < |t| && !IsTagSpace(t[k]) }

  /** Text that is shown, kept apart by an empty comment from what could be a reference. */
  function WriteText(v: Vocabulary, s: Tidy, t: Text): Tidy {
    var c := if s.refTail then Write(v, s, COMMENT, false) else s;
    Write(v, c, EscapeLt(t), false).(refTail := EndsAsReference(LastOf(t, 48)))
  }

  function CharacterData(v: Vocabulary, s: Tidy, t: Text): Tidy {
    var r := if s.pending != [] && !Foreign(s.stack) && HasContent(t) then Reopen(v, s) else s;
    if Hidden(r.stack) then Write(v, r, [], true) else WriteText(v, r, t)
  }

  datatype Token = Start(name: Text, attrs: Attributes,
    selfClosing: bool) | End(name: Text) | Characters(text: Text)

  function Step(v: Vocabulary, s: Tidy, token: Token): Tidy {
    match token
    case Start(name, attrs, selfClosing) => StartTag(v, s, name, attrs, selfClosing)
    case End(name) => EndTag(v, s, name)
    case Characters(t) => CharacterData(v, s, t)
  }

  function Steps(v: Vocabulary, s: Tidy, tokens: seq<Token>): Tidy
    decreases |tokens|
  {
    if tokens == [] then s else Steps(v, Step(v, s, tokens[0]), tokens[1..])
  }
}
