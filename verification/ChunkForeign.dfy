/** Reading .st files that Pharo, another tool or a hand wrote; and what is printed,
    to the last character. */
module ChunkForeign {
  import opened Basics
  import opened CodeUnits
  import opened ChunkText
  import opened ChunkFormat
  import opened ChunkRoundTrip

  // ---- what trimming leaves

  /** Blank lines, each with its line feed. */
  predicate AreBlankLines(s: Text) {
    (forall c :: c in s ==> IsSpace(c)) && (s != [] ==> s[|s| - 1] == LF)
  }

  /** Nothing but blank lines in front, and white space at the end, is taken from a source. */
  lemma TrimBlankLinesTakesNoMore(s: Text) returns (a: Text, b: Text)
    ensures s == a + TrimBlankLines(s) + b && AreBlankLines(a) && forall c :: c in b ==> IsSpace(c)
  {
    hide Run, Kept, AfterLastLine;
    var kept := Kept(s, IsSpace);
    var t := s[..kept];
    var run := Run(t, IsSpace);
    var from := AfterLastLine(t[..run]);
    a, b := t[..from], s[kept..];
    assert t == t[..from] + t[from..];
    forall c | c in a ensures IsSpace(c) {
      var i :| 0 <= i < |a| && a[i] == c;
      assert t[i] == c;
    }
    forall c | c in b ensures IsSpace(c) {
      var i :| 0 <= i < |b| && b[i] == c;
      assert s[kept + i] == c;
    }
  }

  lemma JsTrimTakesNoMore(s: Text) returns (a: Text, b: Text)
    ensures s == a + JsTrim(s) + b && forall c :: c in a + b ==> IsJsSpace(c)
  {
    hide Run, Kept;
    var kept := Kept(s, IsJsSpace);
    var t := s[..kept];
    var run := Run(t, IsJsSpace);
    a, b := t[..run], s[kept..];
    forall c | c in a + b ensures IsJsSpace(c) {
      if c in a {
        var i :| 0 <= i < |a| && a[i] == c;
        assert t[i] == c;
      } else {
        var i :| 0 <= i < |b| && b[i] == c;
        assert s[kept + i] == c;
      }
    }
  }

  // ---- plain chunks

  /** A DoIt without a marker: it begins with what is neither a separator nor a !, is not blank, and has no
      comment in front that begins as a marker or as the header does. */
  predicate IsPlain(body: Text) {
    && body != [] && !IsSpace(body[0]) && body[0] != BANG && JsTrim(body) != []
    && CR !in body && body[0] != BYTE_ORDER_MARK
    && !StartsWith(body, QUOTED_PERCENTS) && !StartsWith(body, HEAD)
  }

  function PlainText(bodies: seq<Text>): Text {
    if bodies == [] then [] else Printed(bodies[0]) + [LF] + PlainText(bodies[1..])
  }

  function PlainCells(bodies: seq<Text>): (cells: seq<Cell>)
    ensures |cells| == |bodies|
    ensures forall k :: 0 <= k < |bodies| ==> cells[k] == Cell(false, TrimBlankLines(bodies[k]))
  {
    if bodies == [] then [] else [Cell(false, TrimBlankLines(bodies[0]))] + PlainCells(bodies[1..])
  }

  lemma PrintedBegins(body: Text)
    requires body != [] && body[0] != BANG
    ensures Printed(body) != [] && Printed(body)[0] == body[0]
  {}

  lemma ReadsPlain(body: Text, rest: Text, acc: Read)
    requires IsPlain(body) && rest != [] && rest[0] == LF
    ensures ReadAll(Printed(body) + rest, acc) ==
      ReadAll(rest, acc.(cells := acc.cells + [Cell(false, TrimBlankLines(body))]))
  {
    PlainIsACell(body, acc);
    PrintedBegins(body);
    hide WithDoIt, Printed, TrimBlankLines, JsTrim, StartsWith;
    var p := Printed(body) + rest;
    ChunkReadsBack(body, rest);
    RunIs(p, IsSpace, 0);
    assert Skip(p) == p;
  }

  lemma PlainIsACell(body: Text, acc: Read)
    requires IsPlain(body)
    ensures WithDoIt(body, acc) == acc.(cells := acc.cells + [Cell(false, TrimBlankLines(body))])
  {
    hide TrimBlankLines, JsTrim, CommentEnd;
    PlainDoIt(body, acc);
  }

  lemma {:induction false} PlainReads(bodies: seq<Text>, acc: Read)
    requires forall k :: 0 <= k < |bodies| ==> IsPlain(bodies[k])
    ensures ReadAll(PlainText(bodies), acc) == acc.(cells := acc.cells + PlainCells(bodies))
    decreases |bodies|
  {
    hide IsPlain, ReadAll, Printed, TrimBlankLines;
    if bodies == [] {
      ReadsNothing(acc);
      assert acc.cells + [] == acc.cells;
    } else {
      var cell, rest := Cell(false, TrimBlankLines(bodies[0])), PlainText(bodies[1..]);
      assert PlainText(bodies) == Printed(bodies[0]) + ([LF] + rest);
      ReadsPlain(bodies[0], [LF] + rest, acc);
      var next := acc.(cells := acc.cells + [cell]);
      ReadsBlankLine(rest, next);
      PlainReads(bodies[1..], next);
      Associative(acc.cells, [cell], PlainCells(bodies[1..]));
    }
  }

  lemma {:induction false} PlainHasNoCr(bodies: seq<Text>)
    requires forall k :: 0 <= k < |bodies| ==> IsPlain(bodies[k])
    ensures CR !in PlainText(bodies)
    ensures bodies != [] ==> PlainText(bodies) != [] && bodies[0] != [] && PlainText(bodies)[0] == bodies[0][0]
  {
    hide JsTrim, StartsWith;
    if bodies != [] {
      PlainHasNoCr(bodies[1..]);
      DoubledHasNo(bodies[0], BANG, CR);
      PrintedBegins(bodies[0]);
    }
  }

  lemma PlainHasNoBom(bodies: seq<Text>)
    requires forall k :: 0 <= k < |bodies| ==> IsPlain(bodies[k])
    ensures WithoutBom(PlainText(bodies)) == PlainText(bodies)
  {
    hide PlainText, JsTrim, StartsWith;
    PlainHasNoCr(bodies);
    assert bodies != [] ==> IsPlain(bodies[0]);
    assert bodies == [] ==> PlainText(bodies) == [] by { NoPlainText(); }
  }

  lemma NoPlainText()
    ensures PlainText([]) == []
  {}

  /** A file of DoIts without markers, whatever ! they hold: each is a code cell, in order, of which only
      blank lines in front and white space at the end are lost; there is no title and no warning. */
  lemma PlainFilesReadAsCode(bodies: seq<Text>)
    requires forall k :: 0 <= k < |bodies| ==> IsPlain(bodies[k])
    ensures FromStText(PlainText(bodies)) == Answer([], PlainCells(bodies), [])
  {
    hide IsPlain, ReadAll, PlainText, Lines, WithoutBom, TrimBlankLines, PlainCells, Warnings;
    PlainHasNoCr(bodies);
    LinesStays(PlainText(bodies));
    PlainHasNoBom(bodies);
    PlainReads(bodies, NOTHING);
    assert NOTHING.cells + PlainCells(bodies) == PlainCells(bodies);
  }

  /** A byte order mark in front changes nothing. */
  lemma AByteOrderMarkIsPassed(text: Text)
    requires text == [] || text[0] != BYTE_ORDER_MARK
    ensures FromStText([BYTE_ORDER_MARK] + text) == FromStText(text)
  {
    hide ReadAll, Warnings;
    var t := [BYTE_ORDER_MARK] + text;
    assert t[1..] == text;
    assert Lines(t) == [BYTE_ORDER_MARK] + Lines(text);
    assert Lines(t)[1..] == Lines(text);
  }

  // ---- methods are left out

  function MethodsText(methods: seq<Text>): Text {
    if methods == [] then [SPACE, BANG] else Printed(methods[0]) + [LF] + MethodsText(methods[1..])
  }

  lemma NextIsPrinted(body: Text, rest: Text, before: Text)
    requires body != [] && !IsSpace(body[0]) && body[0] != BANG && (rest == [] || rest[0] != BANG)
    requires forall c :: c in before ==> IsSpace(c)
    ensures NextChunk(before + (Printed(body) + rest)) == (body, rest)
  {
    PrintedBegins(body);
    hide Printed, ChunkBody;
    var p := Printed(body) + rest;
    ChunkReadsBack(body, rest);
    RunIs(before + p, IsSpace, |before|);
    assert Skip(before + p) == p;
  }

  lemma NextIsEmpty(before: Text, rest: Text)
    requires (forall c :: c in before ==> IsSpace(c)) && (rest == [] || rest[0] != BANG)
    ensures NextChunk(before + ([BANG] + rest)) == ([], rest)
  {
    RunIs(before + ([BANG] + rest), IsSpace, |before|);
    assert Skip(before + ([BANG] + rest)) == [BANG] + rest;
  }

  /** The methods of a section, whatever they hold, up to the empty chunk behind them: each is counted. */
  lemma {:induction false} MethodsAreCounted(methods: seq<Text>, rest: Text, before: Text)
    requires forall k :: 0 <= k < |methods| ==> methods[k] != [] && !IsSpace(methods[k][0]) && methods[k][0] != BANG
    requires (rest == [] || rest[0] != BANG) && forall c :: c in before ==> IsSpace(c)
    ensures Methods(before + (MethodsText(methods) + rest)) == (|methods|, rest)
    decreases |methods|
  {
    hide Printed, NextChunk;
    var all := before + (MethodsText(methods) + rest);
    if methods == [] {
      assert all == (before + [SPACE]) + ([BANG] + rest);
      NextIsEmpty(before + [SPACE], rest);
    } else {
      var after := [LF] + (MethodsText(methods[1..]) + rest);
      assert all == before + (Printed(methods[0]) + after);
      NextIsPrinted(methods[0], after, before);
      MethodsAreCounted(methods[1..], rest, [LF]);
    }
  }

  // ---- markers that a hand wrote

  predicate AreBlanks(s: Text) { forall c :: c in s ==> c == 0x20 || c == 0x09 }

  /** The word markdown, its letters small or capital. */
  predicate SaysMarkdown(w: Text) {
    |w| == 8 && forall k :: 0 <= k < 8 ==>
      w[k] == Units("markdown")[k] || w[k] == Units("MARKDOWN")[k]
  }

  lemma LettersOfMarkdown(w: Text)
    requires SaysMarkdown(w)
    ensures SameIgnoringCase(w, MARKDOWN_WORD) && !IsBlank(w[0])
  {
    var a, b := Units("markdown"), Units("MARKDOWN");
    assert a[0] == 0x6D && a[1] == 0x61 && a[2] == 0x72 && a[3] == 0x6B && a[4] == 0x64 && a[5] == 0x6F;
    assert a[6] == 0x77 && a[7] == 0x6E;
    assert b[0] == 0x4D && b[1] == 0x41 && b[2] == 0x52 && b[3] == 0x4B && b[4] == 0x44 && b[5] == 0x4F;
    assert b[6] == 0x57 && b[7] == 0x4E;
    forall k | 0 <= k < 8 ensures Lower(w[k]) == MARKDOWN_WORD[k] {
      assert k in {0, 1, 2, 3, 4, 5, 6, 7};
    }
  }

  lemma BlanksPass(s: Text, before: Text, blanks: Text, rest: Text)
    requires s == before + blanks + rest && AreBlanks(blanks) && rest != [] && !IsBlank(rest[0])
    ensures AfterBlanks(s, |before|) == |before| + |blanks|
  {
    forall j | |before| <= j < |before| + |blanks| ensures IsBlank(s[j]) {
      assert s[j] == blanks[j - |before|] && blanks[j - |before|] in blanks;
    }
    assert s[|before| + |blanks|] == rest[0];
    BlanksEnd(s, |before|, |before| + |blanks|);
  }

  /** The first half of such a marker, up to its word. */
  lemma MarkerBegins(a: Text, b: Text, w: Text, rest: Text)
    requires AreBlanks(a) && AreBlanks(b) && w != [] && !IsBlank(w[0])
    ensures var s := PERCENTS + a + [0x5B] + b + (w + rest);
      && s[..2] == PERCENTS && AfterBlanks(s, 2) == 2 + |a| && s[2 + |a|] == 0x5B
      && AfterBlanks(s, 3 + |a|) == 3 + |a| + |b|
  {
    hide AfterBlanks, Units;
    var s := PERCENTS + a + [0x5B] + b + (w + rest);
    assert s == PERCENTS + a + ([0x5B] + b + (w + rest));
    BlanksPass(s, PERCENTS, a, [0x5B] + b + (w + rest));
    BlanksPass(s, PERCENTS + a + [0x5B], b, w + rest);
  }

  /** The second half, behind its word. */
  lemma MarkerEnds(pre: Text, c: Text, d: Text, rest: Text)
    requires AreBlanks(c) && AreBlanks(d)
    ensures var s := pre + c + [0x5D] + d + ([LF] + rest);
      && AfterBlanks(s, |pre|) == |pre| + |c| && s[|pre| + |c|] == 0x5D
      && AfterBlanks(s, |pre| + |c| + 1) == |pre| + |c| + 1 + |d| && s[|pre| + |c| + 1 + |d|] == LF
  {
    hide AfterBlanks, Units;
    var s := pre + c + [0x5D] + d + ([LF] + rest);
    assert s == pre + c + ([0x5D] + d + ([LF] + rest));
    BlanksPass(s, pre, c, [0x5D] + d + ([LF] + rest));
    BlanksPass(s, pre + c + [0x5D], d, [LF] + rest);
  }

  /** A marker with blanks before and in its brackets, and in letters of either case, is one; the line that it
      stands on belongs to it. */
  lemma AnyMarkerIsOne(a: Text, b: Text, w: Text, c: Text, d: Text, rest: Text)
    requires AreBlanks(a) && AreBlanks(b) && AreBlanks(c) && AreBlanks(d) && SaysMarkdown(w)
    ensures var mark := Units("%%") + a + [0x5B] + b + w + c + [0x5D] + d + [LF];
      MarkdownMark(mark + rest) == |mark|
  {
    hide SaysMarkdown, SameIgnoringCase, AfterBlanks, Units, AreBlanks;
    LettersOfMarkdown(w);
    var front := PERCENTS + a + [0x5B] + b;
    var back := c + [0x5D] + d + [LF] + rest;
    var s := front + w + c + [0x5D] + d + [LF] + rest;
    MarkerBegins(a, b, w, back);
    assert s == front + (w + back);
    MarkerEnds(front + w, c, d, rest);
    assert s == front + w + c + [0x5D] + d + ([LF] + rest);
    assert s[|front|..|front| + 8] == w;
  }

  // ---- sections and what is left out

  /** A word stands in a text, where a word may begin, and where one may end when it must be whole. */
  predicate StandsAt(s: Text, w: Text, whole: bool, k: nat) {
    && k + |w| <= |s| && s[k..k + |w|] == w && (k == 0 || !IsWordChar(s[k - 1]))
    && (whole ==> k + |w| == |s| || !IsWordChar(s[k + |w|]))
  }

  lemma {:induction false} WordsAreFound(s: Text, w: Text, whole: bool, k: nat)
    requires k <= |s|
    ensures HasWord(s, w, whole, k) <==> exists j :: k <= j && StandsAt(s, w, whole, j)
    decreases |s| - k
  {
    assert StartsWith(s[k..], w) <==> k + |w| <= |s| && s[k..k + |w|] == w;
    if k < |s| {
      WordsAreFound(s, w, whole, k + 1);
    }
    assert (StartsWith(s[k..], w) && (k == 0 || !IsWordChar(s[k - 1]))
            && (whole ==> k + |w| == |s| || !IsWordChar(s[k + |w|]))) == StandsAt(s, w, whole, k);
  }

  /** What a preamble announces: methods, when methodsFor: stands in it; else the comment of a class, when
      commentStamp: does; else an organization, when reorganize does as a whole word. */
  lemma SectionsAreTold(s: Text)
    ensures var methods := exists j :: 0 <= j && StandsAt(s, Units("methodsFor:"), false, j);
      var comment := exists j :: 0 <= j && StandsAt(s, Units("commentStamp:"), false, j);
      var organization := exists j :: 0 <= j && StandsAt(s, Units("reorganize"), true, j);
      SectionOf(s) == if methods then MethodSection else if comment then ClassComment
                      else if organization then Organization else NoSection
  {
    WordsAreFound(s, METHODS_FOR, false, 0);
    WordsAreFound(s, COMMENT_STAMP, false, 0);
    WordsAreFound(s, REORGANIZE, true, 0);
    hide HasWord, StandsAt, Units;
  }

  /** The reading of one preamble and of what it announces. */
  lemma ReadsPreamble(pre: Text, after: Text, acc: Read)
    requires pre != [] && !IsSpace(pre[0]) && pre[0] != BANG && (after == [] || after[0] != BANG)
    ensures var p := Printed(pre) + after;
      && NextChunk(p) == (pre, after)
      && ReadAll([BANG] + p, acc) == ReadAll(AfterPreamble(p, acc).0, AfterPreamble(p, acc).1)
  {
    hide AfterPreamble, Printed, NextChunk, WithDoIt;
    var p := Printed(pre) + after;
    var t := [BANG] + p;
    RunIs(t, IsSpace, 0);
    assert t[0..] == t && t[1..] == p;
    NextIsPrinted(pre, after, []);
    assert [] + p == p;
  }

  /** A section of methods, in the midst of other chunks, is read over, each method counted. */
  lemma AMethodSectionIsLeftOut(pre: Text, methods: seq<Text>, rest: Text, acc: Read)
    requires pre != [] && !IsSpace(pre[0]) && pre[0] != BANG && SectionOf(pre) == MethodSection
    requires forall k :: 0 <= k < |methods| ==> methods[k] != [] && !IsSpace(methods[k][0]) && methods[k][0] != BANG
    requires rest == [] || rest[0] != BANG
    ensures ReadAll([BANG] + (Printed(pre) + ([LF] + (MethodsText(methods) + rest))), acc) ==
      ReadAll(rest, acc.(methodDefinitions := acc.methodDefinitions + |methods|))
  {
    hide SectionOf, Printed, NextChunk, Methods, ReadAll, MethodsText;
    MethodsAreCounted(methods, rest, [LF]);
    ReadsPreamble(pre, [LF] + (MethodsText(methods) + rest), acc);
  }

  /** So is the comment of a class, whatever it says. */
  lemma AClassCommentIsLeftOut(pre: Text, comment: Text, rest: Text, acc: Read)
    requires pre != [] && !IsSpace(pre[0]) && pre[0] != BANG && SectionOf(pre) == ClassComment
    requires comment != [] && !IsSpace(comment[0]) && comment[0] != BANG && (rest == [] || rest[0] != BANG)
    ensures ReadAll([BANG] + (Printed(pre) + ([LF] + (Printed(comment) + rest))), acc) ==
      ReadAll(rest, acc.(comments := acc.comments + 1))
  {
    hide SectionOf, Printed, NextChunk, Methods, ReadAll;
    NextIsPrinted(comment, rest, [LF]);
    ReadsPreamble(pre, [LF] + (Printed(comment) + rest), acc);
  }

  /** Only in front of all cells is a title one, and only the first. */
  lemma ALaterTitleIsACell(title: Text, acc: Read)
    requires acc.cells != [] || acc.title != []
    ensures WithDoIt(HeadChunk(title), acc) == acc.(cells := acc.cells + [CellOf(HeadChunk(title))])
  {
    hide TitleOf, CellOf, JsTrim, HeadChunk;
    HeadIsQuoted(title);
    NotBlank(HeadChunk(title));
  }

  lemma UnitsConcat(a: string, b: string)
    ensures Units(a + b) == Units(a) + Units(b)
  {}

  /** The warning counts the methods and the class comments left out, each kind named when there is one; with
      nothing left out there is none. */
  lemma TheWarningSays(m: nat, c: nat)
    ensures var methods := Decimal(m) + Units(if m == 1 then " method definition" else " method definitions");
      var comments := Decimal(c) + Units(if c == 1 then " class comment" else " class comments");
      Warnings(m, c) ==
        if m == 0 && c == 0 then []
        else if c == 0 then [methods + Units(if m == 1 then " was" else " were") + LEFT_OUT]
        else if m == 0 then [comments + Units(if c == 1 then " was" else " were") + LEFT_OUT]
        else [methods + Units(" and ") + comments + Units(" were") + LEFT_OUT]
  {
    if m > 0 {
      MethodsAreNamed(m);
    }
    if c > 0 {
      CommentsAreNamed(c);
    }
    hide Units, Plural, Decimal, Joined;
    TwoJoined(Plural(m, METHOD_DEFINITION), Plural(c, CLASS_COMMENT), Units(" and "));
  }

  lemma MethodsAreNamed(m: nat)
    requires m > 0
    ensures Plural(m, METHOD_DEFINITION) ==
      Decimal(m) + Units(if m == 1 then " method definition" else " method definitions")
  {
    hide Decimal;
    UnitsConcat(" ", "method definition");
    UnitsConcat(" method definition", "s");
    assert Units(" ") == [SPACE] && Units("s") == [0x73];
    assert " " + "method definition" == " method definition" && " method definition" + "s" == " method definitions";
    hide Units;
  }

  lemma CommentsAreNamed(c: nat)
    requires c > 0
    ensures Plural(c, CLASS_COMMENT) == Decimal(c) + Units(if c == 1 then " class comment" else " class comments")
  {
    hide Decimal;
    UnitsConcat(" ", "class comment");
    UnitsConcat(" class comment", "s");
    assert Units(" ") == [SPACE] && Units("s") == [0x73];
    assert " " + "class comment" == " class comment" && " class comment" + "s" == " class comments";
    hide Units;
  }

  lemma TwoJoined(a: Text, b: Text, sep: Text)
    ensures Joined([a] + [b], sep) == a + sep + b && Joined([a] + [], sep) == a && Joined([] + [b], sep) == b
  {
    assert ([a] + [b])[1..] == [b];
    assert [a] + [] == [a] && [] + [b] == [b];
  }

  // ---- what is printed, to the last character

  /** A cell between two line feeds, behind its marker: the " of a Markdown cell doubled, and every !. */
  function CellPrinted(c: Cell): Text {
    [LF] + (if c.markdown then
              Units("\"%% [markdown]\n") + Doubled(Doubled(Lines(c.source), QUOTE), BANG) + Units("\"!")
            else Units("\"%%\"\n") + Doubled(Lines(c.source), BANG) + Units("!"))
    + [LF]
  }

  function CellsPrinted(cells: seq<Cell>): Text {
    if cells == [] then [] else CellPrinted(cells[0]) + CellsPrinted(cells[1..])
  }

  lemma MarksAreThese()
    ensures Units("\"%% [markdown]\n") == [QUOTE] + MARKDOWN && Units("\"%%\"\n") == CODE_MARK
    ensures Units("\"Pharo notebook: ") == [QUOTE] + TITLE_PREFIX
    ensures BANG !in TITLE_PREFIX && QUOTE !in TITLE_PREFIX
    ensures Units("\"!") == [QUOTE, BANG] && Units("!") == [BANG] && Units("\"!\n") == [QUOTE, BANG] + [LF]
  {
    EndsAreThese();
  }

  lemma EndsAreThese()
    ensures Units("\"!") == [QUOTE, BANG] && Units("!") == [BANG] && Units("\"!\n") == [QUOTE, BANG] + [LF]
  {
    assert Units("\"")[0] == QUOTE && Units("!")[0] == BANG;
    assert Units("\"!")[0] == QUOTE && Units("\"!")[1] == BANG;
    assert Units("\"!\n")[0] == QUOTE && Units("\"!\n")[1] == BANG && Units("\"!\n")[2] == LF;
  }

  lemma CellIsPrinted(c: Cell)
    ensures [LF] + Printed(CellChunk(c)) + [LF] == CellPrinted(c)
  {
    hide Doubled, Lines, Units;
    MarksAreThese();
    assert Printed(CellChunk(c)) == CellPart(c);
  }

  lemma {:induction false} CellsArePrinted(cells: seq<Cell>)
    ensures CellsText(cells) == CellsPrinted(cells)
  {
    hide Printed, CellChunk, CellPrinted;
    if cells != [] {
      CellIsPrinted(cells[0]);
      CellsArePrinted(cells[1..]);
    }
  }

  lemma WhatIsPrinted(nb: Notebook)
    ensures ToStText(nb) ==
      Units("\"Pharo notebook: ") + Doubled(Doubled(TitleLine(nb.title), QUOTE), BANG) + Units("\"!\n") +
      CellsPrinted(nb.cells)
  {
    hide Doubled, TitleLine, CellsText, CellsPrinted, Units;
    MarksAreThese();
    PrintedQuoted(TITLE_PREFIX, TitleLine(nb.title));
    CellsArePrinted(nb.cells);
    var d := Doubled(Doubled(TitleLine(nb.title), QUOTE), BANG);
    assert [QUOTE] + TITLE_PREFIX + d + [QUOTE, BANG] + [LF] == [QUOTE] + TITLE_PREFIX + d + ([QUOTE, BANG] + [LF]);
  }

  /** The units that are no white space. */
  function Letters(s: Text): Text {
    if s == [] then [] else (if IsJsSpace(s[0]) then [] else [s[0]]) + Letters(s[1..])
  }

  lemma {:induction false} LettersConcat(a: Text, b: Text)
    ensures Letters(a + b) == Letters(a) + Letters(b)
  {
    if a == [] {
      assert a + b == b;
    } else {
      assert (a + b)[1..] == a[1..] + b;
      LettersConcat(a[1..], b);
      Associative(if IsJsSpace(a[0]) then [] else [a[0]], Letters(a[1..]), Letters(b));
    }
  }

  lemma {:induction false} NoLetters(s: Text)
    requires forall c :: c in s ==> IsJsSpace(c)
    ensures Letters(s) == []
  {
    if s != [] {
      NoLetters(s[1..]);
    }
  }

  /** A title made one line keeps all that is no white space, in order. */
  lemma {:induction false} OneLineKeepsTheWords(s: Text)
    ensures Letters(OneLine(s)) == Letters(s)
    decreases |s|
  {
    hide IsJsSpace;
    if s != [] {
      if IsJsSpace(s[0]) {
        var k := Run(s, IsJsSpace);
        var head := if LF in s[..k] then [SPACE] else s[..k];
        OneLineKeepsTheWords(s[k..]);
        assert s == s[..k] + s[k..];
        LettersConcat(s[..k], s[k..]);
        LettersConcat(head, OneLine(s[k..]));
        SpacesAreSpaces();
        NoLetters(s[..k]);
        NoLetters(head);
      } else {
        OneLineKeepsTheWords(s[1..]);
        LettersConcat([s[0]], OneLine(s[1..]));
        assert s == [s[0]] + s[1..];
        LettersConcat([s[0]], s[1..]);
      }
    }
  }

  lemma {:induction false} OneLineIsOne(s: Text)
    ensures LF !in OneLine(s)
    decreases |s|
  {
    SpacesAreSpaces();
    hide IsJsSpace;
    if s != [] {
      OneLineIsOne(s[if IsJsSpace(s[0]) then Run(s, IsJsSpace) else 1..]);
    }
  }

  lemma SpacesAreSpaces()
    ensures IsJsSpace(SPACE) && IsJsSpace(LF)
  {}
}
