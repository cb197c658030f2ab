module ChunkRoundTrip {
  // Printing a notebook in the chunk format and reading it back.

  import opened Basics
  import opened CodeUnits
  import opened ChunkText
  import opened ChunkFormat

  /** The form that a round trip gives a cell and a title. */
  function NormalCell(c: Cell): Cell { Cell(c.markdown, TrimBlankLines(Lines(c.source))) }

  function NormalCells(cells: seq<Cell>): (r: seq<Cell>)
    ensures |r| == |cells| && forall i :: 0 <= i < |cells| ==> r[i] == NormalCell(cells[i])
  {
    if cells == [] then [] else [NormalCell(cells[0])] + NormalCells(cells[1..])
  }

  function NormalTitle(title: Text): Text { Cut(JsTrim(TitleLine(title))) }

  /** One character of a printed chunk. */
  lemma ReadsOneCharacter(c: Unit, more: Text)
    ensures ChunkBody((if c == BANG then [BANG, BANG] else [c]) + more) == ([c] + ChunkBody(more).0, ChunkBody(more).1)
  {
    hide ChunkBody;
    if c == BANG {
      BodyAtBang([BANG, BANG] + more);
      assert ([BANG, BANG] + more)[2..] == more;
    } else {
      BodyAfterPlain([c], more);
    }
  }

  /** A printed chunk reads back as it was, whatever ! it holds, at its end too. */
  lemma {:induction false} ChunkReadsBack(s: Text, rest: Text)
    requires rest == [] || rest[0] != BANG
    ensures ChunkBody(Printed(s) + rest) == (s, rest)
  {
    hide *;
    if s == [] {
      PrintedOfNone();
      BodyAtBang([BANG] + rest);
      assert ([BANG] + rest)[1..] == rest;
    } else {
      var first, more := if s[0] == BANG then [BANG, BANG] else [s[0]], Printed(s[1..]);
      ChunkReadsBack(s[1..], rest);
      PrintedFirst(s);
      ReadsOneCharacter(s[0], more + rest);
      Associative(first, more, rest);
      HeadAndTail(s);
    }
  }

  lemma HeadAndTail(s: Text)
    requires s != []
    ensures [s[0]] + s[1..] == s
  {}

  lemma PrintedOfNone()
    ensures Printed([]) == [BANG]
  {}

  lemma PrintedFirst(s: Text)
    requires s != []
    ensures Printed(s) == (if s[0] == BANG then [BANG, BANG] else [s[0]]) + Printed(s[1..])
  {}

  /** The end of a quoted text is found whatever " it holds, doubled, at its end too. */
  lemma {:induction false} QuoteEndsAfter(x: Text, before: Text, rest: Text)
    requires rest == [] || rest[0] != QUOTE
    ensures var s := before + Doubled(x, QUOTE) + [QUOTE] + rest;
      QuoteEnd(s, |before|) == |before| + |Doubled(x, QUOTE)| + 1
    decreases x
  {
    hide Doubled;
    var s := before + Doubled(x, QUOTE) + [QUOTE] + rest;
    var n := |before|;
    if x == [] {
      DoubledNothing();
      assert s[n] == QUOTE && (n + 1 < |s| ==> s[n + 1] == rest[0]);
    } else {
      var first, more := if x[0] == QUOTE then [QUOTE, QUOTE] else [x[0]], Doubled(x[1..], QUOTE);
      DoubledFirst(x);
      QuoteEndsAfter(x[1..], before + first, rest);
      Regroup(before, first, more, [QUOTE], rest);
      assert s[n] == first[0] && (x[0] == QUOTE ==> s[n + 1] == QUOTE);
    }
  }

  lemma DoubledNothing()
    ensures Doubled([], QUOTE) == []
  {}

  lemma DoubledFirst(x: Text)
    requires x != []
    ensures Doubled(x, QUOTE) == (if x[0] == QUOTE then [QUOTE, QUOTE] else [x[0]]) + Doubled(x[1..], QUOTE)
  {}

  lemma Regroup(a: Text, b: Text, c: Text, d: Text, e: Text)
    ensures a + (b + c) + d + e == (a + b) + c + d + e
  {}

  lemma QuotedEnds(x: Text, rest: Text)
    requires rest == [] || rest[0] != QUOTE
    ensures var s := [QUOTE] + Doubled(x, QUOTE) + [QUOTE] + rest;
      CommentEnd(s) == |Doubled(x, QUOTE)| + 2 && s[1..CommentEnd(s) - 1] == Doubled(x, QUOTE) &&
        s[CommentEnd(s)..] == rest
  {
    QuoteEndsAfter(x, [QUOTE], rest);
  }

  lemma JsTrimOfBlank(s: Text)
    requires s == []
    ensures JsTrim(s) == []
  {}

  lemma TrimSkipsSpace(s: Text)
    ensures JsTrim([SPACE] + s) == JsTrim(s)
  {
    var t := [SPACE] + s;
    var b := Kept(s, IsJsSpace);
    if b > 0 {
      KeptIs(t, IsJsSpace, b + 1);
      assert t[..b + 1] == [SPACE] + s[..b];
      var k := Run(s[..b], IsJsSpace);
      RunIs(t[..b + 1], IsJsSpace, k + 1);
    } else {
      KeptIs(t, IsJsSpace, 0);
    }
  }

  /** The header chunk gives the title back, trimmed and cut. */
  lemma HeadReadsBack(title: Text)
    ensures TitleOf(HeadChunk(title)) == Some(NormalTitle(title))
  {
    hide Doubled, Undoubled, CommentEnd, TitleLine, Cut, JsTrim;
    var x := TITLE_PREFIX + TitleLine(title);
    var body := HeadChunk(title);
    QuotedEnds(x, []);
    assert body + [] == body;
    DoubledConcat(TITLE_PREFIX, TitleLine(title), QUOTE);
    DoubledStays(TITLE_PREFIX, QUOTE);
    var d := Doubled(TitleLine(title), QUOTE);
    assert Doubled(x, QUOTE) == TITLE_PREFIX + d;
    HeadOf(d);
    UndoubledAfterSpace(TitleLine(title));
    TrimSkipsSpace(TitleLine(title));
    JsTrimOfBlank([]);
  }

  lemma HeadOf(d: Text)
    ensures var body := [QUOTE] + (TITLE_PREFIX + d) + [QUOTE];
      |HEAD| < |body| && body[..|HEAD|] == HEAD && body[|HEAD|..|d| + |TITLE_PREFIX| + 1] == [SPACE] + d
  {
    assert HEAD == [QUOTE] + TITLE_PREFIX[..|TITLE_PREFIX| - 1] && TITLE_PREFIX[|TITLE_PREFIX| - 1] == SPACE;
  }

  lemma UndoubledAfterSpace(x: Text)
    ensures Undoubled([SPACE] + Doubled(x, QUOTE)) == [SPACE] + x
  {
    UndoubledDoubled(x);
    assert ([SPACE] + Doubled(x, QUOTE))[1..] == Doubled(x, QUOTE);
  }

  /** The marker that toSt writes is the whole marker that fromSt finds. */
  lemma MarkerFound(rest: Text)
    ensures MarkdownMark(MARKDOWN + rest) == |MARKDOWN|
  {
    hide AfterBlanks, SameIgnoringCase;
    var s := MARKDOWN + rest;
    MarkerParts(rest);
    BlanksEnd(s, 2, 3);
    BlanksEnd(s, 4, 4);
    BlanksEnd(s, 12, 12);
    BlanksEnd(s, 13, 13);
  }

  lemma BlanksEnd(s: Text, i: nat, k: nat)
    requires i <= k < |s| && !IsBlank(s[k]) && forall j :: i <= j < k ==> IsBlank(s[j])
    ensures AfterBlanks(s, i) == k
  {
    RunIs(s[i..], IsBlank, k - i);
  }

  lemma MarkerParts(rest: Text)
    ensures var s := MARKDOWN + rest;
      && |MARKDOWN| == 14 && s[..2] == PERCENTS && s[2] == SPACE && s[3] == LEFT_BRACKET
      && s[12] == RIGHT_BRACKET && s[13] == LF && !IsBlank(s[4]) && SameIgnoringCase(s[4..12], MARKDOWN_WORD)
  {
    assert MARKDOWN[0] == PERCENT && MARKDOWN[1] == PERCENT;
    assert MARKDOWN[4] == 0x6D && MARKDOWN[5] == 0x61 && MARKDOWN[6] == 0x72 && MARKDOWN[7] == 0x6B;
    assert MARKDOWN[8] == 0x64 && MARKDOWN[9] == 0x6F && MARKDOWN[10] == 0x77 && MARKDOWN[11] == 0x6E;
  }

  lemma MarkdownReadsBack(c: Cell)
    requires c.markdown
    ensures CellOf(CellChunk(c)) == NormalCell(c)
  {
    hide Doubled, Undoubled, CommentEnd, JsTrim, MarkdownMark, TrimBlankLines, Lines;
    var src := Lines(c.source);
    var body := CellChunk(c);
    QuotedEnds(MARKDOWN + src, []);
    JsTrimOfBlank([]);
    assert body + [] == body;
    DoubledConcat(MARKDOWN, src, QUOTE);
    DoubledStays(MARKDOWN, QUOTE);
    var d := Doubled(src, QUOTE);
    var text := MARKDOWN + d;
    assert body[1..CommentEnd(body) - 1] == text && body[CommentEnd(body)..] == [];
    assert body[..3] == QUOTED_PERCENTS;
    MarkerFound(d);
    assert text[|MARKDOWN|..] == d;
    UndoubledDoubled(src);
  }

  lemma CodeReadsBack(c: Cell)
    requires !c.markdown
    ensures CellOf(CellChunk(c)) == NormalCell(c)
  {
    hide Lines, TrimBlankLines, Doubled, CommentEnd;
    var src := Lines(c.source);
    var body := CellChunk(c);
    var rest := [LF] + src;
    DoubledStays(PERCENTS, QUOTE);
    QuotedEnds(PERCENTS, rest);
    assert body == [QUOTE] + PERCENTS + [QUOTE] + rest;
    assert body[1..CommentEnd(body) - 1] == PERCENTS && body[CommentEnd(body)..] == rest;
    assert body[..3] == QUOTED_PERCENTS;
    assert MarkdownMark(PERCENTS) == -1;
    RunIs(rest[0..], IsBlank, 0);
    assert AfterMarker(rest) == src;
  }

  lemma SpaceBeforeQuote(s: Text)
    requires s != [] && s[0] == QUOTE
    ensures Skip([LF] + s) == s
  {
    RunIs([LF] + s, IsSpace, 1);
  }

  lemma PrintedStarts(chunk: Text)
    requires chunk != [] && chunk[0] == QUOTE
    ensures Printed(chunk) != [] && Printed(chunk)[0] == QUOTE
  {}

  lemma CellChunkStarts(c: Cell)
    ensures var b := CellChunk(c); b != [] && b[0] == QUOTE && TitleOf(b) == None && JsTrim(b) != []
  {
    hide JsTrim, CommentEnd;
    var b := CellChunk(c);
    SecondIsPercent(c);
    assert HEAD[1] == 0x50;
    assert |b| >= |HEAD| ==> b[..|HEAD|][1] == b[1];
    NotBlank(b);
  }

  lemma SecondIsPercent(c: Cell)
    ensures |CellChunk(c)| > 1 && CellChunk(c)[0] == QUOTE && CellChunk(c)[1] == PERCENT
  {
    hide Lines;
    var src := MARKDOWN + Lines(c.source);
    assert src[0] == PERCENT;
    assert Doubled(src, QUOTE)[0] == PERCENT;
  }

  lemma NotBlank(s: Text)
    requires s != [] && s[0] == QUOTE
    ensures JsTrim(s) != []
  {
    assert Kept(s, IsJsSpace) > 0;
  }

  /** What is no title and not blank is a cell. */
  lemma PlainDoIt(chunk: Text, acc: Read)
    requires TitleOf(chunk) == None && JsTrim(chunk) != []
    ensures WithDoIt(chunk, acc) == acc.(cells := acc.cells + [CellOf(chunk)])
  {
    hide TitleOf, CellOf, JsTrim;
  }

  /** One step of the reader over a printed chunk. */
  lemma ReadsPrinted(chunk: Text, rest: Text, acc: Read)
    requires chunk != [] && chunk[0] == QUOTE && rest != [] && rest[0] == LF
    ensures ReadAll([LF] + Printed(chunk) + rest, acc) == ReadAll(rest, WithDoIt(chunk, acc))
    ensures ReadAll(Printed(chunk) + rest, acc) == ReadAll(rest, WithDoIt(chunk, acc))
  {
    hide WithDoIt, Printed;
    PrintedStarts(chunk);
    var p := Printed(chunk) + rest;
    SpaceBeforeQuote(p);
    assert [LF] + Printed(chunk) + rest == [LF] + p;
    ChunkReadsBack(chunk, rest);
    RunIs(p, IsSpace, 0);
    assert Skip(p) == p;
  }

  lemma ReadsBlankLine(rest: Text, acc: Read)
    ensures ReadAll([LF] + rest, acc) == ReadAll(rest, acc)
  {
    hide WithDoIt, AfterPreamble, ChunkBody;
    var k := Run(rest, IsSpace);
    RunIs([LF] + rest, IsSpace, k + 1);
    assert ([LF] + rest)[k + 1..] == rest[k..];
  }

  lemma ReadsNothing(acc: Read)
    ensures ReadAll([], acc) == acc && ReadAll([LF], acc) == acc
  {
    RunIs([LF], IsSpace, 1);
  }

  lemma {:induction false} CellsReadBack(cells: seq<Cell>, acc: Read)
    ensures ReadAll(CellsText(cells), acc) == acc.(cells := acc.cells + NormalCells(cells))
    decreases |cells|
  {
    hide *;
    if cells == [] {
      NoCells(acc);
    } else {
      var first := NormalCell(cells[0]);
      CellsReadBack(cells[1..], acc.(cells := acc.cells + [first]));
      FirstCellReadsBack(cells, acc);
      NormalCellsFirst(cells);
      Associative(acc.cells, [first], NormalCells(cells[1..]));
    }
  }

  lemma NoCells(acc: Read)
    ensures ReadAll(CellsText([]), acc) == acc.(cells := acc.cells + NormalCells([]))
  {
    ReadsNothing(acc);
    assert acc.cells + NormalCells([]) == acc.cells;
  }

  lemma NormalCellsFirst(cells: seq<Cell>)
    requires cells != []
    ensures NormalCells(cells) == [NormalCell(cells[0])] + NormalCells(cells[1..])
  {}

  lemma FirstCellReadsBack(cells: seq<Cell>, acc: Read)
    requires cells != []
    ensures ReadAll(CellsText(cells), acc)
         == ReadAll(CellsText(cells[1..]), acc.(cells := acc.cells + [NormalCell(cells[0])]))
  {
    hide WithDoIt, Printed, CellChunk, CellOf, ReadAll, NormalCell, TitleOf, JsTrim;
    var chunk := CellChunk(cells[0]);
    var rest := [LF] + CellsText(cells[1..]);
    CellChunkStarts(cells[0]);
    if cells[0].markdown { MarkdownReadsBack(cells[0]); } else { CodeReadsBack(cells[0]); }
    PlainDoIt(chunk, acc);
    ReadsPrinted(chunk, rest, acc);
    assert CellsText(cells) == [LF] + Printed(chunk) + rest;
    ReadsBlankLine(CellsText(cells[1..]), acc.(cells := acc.cells + [NormalCell(cells[0])]));
  }

  /** No carriage return is printed, so that line ends may be changed on the way. */
  lemma {:induction false} CellsTextHasNoCr(cells: seq<Cell>)
    ensures CR !in CellsText(cells)
  {
    if cells != [] {
      CellsTextHasNoCr(cells[1..]);
      ChunkHasNoCr(cells[0]);
    }
  }

  lemma ChunkHasNoCr(c: Cell)
    ensures CR !in Printed(CellChunk(c))
  {
    DoubledHasNo(MARKDOWN + Lines(c.source), QUOTE, CR);
    DoubledHasNo(CellChunk(c), BANG, CR);
  }

  lemma TextHasNoCr(nb: Notebook)
    ensures CR !in ToStText(nb)
  {
    hide Doubled, TitleLine, CellsText;
    CellsTextHasNoCr(nb.cells);
    TitleLineHasNoCr(nb.title);
    DoubledHasNo(TITLE_PREFIX + TitleLine(nb.title), QUOTE, CR);
    DoubledHasNo(HeadChunk(nb.title), BANG, CR);
  }

  lemma TitleLineHasNoCr(title: Text)
    ensures CR !in TITLE_PREFIX + TitleLine(title)
  {
    hide OneLine, Lines;
  }

  /** A printed notebook reads back: the same cells in order and of the same type, each source in
      its normal form, the title trimmed and cut to 200 code units, and no warnings, whatever ! and "
      the sources hold. */
  lemma RoundTrip(nb: Notebook)
    ensures FromStText(ToStText(nb)) == Answer(NormalTitle(nb.title), NormalCells(nb.cells), [])
  {
    hide ReadText, ToStText, NormalTitle;
    PrintedReads(nb);
  }

  lemma PrintedReads(nb: Notebook)
    ensures ReadText(ToStText(nb)) == Read(NormalTitle(nb.title), NormalCells(nb.cells), 0, 0)
  {
    hide Printed, CellsText, NormalTitle, ReadAll, NormalCells, ToStText, Lines, WithoutBom;
    TextHasNoCr(nb);
    LinesStays(ToStText(nb));
    ReadsHead(nb);
    PrintedHasNoBom(nb);
    var titled := NOTHING.(title := NormalTitle(nb.title));
    CellsReadBack(nb.cells, titled);
    ReadsBlankLine(CellsText(nb.cells), titled);
    assert titled.cells + NormalCells(nb.cells) == NormalCells(nb.cells);
  }

  lemma PrintedHasNoBom(nb: Notebook)
    ensures WithoutBom(ToStText(nb)) == ToStText(nb)
  {
    hide HeadChunk, Printed, CellsText;
    HeadIsQuoted(nb.title);
    PrintedStarts(HeadChunk(nb.title));
  }

  lemma HeadIsQuoted(title: Text)
    ensures HeadChunk(title) != [] && HeadChunk(title)[0] == QUOTE
  {
    hide Doubled;
  }

  lemma ReadsHead(nb: Notebook)
    ensures ReadAll(ToStText(nb), NOTHING) == ReadAll([LF] + CellsText(nb.cells),
      NOTHING.(title := NormalTitle(nb.title)))
  {
    hide Printed, CellsText, NormalTitle, ReadAll, TitleOf, HeadChunk;
    HeadIsQuoted(nb.title);
    var rest := [LF] + CellsText(nb.cells);
    assert ToStText(nb) == Printed(HeadChunk(nb.title)) + rest;
    ReadsPrinted(HeadChunk(nb.title), rest, NOTHING);
    HeadReadsBack(nb.title);
  }

  /** The same with the line ends of the file changed to CR LF or CR. */
  lemma RoundTripWithEol(nb: Notebook, eol: Text)
    requires eol == [LF] || eol == [CR, LF] || eol == [CR]
    ensures FromStText(WithEol(ToStText(nb), eol)) == Answer(NormalTitle(nb.title), NormalCells(nb.cells), [])
  {
    hide ToStText, WithEol, ReadAll, NormalTitle;
    TextHasNoCr(nb);
    LinesOfEol(ToStText(nb), eol);
    LinesStays(ToStText(nb));
    RoundTrip(nb);
  }

  // ---- a second round trip

  lemma {:induction false} OneLineHasNoLf(s: Text)
    ensures LF !in OneLine(s)
    decreases |s|
  {
    if s != [] {
      if IsJsSpace(s[0]) {
        OneLineHasNoLf(s[Run(s, IsJsSpace)..]);
      } else {
        OneLineHasNoLf(s[1..]);
      }
    }
  }

  /** A cell in normal form stays as it is. */
  lemma NormalCellStays(c: Cell)
    ensures NormalCell(NormalCell(c)) == NormalCell(c)
  {
    hide Lines, TrimBlankLines;
    TrimmedIsNormal(c.markdown, Lines(c.source));
  }

  lemma TrimmedIsPart(s: Text)
    ensures forall c :: c in TrimBlankLines(s) ==> c in s
  {}

  lemma NormalTitleShape(title: Text)
    ensures var u := NormalTitle(title);
      LF !in u && CR !in u && |u| <= TITLE_LENGTH && (u != [] ==> !IsJsSpace(u[0]))
  {
    hide Lines, OneLine, JsTrim;
    var line := Lines(if title == [] then UNTITLED else title);
    OneLineHasNoLf(line);
    JsTrimIsPart(OneLine(line));
  }

  lemma JsTrimIsPart(s: Text)
    ensures forall c :: c in JsTrim(s) ==> c in s
  {}

  lemma JsTrimStays(u: Text)
    requires u != [] && !IsJsSpace(u[0])
    ensures JsTrim(u) == u <==> !IsJsSpace(u[|u| - 1])
  {
    if !IsJsSpace(u[|u| - 1]) {
      KeptIs(u, IsJsSpace, |u|);
      assert u[..|u|] == u;
      RunIs(u, IsJsSpace, 0);
    }
  }

  /** A title survives a second round trip if, and only if, the first one left some of it and
      the cut at 200 did not end it with white space. */
  lemma SecondTripKeepsTitle(title: Text)
    ensures var u := NormalTitle(title);
      NormalTitle(u) == u <==> u != [] && !IsJsSpace(u[|u| - 1])
  {
    hide NormalTitle;
    var u := NormalTitle(title);
    NormalTitleShape(title);
    if u == [] {
      UntitledTitle();
    } else {
      LinesStays(u);
      JsTrimStays(u);
      assert NormalTitle(u) == Cut(JsTrim(u)) by { TitleOfOneLine(u); }
    }
  }

  /** Nothing in the title of a notebook without one is white space. */
  lemma UntitledIsPlain()
    ensures |UNTITLED| == 8 && forall k :: 0 <= k < 8 ==> UNTITLED[k] > SPACE && UNTITLED[k] < 0x80
  {
    assert UNTITLED[0] == 0x55 && UNTITLED[1] == 0x6E && UNTITLED[2] == 0x74 && UNTITLED[3] == 0x69;
    assert UNTITLED[4] == 0x74 && UNTITLED[5] == 0x6C && UNTITLED[6] == 0x65 && UNTITLED[7] == 0x64;
  }

  lemma UntitledTitle()
    ensures NormalTitle([]) == UNTITLED
  {
    hide Lines, OneLine, JsTrim, UNTITLED;
    UntitledIsPlain();
    LinesStays(UNTITLED);
    JsTrimStays(UNTITLED);
  }

  lemma TitleOfOneLine(u: Text)
    requires u != [] && LF !in u && CR !in u
    ensures NormalTitle(u) == Cut(JsTrim(u))
  {
    LinesStays(u);
  }

  // ---- titles that the cut changes

  function Repeated(x: Text, n: nat): (r: Text)
    ensures |r| == |x| * n
  {
    if n == 0 then [] else Repeated(x, n - 1) + x
  }

  /** A title that is one line and has no white space at its ends is only cut. */
  lemma PlainTitle(t: Text)
    requires t != [] && LF !in t && CR !in t && !IsJsSpace(t[0]) && !IsJsSpace(t[|t| - 1])
    ensures NormalTitle(t) == Cut(t)
  {
    hide NormalTitle;
    TitleOfOneLine(t);
    JsTrimStays(t);
  }

  /** Such a title, that a second trip changes: the cut leaves the space of 199 letters and " b". */
  lemma ATitleThatASecondTripChanges()
    ensures var t := seq(199, _ => 0x61) + [SPACE, 0x62];
      NormalTitle(t) == seq(199, _ => 0x61) + [SPACE] && NormalTitle(NormalTitle(t)) != NormalTitle(t)
  {
    hide NormalTitle;
    var a: Text := seq(199, _ => 0x61);
    var t := a + [SPACE, 0x62];
    PlainTitle(t);
    assert t[..TITLE_LENGTH] == a + [SPACE];
    SecondTripKeepsTitle(t);
  }

  /** The cut counts code units: of 101 characters that are surrogate pairs 100 are left. */
  lemma TheCutCountsUnits()
    ensures NormalTitle(Repeated([0xD83D, 0xDE00], 101)) == Repeated([0xD83D, 0xDE00], 100)
  {
    hide NormalTitle;
    var t := Repeated([0xD83D, 0xDE00], 101);
    PairsAreNoSpace(101);
    assert t[0] in t && t[|t| - 1] in t;
    PlainTitle(t);
    assert t == Repeated([0xD83D, 0xDE00], 100) + [0xD83D, 0xDE00];
    assert t[..200] == Repeated([0xD83D, 0xDE00], 100);
  }

  lemma {:induction false} PairsAreNoSpace(n: nat)
    ensures forall x :: x in Repeated([0xD83D, 0xDE00], n) ==> x == 0xD83D || x == 0xDE00
  {
    if n > 0 {
      PairsAreNoSpace(n - 1);
    }
  }

  // ---- texts from elsewhere

  ghost predicate IsNormal(c: Cell) { NormalCell(c) == c }

  ghost predicate AllNormal(cells: seq<Cell>) { forall i :: 0 <= i < |cells| ==> IsNormal(cells[i]) }

  /** What is read is part of the text, but for halved ! and ", so that it has no carriage return either. */
  ghost predicate IsPart(s: Text, t: Text) { forall c :: c in s ==> c in t }

  lemma {:induction false} BodyIsPart(rest: Text)
    ensures IsPart(ChunkBody(rest).0, rest) && IsPart(ChunkBody(rest).1, rest)
  {
    if rest != [] {
      if rest[0] != BANG {
        BodyIsPart(rest[1..]);
      } else if |rest| > 1 && rest[1] == BANG {
        BodyIsPart(rest[2..]);
      }
    }
  }

  lemma NextChunkIsPart(rest: Text)
    ensures IsPart(NextChunk(rest).1, rest)
  {
    hide ChunkBody;
    BodyIsPart(Skip(rest));
  }

  lemma {:induction false} MethodsArePart(rest: Text)
    ensures IsPart(Methods(rest).1, rest)
    decreases |rest|
  {
    hide NextChunk;
    if rest != [] {
      NextChunkIsPart(rest);
      MethodsArePart(NextChunk(rest).1);
    }
  }

  lemma PreambleIsPart(rest: Text, acc: Read)
    ensures IsPart(AfterPreamble(rest, acc).0, rest) && AfterPreamble(rest, acc).1.cells == acc.cells
  {
    hide NextChunk, Methods, SectionOf;
    var after := NextChunk(rest).1;
    NextChunkIsPart(rest);
    NextChunkIsPart(after);
    MethodsArePart(after);
  }

  lemma {:induction false} UndoubledIsPart(s: Text)
    ensures IsPart(Undoubled(s), s)
    decreases |s|
  {
    if |s| >= 2 && s[0] == QUOTE && s[1] == QUOTE {
      UndoubledIsPart(s[2..]);
    } else if s != [] {
      UndoubledIsPart(s[1..]);
    }
  }

  lemma TrimmedIsNormal(markdown: bool, s: Text)
    requires CR !in s
    ensures IsNormal(Cell(markdown, TrimBlankLines(s)))
  {
    hide TrimBlankLines, Lines, IsTrimmed;
    TrimBlankLinesTrims(s);
    TrimmedIsPart(s);
    LinesStays(TrimBlankLines(s));
    TrimmedStays(TrimBlankLines(s));
  }

  lemma CellReadIsNormal(body: Text)
    requires CR !in body
    ensures IsNormal(CellOf(body))
  {
    hide IsNormal, TrimBlankLines, Undoubled, CommentEnd, MarkdownMark, JsTrim;
    TrimmedIsNormal(false, body);
    var end := if body != [] && body[0] == QUOTE then CommentEnd(body) else -1;
    if end > 0 {
      var text, rest := body[1..end - 1], body[end..];
      var mark := MarkdownMark(text);
      TrimmedIsNormal(false, AfterMarker(rest));
      if mark >= 0 {
        UndoubledIsPart(text[mark..]);
        TrimmedIsNormal(true, Undoubled(text[mark..]));
      }
    }
  }

  lemma DoItIsNormal(body: Text, acc: Read)
    requires CR !in body && AllNormal(acc.cells)
    ensures AllNormal(WithDoIt(body, acc).cells)
  {
    hide IsNormal, CellOf, TitleOf, JsTrim;
    CellReadIsNormal(body);
  }

  /** Every cell read from a text without carriage returns is in normal form. */
  lemma {:induction false} CellsReadAreNormal(rest: Text, acc: Read)
    requires CR !in rest && AllNormal(acc.cells)
    ensures AllNormal(ReadAll(rest, acc).cells)
    decreases |rest|
  {
    hide AllNormal, AfterPreamble, ChunkBody, WithDoIt, Run;
    var r := Skip(rest);
    if r != [] && r[0] == BANG {
      PreambleIsPart(r[1..], acc);
      var (after, got) := AfterPreamble(r[1..], acc);
      CellsReadAreNormal(after, got);
    } else if r != [] {
      BodyIsPart(r);
      var (body, after) := ChunkBody(r);
      DoItIsNormal(body, acc);
      CellsReadAreNormal(after, WithDoIt(body, acc));
    }
  }

  lemma {:induction false} NormalCellsStay(cells: seq<Cell>)
    requires AllNormal(cells)
    ensures NormalCells(cells) == cells
  {
    hide NormalCell;
    assert forall i :: 0 <= i < |cells| ==> IsNormal(cells[i]);
  }

  /** Whatever .st text is read, printed by Pharo, by hand or by toSt: the cells of the notebook read
      survive every further round trip. */
  lemma SecondTripKeepsCells(text: Text)
    ensures var a := FromStText(text);
      FromStText(ToStText(Notebook(a.title, a.cells))).cells == a.cells
  {
    hide ToStText, ReadAll, NormalCells, AllNormal, Lines;
    var a := FromStText(text);
    NoneIsNormal();
    CellsReadAreNormal(WithoutBom(Lines(text)), NOTHING);
    NormalCellsStay(a.cells);
    RoundTrip(Notebook(a.title, a.cells));
  }

  lemma NoneIsNormal()
    ensures AllNormal([])
  {}
}
