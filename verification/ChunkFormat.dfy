/** The printer and the parser of notebooks in the chunk format of Smalltalk
    (toSt and fromSt of packaging/emscripten/web/notebook-st.js). The functions
    say what is printed and read, on the text that is left; the methods, with
    their loops over indices into the text, come after the functions that they
    compute. */
module ChunkFormat {
  import opened Basics
  import opened CodeUnits
  import opened ChunkText

  datatype Cell = Cell(markdown: bool, source: Text)
  datatype Notebook = Notebook(title: Text, cells: seq<Cell>)

  /** What fromSt answers. */
  datatype Answer = Answer(title: Text, cells: seq<Cell>, warnings: seq<Text>)

  /** What it has read so far, and how many definitions it left out. */
  datatype Read = Read(title: Text, cells: seq<Cell>, methodDefinitions: nat, comments: nat)

  const HEAD: Text := Units("\"Pharo notebook:")
  const MARKDOWN: Text := Units("%% [markdown]\n")
  const MARKDOWN_WORD: Text := Units("markdown")
  const PERCENTS: Text := Units("%%")
  const QUOTED_PERCENTS: Text := Units("\"%%")
  const CODE_MARK: Text := Units("\"%%\"\n")
  const TITLE_PREFIX: Text := Units("Pharo notebook: ")
  const UNTITLED: Text := Units("Untitled")
  const METHODS_FOR: Text := Units("methodsFor:")
  const COMMENT_STAMP: Text := Units("commentStamp:")
  const REORGANIZE: Text := Units("reorganize")
  const TITLE_LENGTH: nat := 200

  // ---- printing

  /** Every run of white space that holds a line feed made one space. */
  function OneLine(s: Text): (r: Text)
    ensures LF !in s ==> r == s
    ensures CR !in s ==> CR !in r
    decreases |s|
  {
    if s == [] then []
    else if IsJsSpace(s[0]) then
      var k := Run(s, IsJsSpace);
      var rest := OneLine(s[k..]);
      assert s == s[..k] + s[k..];
      (if LF in s[..k] then [SPACE] else s[..k]) + rest
    else
      assert s == [s[0]] + s[1..];
      [s[0]] + OneLine(s[1..])
  }

  function TitleLine(title: Text): Text {
    OneLine(Lines(if title == [] then UNTITLED else title))
  }

  /** The chunk of the title, before its ! are doubled. */
  function HeadChunk(title: Text): Text {
    [QUOTE] + Doubled(TITLE_PREFIX + TitleLine(title), QUOTE) + [QUOTE]
  }

  /** The chunk of a cell, before its ! are doubled. */
  function CellChunk(c: Cell): Text {
    if c.markdown then [QUOTE] + Doubled(MARKDOWN + Lines(c.source), QUOTE) + [QUOTE]
    else CODE_MARK + Lines(c.source)
  }

  function Printed(chunk: Text): Text { Doubled(chunk, BANG) + [BANG] }

  function CellsText(cells: seq<Cell>): Text {
    if cells == [] then []
    else [LF] + Printed(CellChunk(cells[0])) + [LF] + CellsText(cells[1..])
  }

  function ToStText(nb: Notebook): Text {
    Printed(HeadChunk(nb.title)) + [LF] + CellsText(nb.cells)
  }

  function Joined(parts: seq<Text>, sep: Text): Text {
    if parts == [] then [] else if |parts| == 1 then parts[0] else parts[0] + sep + Joined(parts[1..], sep)
  }

  lemma {:induction false} JoinedConcat(parts: seq<Text>, more: seq<Text>, sep: Text)
    requires parts != [] && more != []
    ensures Joined(parts + more, sep) == Joined(parts, sep) + sep + Joined(more, sep)
  {
    if |parts| > 1 {
      assert (parts + more)[1..] == parts[1..] + more;
      JoinedConcat(parts[1..], more, sep);
    } else {
      assert (parts + more)[1..] == more;
    }
  }

  lemma {:induction false} CellsTextConcat(x: seq<Cell>, c: Cell)
    ensures CellsText(x + [c]) == CellsText(x) + ([LF] + Printed(CellChunk(c)) + [LF])
  {
    hide Printed, CellChunk;
    var last := [LF] + Printed(CellChunk(c)) + [LF];
    if x == [] {
      assert [c][1..] == [] && x + [c] == [c];
      CellsTextOfNone();
      assert last + [] == [] + last;
    } else {
      var first := [LF] + Printed(CellChunk(x[0])) + [LF];
      assert (x + [c])[1..] == x[1..] + [c];
      CellsTextConcat(x[1..], c);
      Associative(first, CellsText(x[1..]), last);
    }
  }

  /** The header and the markers hold no ! to double. */
  lemma PrintedWithPrefix(prefix: Text, s: Text)
    requires BANG !in prefix
    ensures Printed(prefix + s) == prefix + Doubled(s, BANG) + [BANG]
  {
    DoubledConcat(prefix, s, BANG);
    DoubledStays(prefix, BANG);
  }

  lemma PrintedQuoted(prefix: Text, s: Text)
    requires BANG !in prefix && QUOTE !in prefix
    ensures Printed([QUOTE] + Doubled(prefix + s, QUOTE) + [QUOTE]) ==
      [QUOTE] + prefix + Doubled(Doubled(s, QUOTE), BANG) + [QUOTE, BANG]
  {
    hide Doubled, Printed;
    DoubledConcat(prefix, s, QUOTE);
    DoubledStays(prefix, QUOTE);
    var q, d := Doubled(s, QUOTE), Doubled(Doubled(s, QUOTE), BANG);
    assert [QUOTE] + (prefix + q) + [QUOTE] == ([QUOTE] + prefix) + (q + [QUOTE]);
    PrintedWithPrefix([QUOTE] + prefix, q + [QUOTE]);
    DoubledConcat(q, [QUOTE], BANG);
    DoubledStays([QUOTE], BANG);
    assert (([QUOTE] + prefix) + (d + [QUOTE])) + [BANG] == [QUOTE] + prefix + d + [QUOTE, BANG];
  }

  /** What toSt pushes for a cell: its marker, and its source with the ! doubled (and the " in Markdown). */
  function CellPart(c: Cell): (text: Text)
    ensures text == Printed(CellChunk(c))
  {
    PrintedQuoted(MARKDOWN, Lines(c.source));
    PrintedWithPrefix(CODE_MARK, Lines(c.source));
    if c.markdown then [QUOTE] + MARKDOWN + Doubled(Doubled(Lines(c.source), QUOTE), BANG) + [QUOTE, BANG]
    else CODE_MARK + Doubled(Lines(c.source), BANG) + [BANG]
  }

  lemma JoinedPush(out: seq<Text>, text: Text)
    requires out != []
    ensures Joined(out + [text] + [[]], [LF]) == Joined(out, [LF]) + ([LF] + text + [LF])
  {
    assert out + [text] + [[]] == out + [text, []];
    JoinedConcat(out, [text, []], [LF]);
    assert [text, []][1..] == [[]];
    assert Joined([text, []], [LF]) == text + [LF];
  }

  /** toSt: the parts are pushed one by one and joined by line feeds. */
  method ToSt(nb: Notebook) returns (st: Text)
    ensures st == ToStText(nb)
  {
    hide Joined, Doubled, CellPart, CellChunk, Printed, TitleLine, CellsText;
    var title := TitleLine(nb.title);
    var head := [QUOTE] + TITLE_PREFIX + Doubled(Doubled(title, QUOTE), BANG) + [QUOTE, BANG];
    PrintedQuoted(TITLE_PREFIX, title);
    assert head == Printed(HeadChunk(nb.title));
    var out := [head, []];
    assert Joined(out, [LF]) == head + [LF] by { JoinedHead(head); }
    CellsTextOfNone();
    for i := 0 to |nb.cells|
      invariant out != []
      invariant Joined(out, [LF]) == head + [LF] + CellsText(nb.cells[..i])
    {
      var text := CellPart(nb.cells[i]);
      JoinedPush(out, text);
      CellsTextConcat(nb.cells[..i], nb.cells[i]);
      assert nb.cells[..i + 1] == nb.cells[..i] + [nb.cells[i]];
      out := out + [text] + [[]];
    }
    st := Joined(out, [LF]);
    assert nb.cells[..|nb.cells|] == nb.cells;
  }

  lemma JoinedHead(head: Text)
    ensures Joined([head, []], [LF]) == head + [LF]
  {
    assert [head, []][1..] == [[]];
    assert head + [LF] + [] == head + [LF];
  }

  lemma CellsTextOfNone()
    ensures CellsText([]) == []
  {}

  // ---- parsing

  /** Splits rest at the first ! that is not doubled: what stands before it, undoubled, and what follows. */
  function ChunkBody(rest: Text): (r: (Text, Text))
    ensures |r.1| <= |rest| && (rest != [] ==> |r.1| < |rest|)
    ensures r.1 == rest[|rest| - |r.1|..]
  {
    if rest == [] then ([], [])
    else if rest[0] != BANG then
      var (s, after) := ChunkBody(rest[1..]);
      ([rest[0]] + s, after)
    else if |rest| > 1 && rest[1] == BANG then
      var (s, after) := ChunkBody(rest[2..]);
      ([BANG] + s, after)
    else ([], rest[1..])
  }

  function NextChunk(rest: Text): (r: (Text, Text))
    ensures |r.1| <= |rest| && (rest != [] ==> |r.1| < |rest|)
  {
    ChunkBody(Skip(rest))
  }

  /** Inside a comment, at j: the index behind the quote that closes it; -1 if none does. */
  function QuoteEnd(s: Text, j: nat): (end: int)
    requires j <= |s|
    ensures end == -1 || j < end <= |s|
    decreases |s| - j
  {
    if j == |s| then -1
    else if s[j] != QUOTE then QuoteEnd(s, j + 1)
    else if j + 1 < |s| && s[j + 1] == QUOTE then QuoteEnd(s, j + 2)
    else j + 1
  }

  function CommentEnd(s: Text): (end: int)
    requires s != []
    ensures end == -1 || 1 < end <= |s|
  {
    QuoteEnd(s, 1)
  }

  predicate StartsWith(s: Text, w: Text) { |w| <= |s| && s[..|w|] == w }

  predicate IsBlank(c: Unit) { c == SPACE || c == TAB }

  function Lower(c: Unit): Unit { if IsUpper(c) then c + 0x20 else c }

  predicate SameIgnoringCase(s: Text, w: Text) {
    |s| == |w| && forall k :: 0 <= k < |s| ==> Lower(s[k]) == w[k]
  }

  function AfterBlanks(s: Text, k: nat): (r: nat)
    requires k <= |s|
    ensures k <= r <= |s|
  {
    k + Run(s[k..], IsBlank)
  }

  /** The length of the marker of a Markdown cell at the start of s (%% [markdown], its blanks
      and a line feed), or -1. */
  function MarkdownMark(s: Text): (r: int)
    ensures r <= |s|
  {
    if !StartsWith(s, PERCENTS) then -1
    else
      var a := AfterBlanks(s, 2);
      if a == |s| || s[a] != LEFT_BRACKET then -1
      else
        var b := AfterBlanks(s, a + 1);
        if b + 8 > |s| || !SameIgnoringCase(s[b..b + 8], MARKDOWN_WORD) then -1
        else
          var c := AfterBlanks(s, b + 8);
          if c == |s| || s[c] != RIGHT_BRACKET then -1
          else
            var d := AfterBlanks(s, c + 1);
            if d < |s| && s[d] == LF then d + 1 else d
  }

  /** A code cell's text after its marker: without the blanks and the line feed that end the marker. */
  function AfterMarker(s: Text): Text {
    var k := AfterBlanks(s, 0);
    if k < |s| && s[k] == LF then s[k + 1..] else s[k..]
  }

  function CellOf(body: Text): Cell {
    var end := if body != [] && body[0] == QUOTE then CommentEnd(body) else -1;
    if end > 0 && StartsWith(body, QUOTED_PERCENTS) then
      var text, rest := body[1..end - 1], body[end..];
      var mark := MarkdownMark(text);
      if mark >= 0 && JsTrim(rest) == [] then Cell(true, TrimBlankLines(Undoubled(text[mark..])))
      else if mark < 0 then Cell(false, TrimBlankLines(AfterMarker(rest)))
      else Cell(false, TrimBlankLines(body))
    else Cell(false, TrimBlankLines(body))
  }

  predicate IsWordChar(c: Unit) { IsLower(c) || IsUpper(c) || IsDigit(c) || c == UNDERSCORE }

  /** w stands in s, at or after k, at the start of a word (and at the end of one when whole). */
  predicate HasWord(s: Text, w: Text, whole: bool, k: nat)
    requires k <= |s|
    decreases |s| - k
  {
    || (StartsWith(s[k..], w) && (k == 0 || !IsWordChar(s[k - 1]))
        && (whole ==> k + |w| == |s| || !IsWordChar(s[k + |w|])))
    || (k < |s| && HasWord(s, w, whole, k + 1))
  }

  /** Counts the chunks that stand before the first empty one, and leaves the text behind that. */
  function Methods(rest: Text): (r: (nat, Text))
    ensures |r.1| <= |rest|
    decreases |rest|
  {
    if rest == [] then (0, rest)
    else
      var (body, after) := NextChunk(rest);
      if body == [] then (0, after)
      else
        var (m, end) := Methods(after);
        (m + 1, end)
  }

  function Cut(s: Text): Text { if |s| <= TITLE_LENGTH then s else s[..TITLE_LENGTH] }

  /** The title in a chunk that begins as the header does, or None when it is no header. */
  function TitleOf(body: Text): Option<Text> {
    if !StartsWith(body, HEAD) then None
    else
      var end := CommentEnd(body);
      if end > 0 && JsTrim(body[end..]) == [] then
        Some(Cut(JsTrim(Undoubled(if |HEAD| <= end - 1 then body[|HEAD|..end - 1] else []))))
      else None
  }

  datatype Section = MethodSection | ClassComment | Organization | NoSection

  function SectionOf(preamble: Text): Section {
    if HasWord(preamble, METHODS_FOR, false, 0) then MethodSection
    else if HasWord(preamble, COMMENT_STAMP, false, 0) then ClassComment
    else if HasWord(preamble, REORGANIZE, true, 0) then Organization
    else NoSection
  }

  /** Passes over what a preamble announces, and counts it. */
  function AfterPreamble(rest: Text, acc: Read): (r: (Text, Read))
    ensures |r.0| <= |rest|
  {
    hide HasWord, SectionOf;
    var (pre, after) := NextChunk(rest);
    match SectionOf(pre)
    case MethodSection => (Methods(after).1, acc.(methodDefinitions := acc.methodDefinitions + Methods(after).0))
    case ClassComment => (NextChunk(after).1, acc.(comments := acc.comments + 1))
    case Organization => (NextChunk(after).1, acc)
    case NoSection => (after, acc)
  }

  /** What a DoIt adds: the title of the notebook, a cell, or nothing. */
  function WithDoIt(body: Text, acc: Read): Read {
    var title := if acc.cells == [] && acc.title == [] then TitleOf(body) else None;
    if title.Some? then acc.(title := title.value)
    else if JsTrim(body) == [] then acc
    else acc.(cells := acc.cells + [CellOf(body)])
  }

  function ReadAll(rest: Text, acc: Read): Read
    decreases |rest|
  {
    var r := Skip(rest);
    if r == [] then acc
    else if r[0] == BANG then
      var (after, got) := AfterPreamble(r[1..], acc);
      ReadAll(after, got)
    else
      var (body, after) := ChunkBody(r);
      ReadAll(after, WithDoIt(body, acc))
  }

  function WithoutBom(s: Text): Text { if s != [] && s[0] == BYTE_ORDER_MARK then s[1..] else s }

  /** One of a thing, or several. */
  function Plural(k: nat, one: Text): Text {
    Decimal(k) + [SPACE] + one + if k > 1 then [0x73] else []
  }

  const METHOD_DEFINITION: Text := Units("method definition")
  const CLASS_COMMENT: Text := Units("class comment")
  const LEFT_OUT: Text :=
    Units(" left out: a notebook keeps only the DoIts of a .st file. ") +
    Units("To load them, upload the file and file it in from a cell.")

  /** The warning says how much was left out, when something was. */
  function Warnings(methodDefinitions: nat, comments: nat): (w: seq<Text>)
    ensures |w| == if methodDefinitions + comments > 0 then 1 else 0
  {
    if methodDefinitions == 0 && comments == 0 then []
    else
      var what := (if methodDefinitions > 0 then [Plural(methodDefinitions, METHOD_DEFINITION)] else [])
                  + (if comments > 0 then [Plural(comments, CLASS_COMMENT)] else []);
      [Joined(what, Units(" and ")) + Units(if methodDefinitions + comments > 1 then " were" else " was") + LEFT_OUT]
  }

  const NOTHING: Read := Read([], [], 0, 0)

  function ReadText(text: Text): Read {
    ReadAll(WithoutBom(Lines(text)), NOTHING)
  }

  function FromStText(text: Text): Answer {
    var r := ReadText(text);
    Answer(r.title, r.cells, Warnings(r.methodDefinitions, r.comments))
  }

  // ---- the parser's loops

  method IndexOf(t: Text, c: Unit, i: nat) returns (j: int)
    ensures j == -1 || i <= j < |t|
    ensures j >= 0 ==> t[j] == c && c !in t[i..j]
    ensures j == -1 ==> i >= |t| || c !in t[i..]
  {
    j := i;
    while j < |t|
      invariant i <= j && (i <= |t| ==> j <= |t| && c !in t[i..j])
    {
      if t[j] == c {
        return;
      }
      j := j + 1;
    }
    j := -1;
  }

  /** A chunk body that begins with text free of !. */
  lemma {:induction false} BodyAfterPlain(x: Text, rest: Text)
    requires BANG !in x
    ensures ChunkBody(x + rest) == (x + ChunkBody(rest).0, ChunkBody(rest).1)
  {
    if x == [] {
      assert x + rest == rest;
      assert x + ChunkBody(rest).0 == ChunkBody(rest).0;
    } else {
      assert (x + rest)[1..] == x[1..] + rest;
      BodyAfterPlain(x[1..], rest);
      assert [x[0]] + (x[1..] + ChunkBody(rest).0) == x + ChunkBody(rest).0;
    }
  }

  method SkipSpaces(t: Text, i: nat) returns (j: nat)
    requires i <= |t|
    ensures i <= j <= |t| && t[j..] == Skip(t[i..])
  {
    j := i;
    while j < |t| && IsSpace(t[j])
      invariant i <= j <= |t| && forall k :: i <= k < j ==> IsSpace(t[k])
    {
      j := j + 1;
    }
    RunIs(t[i..], IsSpace, j - i);
  }

  lemma {:induction false} BodyAtBang(rest: Text)
    requires rest != [] && rest[0] == BANG
    ensures ChunkBody(rest) ==
      if |rest| > 1 && rest[1] == BANG then ([BANG] + ChunkBody(rest[2..]).0, ChunkBody(rest[2..]).1)
      else ([], rest[1..])
  {}

  /** How a text divides at a doubled !. */
  lemma SplitAtDoubled(t: Text, i: nat, j: nat)
    requires i <= j && j + 1 < |t| && t[j] == BANG && t[j + 1] == BANG
    ensures t[i..] == t[i..j] + t[j..] && t[j..][0] == BANG && t[j..][1] == BANG && t[j..][2..] == t[j + 2..]
  {}

  lemma Regrouped(body: Text, t: Text, i: nat, j: nat, rest: Text)
    requires i <= j < |t| && t[j] == BANG
    ensures body + (t[i..j] + ([BANG] + rest)) == (body + t[i..j + 1]) + rest
  {}

  /** Text without a !, and then the one that closes the chunk. */
  lemma {:induction false} BodyUpToBang(t: Text, i: nat, j: nat)
    requires i <= j < |t| && BANG !in t[i..j] && t[j] == BANG && !(j + 1 < |t| && t[j + 1] == BANG)
    ensures ChunkBody(t[i..]) == (t[i..j], t[j + 1..])
  {
    hide ChunkBody;
    assert t[i..] == t[i..j] + t[j..] && t[j..][1..] == t[j + 1..];
    BodyAfterPlain(t[i..j], t[j..]);
    BodyAtBang(t[j..]);
    assert t[i..j] + [] == t[i..j];
  }

  lemma {:induction false} BodyToTheEnd(rest: Text)
    requires BANG !in rest
    ensures ChunkBody(rest) == (rest, [])
  {
    BodyAfterPlain(rest, []);
    assert rest + [] == rest;
  }

  /** The chunk that starts at first has body up to i, and then what is read from there. */
  ghost predicate Resumes(t: Text, first: nat, i: nat, body: Text)
    requires first <= |t| && i <= |t|
  {
    ChunkBody(t[first..]) == (body + ChunkBody(t[i..]).0, ChunkBody(t[i..]).1)
  }

  lemma {:induction false} ResumesAtFirst(t: Text, first: nat)
    requires first <= |t|
    ensures Resumes(t, first, first, [])
  {
    hide ChunkBody;
    var s := ChunkBody(t[first..]).0;
    assert [] + s == s;
  }

  lemma {:induction false} ResumesAfterDoubled(t: Text, first: nat, i: nat, j: nat, body: Text)
    requires first <= |t| && i <= j && j + 1 < |t| && BANG !in t[i..j] && t[j] == BANG && t[j + 1] == BANG
    requires Resumes(t, first, i, body)
    ensures Resumes(t, first, j + 2, body + t[i..j + 1])
  {
    hide ChunkBody;
    SplitAtDoubled(t, i, j);
    BodyAfterPlain(t[i..j], t[j..]);
    BodyAtBang(t[j..]);
    Regrouped(body, t, i, j, ChunkBody(t[j + 2..]).0);
  }

  lemma {:induction false} ResumesToBang(t: Text, first: nat, i: nat, j: nat, body: Text)
    requires first <= |t| && i <= j < |t| && BANG !in t[i..j] && t[j] == BANG && !(j + 1 < |t| && t[j + 1] == BANG)
    requires Resumes(t, first, i, body)
    ensures ChunkBody(t[first..]) == (body + t[i..j], t[j + 1..])
  {
    hide ChunkBody;
    BodyUpToBang(t, i, j);
  }

  lemma {:induction false} ResumesToTheEnd(t: Text, first: nat, i: nat, body: Text)
    requires first <= |t| && i <= |t| && BANG !in t[i..] && Resumes(t, first, i, body)
    ensures ChunkBody(t[first..]) == (body + t[i..], [])
  {
    hide ChunkBody;
    BodyToTheEnd(t[i..]);
  }

  /** Reads one chunk, from index first on. */
  method ChunkFrom(t: Text, first: nat) returns (body: Text, i: nat)
    requires first <= |t|
    ensures first <= i <= |t| && (first < |t| ==> first < i)
    ensures (body, t[i..]) == ChunkBody(t[first..])
  {
    hide ChunkBody, Resumes;
    body, i := [], first;
    var from := i;
    ResumesAtFirst(t, first);
    while true
      invariant first <= i <= |t| && from == i && Resumes(t, first, i, body)
      decreases |t| - i
    {
      var j := IndexOf(t, BANG, i);
      if j < 0 {
        ResumesToTheEnd(t, first, i, body);
        i := |t|;
        return body + t[from..], i;
      }
      if j + 1 < |t| && t[j + 1] == BANG {
        ResumesAfterDoubled(t, first, i, j, body);
        body := body + t[from..j + 1];
        i := j + 2;
        from := i;
      } else {
        ResumesToBang(t, first, i, j, body);
        i := j + 1;
        return body + t[from..j], i;
      }
    }
  }

  /** Reads one chunk, after what white space stands before it. */
  method Chunk(t: Text, start: nat) returns (body: Text, i: nat)
    requires start <= |t|
    ensures start <= i <= |t| && (start < |t| ==> start < i)
    ensures (body, t[i..]) == NextChunk(t[start..])
  {
    i := SkipSpaces(t, start);
    body, i := ChunkFrom(t, i);
  }

  lemma {:induction false} QuoteEndAfterPlain(s: Text, i: nat, j: nat)
    requires i <= j <= |s| && QUOTE !in s[i..j]
    ensures QuoteEnd(s, i) == QuoteEnd(s, j)
    decreases j - i
  {
    if i < j {
      assert s[i] == s[i..j][0];
      QuoteEndAfterPlain(s, i + 1, j);
    }
  }

  method FindCommentEnd(s: Text) returns (end: int)
    requires s != []
    ensures end == CommentEnd(s)
  {
    var j := 1;
    while true
      invariant 1 <= j <= |s| && QuoteEnd(s, j) == CommentEnd(s)
      decreases |s| - j
    {
      var k := IndexOf(s, QUOTE, j);
      if k < 0 {
        assert s[j..|s|] == s[j..];
        QuoteEndAfterPlain(s, j, |s|);
        return -1;
      }
      QuoteEndAfterPlain(s, j, k);
      j := k;
      if j + 1 < |s| && s[j + 1] == QUOTE {
        j := j + 2;
      } else {
        return j + 1;
      }
    }
  }

  /** trimBlankLines, with its two scans. */
  method TrimmedBlankLines(s: Text) returns (r: Text)
    ensures r == TrimBlankLines(s)
  {
    var a, b := 0, |s|;
    while b > 0 && IsSpace(s[b - 1])
      invariant 0 <= b <= |s| && forall i :: b <= i < |s| ==> IsSpace(s[i])
    {
      b := b - 1;
    }
    KeptIs(s, IsSpace, b);
    ghost var t := s[..b];
    var k := 0;
    while k < b && IsSpace(s[k])
      invariant k <= b && forall i :: 0 <= i < k ==> IsSpace(t[i])
      invariant a <= k && (a > 0 ==> t[a - 1] == LF) && forall i :: a <= i < k ==> t[i] != LF
    {
      if s[k] == LF {
        a := k + 1;
      }
      k := k + 1;
    }
    RunIs(t, IsSpace, k);
    AfterLastLineIs(t[..k], a);
    return s[a..b];
  }

  /** The loop over the chunks. */
  method ReadChunks(t: Text) returns (r: Read)
    ensures r == ReadAll(t, NOTHING)
  {
    hide WithDoIt, AfterPreamble, ChunkBody, Skip;
    var i := 0;
    r := NOTHING;
    assert t[0..] == t;
    while true
      invariant i <= |t| && ReadAll(t[i..], r) == ReadAll(t, NOTHING)
      decreases |t| - i
    {
      ghost var rest := t[i..];
      var at := SkipSpaces(t, i);
      if at == |t| {
        return;
      }
      assert t[at..][0] == t[at] && t[at..][1..] == t[at + 1..];
      if t[at] == BANG {
        i, r := ReadPreamble(t, at + 1, r);
      } else {
        SkipAgain(rest);
        var body, after := Chunk(t, at);
        r := WithDoIt(body, r);
        i := after;
      }
    }
  }

  /** fromSt: the notebook in a text, and the warning about what it leaves out. */
  method FromSt(text: Text) returns (a: Answer)
    ensures a == FromStText(text)
  {
    var r := ReadChunks(WithoutBom(Lines(text)));
    a := Answer(r.title, r.cells, Warnings(r.methodDefinitions, r.comments));
  }

  lemma SkipAgain(rest: Text)
    ensures Skip(Skip(rest)) == Skip(rest)
  {
    RunIs(Skip(rest), IsSpace, 0);
  }

  /** The method chunks of a section. */
  method SkipMethods(t: Text, start: nat) returns (m: nat, i: nat)
    requires start <= |t|
    ensures start <= i <= |t| && (m, t[i..]) == Methods(t[start..])
  {
    hide NextChunk;
    m, i := 0, start;
    while i < |t|
      invariant start <= i <= |t|
      invariant Methods(t[start..]) == (m + Methods(t[i..]).0, Methods(t[i..]).1)
      decreases |t| - i
    {
      var body, after := Chunk(t, i);
      i := after;
      if body == [] {
        return;
      }
      m := m + 1;
    }
  }

  method ReadPreamble(t: Text, start: nat, acc: Read) returns (i: nat, r: Read)
    requires start <= |t|
    ensures start <= i <= |t| && (t[i..], r) == AfterPreamble(t[start..], acc)
  {
    hide NextChunk, SectionOf, Methods;
    var pre: Text, ignored: Text;
    pre, i := Chunk(t, start);
    r := acc;
    match SectionOf(pre) {
      case MethodSection =>
        var m;
        m, i := SkipMethods(t, i);
        r := r.(methodDefinitions := r.methodDefinitions + m);
      case ClassComment =>
        ignored, i := Chunk(t, i);
        r := r.(comments := r.comments + 1);
      case Organization =>
        ignored, i := Chunk(t, i);
      case NoSection =>
    }
  }
}
