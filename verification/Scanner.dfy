/** The Smalltalk scanner of the notebook: `scan` of packaging/emscripten/web/notebook-st.js.
    A text is a sequence of UTF-16 code units, as in JavaScript. */
module Scanner {
  import opened CodeUnits

  /** What Unicode says of the code units above ASCII, which no proof depends on, and where the <
      of a pragma is. */
  datatype Classes = Classes(letter: Unit -> bool, word: Unit -> bool, space: Unit -> bool, upper: Unit -> bool,
                             pragma: (Text, nat) -> bool)

  predicate IsLetter(u: Classes, c: int) {
    0x61 <= c <= 0x7A || 0x41 <= c <= 0x5A || c == UNDERSCORE || (0x7F < c < 0x10000 && u.letter(c))
  }

  predicate IsWord(u: Classes, c: int) {
    IsLetter(u, c) || IsDigit(c) || (0x7F < c < 0x10000 && u.word(c))
  }

  /** - + * / \ ~ < > = @ % | & ? , ! and four above ASCII. */
  predicate IsBinary(c: int) {
    c in {0x2D, 0x2B, 0x2A, 0x2F, 0x5C, 0x7E, 0x3C, 0x3E, 0x3D, 0x40, 0x25, 0x7C, 0x26, 0x3F, 0x2C, 0x21, 0xB1, 0xB7,
      0xD7, 0xF7}
  }

  function WordOrColon(u: Classes): int -> bool { c => IsWord(u, c) || c == COLON }

  predicate IsHighSurrogate(c: int) { 0xD800 <= c < 0xDC00 }

  /** The code unit at an index, or -1 past the end. */
  function At(t: Text, i: nat): int { if i < |t| then t[i] else -1 }

  /** The end of the run of units with a property that begins at i. */
  function RunEnd(t: Text, i: nat, p: int -> bool): (j: nat)
    requires i <= |t|
    ensures i <= j <= |t|
    ensures forall k :: i <= k < j ==> p(t[k])
    ensures j < |t| ==> !p(t[j])
    decreases |t| - i
  {
    if i < |t| && p(t[i]) then RunEnd(t, i + 1, p) else i
  }

  /** Where the string or comment whose inside begins at j ends: the index of its closing quote,
      or the end of the text. A doubled quote is inside. */
  function QuoteEnd(t: Text, q: Unit, j: nat): (e: nat)
    requires j <= |t|
    ensures j <= e <= |t|
    ensures e < |t| ==> t[e] == q && At(t, e + 1) != q
    decreases |t| - j
  {
    if j == |t| then j
    else if t[j] != q then QuoteEnd(t, q, j + 1)
    else if At(t, j + 1) == q then QuoteEnd(t, q, j + 2)
    else j
  }

  /** ( [ { in code; a literal array #( ; a byte array #[ . */
  datatype Opener = Paren | Bracket | Brace | LiteralArray | ByteArray

  datatype Event = Opened(at: nat) | Closed(at: nat) | LineBreak(at: nat, depth: nat) | CommentEnd(at: nat)

  /** The place, the open brackets and what is wrong so far. unclosed holds the opening character of a
      string, comment or character that the text breaks off in. */
  datatype Scan = Scan(pos: nat, stack: seq<Opener>, stray: nat, mismatch: nat, strays: Text,
                       unclosed: Text, log: seq<Event>)

  const START: Scan := Scan(0, [], 0, 0, [], [], [])

  predicate IsOpener(c: int) { c == LEFT_PAREN || c == LEFT_BRACKET || c == LEFT_BRACE }
  predicate IsCloser(c: int) { c == RIGHT_PAREN || c == RIGHT_BRACKET || c == RIGHT_BRACE }

  function OpenerOf(c: int): Opener {
    if c == LEFT_PAREN then Paren else if c == LEFT_BRACKET then Bracket else Brace
  }

  /** Which closer an opener needs. */
  function CloserOf(o: Opener): Unit {
    match o
    case Paren => RIGHT_PAREN
    case LiteralArray => RIGHT_PAREN
    case Brace => RIGHT_BRACE
    case Bracket => RIGHT_BRACKET
    case ByteArray => RIGHT_BRACKET
  }

  predicate TopIs(stack: seq<Opener>, o: Opener) { stack != [] && stack[|stack| - 1] == o }

  function Popped(stack: seq<Opener>): seq<Opener> { if stack == [] then [] else stack[..|stack| - 1] }

  /** The end of the character that a $ at i begins, when there is one: a whole code point. */
  function CharacterEnd(t: Text, i: nat): (j: nat)
    requires i + 1 < |t|
    ensures i + 1 < j <= |t|
  {
    if IsHighSurrogate(t[i + 1]) && i + 2 < |t| then i + 3 else i + 2
  }

  /** The end of the symbol that a # at i begins; of the # alone when no symbol of letters or
      binary characters follows. */
  function SymbolEnd(u: Classes, t: Text, i: nat): (j: nat)
    requires i < |t|
    ensures i < j <= |t|
  {
    if IsLetter(u, At(t, i + 1)) then RunEnd(t, i + 1, WordOrColon(u))
    else if IsBinary(At(t, i + 1)) then RunEnd(t, i + 1, IsBinary)
    else i + 1
  }

  function Push(s: Scan, o: Opener, i: nat): Scan {
    s.(pos := i + 1, stack := s.stack + [o], log := s.log + [Opened(i)])
  }

  function Pop(s: Scan): Scan {
    s.(pos := s.pos + 1, stack := Popped(s.stack), log := s.log + [Closed(s.pos)])
  }

  /** What the loop does in one turn at a quote, at a $, and at a #. */
  function QuoteStep(t: Text, s: Scan): Scan
    requires s.pos < |t|
  {
    var e := QuoteEnd(t, t[s.pos], s.pos + 1);
    s.(pos := if e < |t| then e + 1 else e, unclosed := if e < |t| then s.unclosed else [t[s.pos]],
       log := s.log + if t[s.pos] == QUOTE then [CommentEnd(e)] else [])
  }

  function DollarStep(t: Text, s: Scan): Scan
    requires s.pos < |t|
  {
    if s.pos + 1 < |t| then s.(pos := CharacterEnd(t, s.pos)) else s.(pos := |t|, unclosed := [DOLLAR])
  }

  function HashStep(u: Classes, t: Text, s: Scan): Scan
    requires s.pos < |t|
  {
    var d := At(t, s.pos + 1);
    if d == LEFT_PAREN || d == LEFT_BRACKET then
      Push(s, if d == LEFT_PAREN then LiteralArray else ByteArray, s.pos + 1)
    else s.(pos := SymbolEnd(u, t, s.pos))
  }

  /** The other characters: a bracket, a line break, or one that only goes by. */
  function CodeStep(t: Text, s: Scan): Scan
    requires s.pos < |t|
  {
    var c, i := t[s.pos], s.pos;
    var on := s.(pos := i + 1);
    var line := if c == LF then on.(log := s.log + [LineBreak(i, |s.stack|)]) else on;
    if TopIs(s.stack, ByteArray) then
      if c == RIGHT_BRACKET then Pop(s)
      else if IsOpener(c) || IsCloser(c) then on.(mismatch := s.mismatch + 1)
      else line
    else if TopIs(s.stack, LiteralArray) then
      if c == LEFT_PAREN then Push(s, LiteralArray, i) else if c == RIGHT_PAREN then Pop(s) else line
    else if IsOpener(c) then Push(s, OpenerOf(c), i)
    else if IsCloser(c) then
      if s.stack == [] then
        Pop(s.(stray := s.stray + 1, strays := if c in s.strays then s.strays else s.strays + [c]))
      else Pop(if CloserOf(s.stack[|s.stack| - 1]) == c then s else s.(mismatch := s.mismatch + 1))
    else line
  }

  predicate StartsLiteral(c: int) { c == QUOTE || c == APOSTROPHE || c == DOLLAR }

  function Step(u: Classes, t: Text, s: Scan): (r: Scan)
    requires s.pos < |t|
    ensures s.pos < r.pos <= |t|
  {
    var c := t[s.pos];
    if c == QUOTE || c == APOSTROPHE then QuoteStep(t, s)
    else if c == DOLLAR then DollarStep(t, s)
    else if c == HASH then HashStep(u, t, s)
    else CodeStep(t, s)
  }

  /** Scan on until position j is reached or passed. */
  function ScanTo(u: Classes, t: Text, s: Scan, j: nat): (r: Scan)
    requires j <= |t|
    ensures s.pos <= r.pos && j <= r.pos
    ensures s.pos <= |t| ==> r.pos <= |t|
    ensures s.pos >= j ==> r == s
    decreases j - s.pos
  {
    if s.pos >= j then s else ScanTo(u, t, Step(u, t, s), j)
  }

  lemma ScanToStep(u: Classes, t: Text, s: Scan, j: nat)
    requires s.pos < j <= |t|
    ensures ScanTo(u, t, s, j) == ScanTo(u, t, Step(u, t, s), j)
  {}

  /** The whole text scanned. */
  function ScanAll(u: Classes, t: Text): Scan { ScanTo(u, t, START, |t|) }

  /** For each open bracket, outermost first, what would close it. */
  function Pending(stack: seq<Opener>): (p: Text)
    ensures |p| == |stack|
  {
    seq(|stack|, k requires 0 <= k < |stack| => CloserOf(stack[k]))
  }

  // ---- the loops

  method FindRunEnd(t: Text, i: nat, p: int -> bool) returns (j: nat)
    requires i <= |t|
    ensures j == RunEnd(t, i, p)
  {
    j := i;
    while j < |t| && p(t[j])
      invariant i <= j <= |t| && RunEnd(t, j, p) == RunEnd(t, i, p)
    {
      j := j + 1;
    }
  }

  method FindQuoteEnd(t: Text, q: Unit, from: nat) returns (j: nat)
    requires from <= |t|
    ensures j == QuoteEnd(t, q, from)
  {
    j := from;
    while j < |t|
      invariant from <= j <= |t| && QuoteEnd(t, q, j) == QuoteEnd(t, q, from)
    {
      if t[j] == q {
        if j + 1 < |t| && t[j + 1] == q {
          j := j + 2;
          continue;
        }
        return;
      }
      j := j + 1;
    }
  }

  /** The main loop, with the events it tells of. */
  method ScanText(u: Classes, t: Text) returns (s: Scan)
    ensures s == ScanAll(u, t)
  {
    hide QuoteEnd, RunEnd, IsBinary, IsLetter, IsWord, CloserOf, ScanTo;
    var stack: seq<Opener>, stray, mismatch := [], 0, 0;
    var strays: Text, unclosed: Text, log: seq<Event> := [], [], [];
    var i := 0;
    while i < |t|
      invariant 0 <= i <= |t|
      invariant ScanTo(u, t, Scan(i, stack, stray, mismatch, strays, unclosed, log), |t|) == ScanAll(u, t)
    {
      ghost var was := Scan(i, stack, stray, mismatch, strays, unclosed, log);
      ScanToStep(u, t, was, |t|);
      var c := t[i];
      if c == QUOTE || c == APOSTROPHE {
        var j := FindQuoteEnd(t, c, i + 1);
        if j == |t| {
          unclosed := [c];
        }
        if c == QUOTE {
          log := log + [CommentEnd(j)];
        }
        i := if j < |t| then j + 1 else j;
      } else if c == DOLLAR {
        if i + 1 >= |t| {
          unclosed := [c];
          i := i + 1;
        } else {
          i := if IsHighSurrogate(t[i + 1]) && i + 2 < |t| then i + 3 else i + 2;
        }
      } else if c == HASH {
        var d := At(t, i + 1);
        if d == LEFT_PAREN || d == LEFT_BRACKET {
          stack := stack + [if d == LEFT_PAREN then LiteralArray else ByteArray];
          log := log + [Opened(i + 1)];
          i := i + 2;
        } else if IsLetter(u, d) {
          i := FindRunEnd(t, i + 1, WordOrColon(u));
        } else if IsBinary(d) {
          i := FindRunEnd(t, i + 1, IsBinary);
        } else {
          i := i + 1;
        }
      } else {
        if TopIs(stack, ByteArray) {
          if c == RIGHT_BRACKET {
            stack := stack[..|stack| - 1];
            log := log + [Closed(i)];
          } else if IsOpener(c) || IsCloser(c) {
            mismatch := mismatch + 1;
          } else if c == LF {
            log := log + [LineBreak(i, |stack|)];
          }
        } else if TopIs(stack, LiteralArray) {
          if c == LEFT_PAREN {
            stack := stack + [LiteralArray];
            log := log + [Opened(i)];
          } else if c == RIGHT_PAREN {
            stack := stack[..|stack| - 1];
            log := log + [Closed(i)];
          } else if c == LF {
            log := log + [LineBreak(i, |stack|)];
          }
        } else if IsOpener(c) {
          stack := stack + [OpenerOf(c)];
          log := log + [Opened(i)];
        } else if IsCloser(c) {
          if stack == [] {
            stray := stray + 1;
            if c !in strays {
              strays := strays + [c];
            }
          } else {
            if CloserOf(stack[|stack| - 1]) != c {
              mismatch := mismatch + 1;
            }
            stack := stack[..|stack| - 1];
          }
          log := log + [Closed(i)];
        } else if c == LF {
          log := log + [LineBreak(i, |stack|)];
        }
        i := i + 1;
      }
      assert Scan(i, stack, stray, mismatch, strays, unclosed, log) == Step(u, t, was);
    }
    s := Scan(i, stack, stray, mismatch, strays, unclosed, log);
  }
}
