/** The colors of a Smalltalk source: `highlight` of packaging/emscripten/web/notebook-st.js. It is a
    scanner of its own, beside scan, for words and numbers have colors as well. */
module Highlighter {
  import opened CodeUnits
  import opened Scanner

  datatype Kind = Plain | Comment | String | Char | Number | Quote | Constant | Special | Keyword | Bracketing | Global

  // ---- numbers

  const NO_DIGIT := 36

  /** What a character counts as in a number: NO_DIGIT when it is no digit in any radix. */
  function DigitValue(c: int): nat {
    if IsDigit(c) then c - 0x30
    else if 0x61 <= c <= 0x7A then c - 0x61 + 10
    else if 0x41 <= c <= 0x5A then c - 0x41 + 10
    else NO_DIGIT
  }

  predicate DigitAt(t: Text, j: nat, radix: nat) { DigitValue(At(t, j)) < radix && DigitValue(At(t, j)) < NO_DIGIT }

  /** After one digit: how far further ones go, alone or each behind a _. */
  function MoreDigits(t: Text, j: nat, radix: nat): (e: nat)
    requires j <= |t|
    ensures j <= e <= |t|
    decreases |t| - j
  {
    if At(t, j) == UNDERSCORE && DigitAt(t, j + 1, radix) then MoreDigits(t, j + 2, radix)
    else if DigitAt(t, j, radix) then MoreDigits(t, j + 1, radix)
    else j
  }

  function Digits(t: Text, j: nat, radix: nat): (e: nat)
    requires j <= |t|
    ensures j <= e <= |t|
    ensures e > j <==> DigitAt(t, j, radix)
  {
    if DigitAt(t, j, radix) then MoreDigits(t, j + 1, radix) else j
  }

  /** The decimal value of digits, the _ among them left out. */
  function DecimalValue(s: Text): nat {
    if s == [] then 0
    else if IsDigit(s[|s| - 1]) then 10 * DecimalValue(s[..|s| - 1]) + s[|s| - 1] - 0x30
    else DecimalValue(s[..|s| - 1])
  }

  function AfterSign(t: Text, j: nat): (k: nat)
    ensures j <= k && (j <= |t| ==> k <= |t|)
  {
    if At(t, j) == 0x2D then j + 1 else j
  }

  /** From the digit at i on: where the part before any fraction stops, and its radix. */
  function IntegerPart(t: Text, i: nat): (r: (nat, nat))
    requires i < |t| && IsDigit(t[i])
    ensures i < r.0 <= |t|
  {
    var j := Digits(t, i, 10);
    if At(t, j) != 0x72 then (j, 10)
    else
      var radix, k := DecimalValue(t[i..j]), AfterSign(t, j + 1);
      if radix >= 2 && Digits(t, k, radix) > k then (Digits(t, k, radix), radix) else (j, 10)
  }

  function FractionEnd(t: Text, j: nat, radix: nat): (e: nat)
    requires j <= |t|
    ensures j <= e <= |t|
  {
    if At(t, j) == 0x2E && DigitAt(t, j + 1, radix) then Digits(t, j + 1, radix) else j
  }

  predicate IsExponentLetter(c: int) { c == 0x65 || c == 0x64 || c == 0x71 }

  function ExponentEnd(u: Classes, t: Text, j: nat): (e: nat)
    requires j <= |t|
    ensures j <= e <= |t|
  {
    var k := AfterSign(t, j + 1);
    if IsExponentLetter(At(t, j)) && Digits(t, k, 10) > k then Digits(t, k, 10)
    else if At(t, j) == 0x73 && (DigitAt(t, j + 1, 10) || !IsLetter(u, At(t, j + 1))) then Digits(t, j + 1, 10)
    else j
  }

  function NumberEnd(u: Classes, t: Text, i: nat): (e: nat)
    requires i < |t| && IsDigit(t[i])
    ensures i < e <= |t|
  {
    var (j, radix) := IntegerPart(t, i);
    ExponentEnd(u, t, FractionEnd(t, j, radix))
  }

  // ---- names

  function WordEnd(u: Classes, t: Text, j: nat): (e: nat)
    requires j <= |t|
    ensures j <= e <= |t|
  {
    RunEnd(t, j, Word(u))
  }

  function Word(u: Classes): int -> bool { c => IsWord(u, c) }

  predicate ColonAt(t: Text, j: nat) { At(t, j) == COLON && At(t, j + 1) != 0x3D }

  /** The end of the keywords that go on at j. */
  function MoreKeywords(u: Classes, t: Text, j: nat): (e: nat)
    requires j <= |t|
    ensures j <= e <= |t|
    decreases |t| - j
  {
    if !IsLetter(u, At(t, j)) then j
    else
      var k := WordEnd(u, t, j + 1);
      if ColonAt(t, k) then MoreKeywords(u, t, k + 1) else j
  }

  /** Where a word stops, with the words after it as long as each is a keyword. */
  function KeywordsEnd(u: Classes, t: Text, j: nat): (e: nat)
    requires j <= |t|
    ensures j <= e <= |t|
    ensures j < |t| && IsLetter(u, t[j]) ==> j < e
  {
    var k := WordEnd(u, t, j);
    if ColonAt(t, k) then MoreKeywords(u, t, k + 1) else k
  }

  predicate IsPseudo(w: Text) { w == Units("self") || w == Units("super") || w == Units("thisContext") }
  predicate IsConstant(w: Text) { w == Units("nil") || w == Units("true") || w == Units("false") }
  predicate IsCapital(u: Classes, c: int) { 0x41 <= c <= 0x5A || (0x7F < c < 0x10000 && u.upper(c)) }

  function IsSeparator(u: Classes): int -> bool {
    c => c == 0x20 || c == LF || c == 0x09 || c == 0x0D || c == 0x0C || (0x7F < c < 0x10000 && u.space(c))
  }

  // ---- tokens

  /** What a token depends on: the place, the open brackets, whether an operand stands before it, and
      whether a pragma is open. */
  datatype Reading = Reading(pos: nat, stack: seq<Opener>, operand: bool, pragma: bool)

  /** A token is of a kind and ends where the reading after it is. */
  datatype Token = Token(kind: Kind, next: Reading)

  /** The index behind the string or comment that the quote at i begins. */
  function QuotedEnd(t: Text, i: nat): (e: nat)
    requires i < |t|
    ensures i < e <= |t|
  {
    var e := QuoteEnd(t, t[i], i + 1);
    if e < |t| then e + 1 else e
  }

  function Hashes(): int -> bool { c => c == HASH }

  function CharacterPieceEnd(t: Text, i: nat): (e: nat)
    requires i < |t|
    ensures i < e <= |t|
  {
    var far := if IsHighSurrogate(At(t, i + 1)) then i + 3 else i + 2;
    if far < |t| then far else |t|
  }

  /** At a #. */
  function HashToken(u: Classes, t: Text, r: Reading): (k: Token)
    requires r.pos < |t| && t[r.pos] == HASH
    ensures r.pos < k.next.pos <= |t|
  {
    var j := RunEnd(t, r.pos + 1, Hashes());
    var c := At(t, j);
    if c == LEFT_PAREN || c == LEFT_BRACKET then
      Token(Quote, Reading(j + 1, r.stack + [if c == LEFT_PAREN then LiteralArray else ByteArray], false, r.pragma))
    else if c == APOSTROPHE then Token(Quote, r.(pos := QuotedEnd(t, j), operand := true))
    else if IsLetter(u, c) then Token(Quote, r.(pos := RunEnd(t, j, WordOrColon(u)), operand := true))
    else if IsBinary(c) then Token(Quote, r.(pos := RunEnd(t, j, IsBinary), operand := true))
    else Token(Plain, r.(pos := j, operand := false))
  }

  predicate NumberStarts(t: Text, r: Reading)
    requires r.pos < |t|
  {
    IsDigit(t[r.pos]) || (t[r.pos] == 0x2D && IsDigit(At(t, r.pos + 1)) &&
                          (!r.operand || TopIs(r.stack, LiteralArray) || TopIs(r.stack, ByteArray)))
  }

  function ByteArrayToken(t: Text, r: Reading): (k: Token)
    requires r.pos < |t|
    ensures r.pos < k.next.pos <= |t|
  {
    if t[r.pos] == RIGHT_BRACKET then Token(Quote, r.(pos := r.pos + 1, stack := Popped(r.stack), operand := true))
    else Token(Plain, r.(pos := r.pos + 1, operand := false))
  }

  /** In a literal array all is data. */
  function LiteralArrayToken(u: Classes, t: Text, r: Reading): (k: Token)
    requires r.pos < |t|
    ensures r.pos < k.next.pos <= |t|
  {
    var c, i := t[r.pos], r.pos;
    if c == LEFT_PAREN then Token(Quote, Reading(i + 1, r.stack + [LiteralArray], false, r.pragma))
    else if c == RIGHT_PAREN then Token(Quote, r.(pos := i + 1, stack := Popped(r.stack), operand := true))
    else if IsLetter(u, c) then
      var j := KeywordsEnd(u, t, i);
      Token(if t[j - 1] != COLON && IsConstant(t[i..j]) then Constant else Quote, r.(pos := j, operand := true))
    else if IsBinary(c) then Token(Quote, r.(pos := RunEnd(t, i + 1, IsBinary), operand := false))
    else Token(Quote, r.(pos := if c == COLON && At(t, i + 1) == 0x3D then i + 2 else i + 1, operand := false))
  }

  function NameToken(u: Classes, t: Text, r: Reading): (k: Token)
    requires r.pos < |t| && IsLetter(u, t[r.pos])
    ensures r.pos < k.next.pos <= |t|
  {
    var i := r.pos;
    var j := WordEnd(u, t, i + 1);
    if ColonAt(t, j) then Token(Keyword, r.(pos := KeywordsEnd(u, t, i), operand := false))
    else
      var w := t[i..j];
      Token(if IsPseudo(w) then Special else if IsConstant(w) then Constant
            else if IsCapital(u, w[0]) then Global else Plain, r.(pos := j, operand := true))
  }

  function NotBar(): int -> bool { c => IsBinary(c) && c != 0x7C }

  function CodeToken(u: Classes, t: Text, r0: Reading): (k: Token)
    requires r0.pos < |t|
    ensures r0.pos < k.next.pos <= |t|
  {
    var c, i := t[r0.pos], r0.pos;
    var d := At(t, i + 1);
    var r := r0.(operand := false);
    if IsOpener(c) then Token(Bracketing, r.(pos := i + 1, stack := r.stack + [OpenerOf(c)]))
    else if IsCloser(c) then Token(Bracketing, r.(pos := i + 1, stack := Popped(r.stack), operand := true))
    else if IsLetter(u, c) then NameToken(u, t, r)
    else if c == COLON && d == 0x3D then Token(Special, r.(pos := i + 2))
    else if c == 0x5E then Token(Special, r.(pos := i + 1))
    else if c == 0x2E || c == 0x3B || c == 0x7C then Token(Bracketing, r.(pos := i + 1))
    else if r.stack == [] && (if r.pragma then c == 0x3E else c == 0x3C && u.pragma(t, i)) then
      Token(Bracketing, r.(pos := i + 1, pragma := !r.pragma))
    else if c == COLON && IsLetter(u, d) then Token(Plain, r.(pos := WordEnd(u, t, i + 2), operand := true))
    else if IsBinary(c) then Token(Plain, r.(pos := RunEnd(t, i + 1, NotBar())))
    else Token(Plain, r.(pos := i + 1))
  }

  /** The token at a reading. */
  function NextToken(u: Classes, t: Text, r: Reading): (k: Token)
    requires r.pos < |t|
    ensures r.pos < k.next.pos <= |t|
  {
    hide HashToken, ByteArrayToken, LiteralArrayToken, CodeToken, RunEnd, QuoteEnd, NumberEnd, IsBinary, IsLetter;
    var c, i := t[r.pos], r.pos;
    if IsSeparator(u)(c) then Token(Plain, r.(pos := RunEnd(t, i + 1, IsSeparator(u))))
    else if c == QUOTE then Token(Comment, r.(pos := QuotedEnd(t, i)))
    else if c == APOSTROPHE then Token(String, r.(pos := QuotedEnd(t, i), operand := true))
    else if c == DOLLAR then Token(Char, r.(pos := CharacterPieceEnd(t, i), operand := true))
    else if c == HASH then HashToken(u, t, r)
    else if NumberStarts(t, r) then
      Token(Number, r.(pos := NumberEnd(u, t, if c == 0x2D then i + 1 else i), operand := true))
    else if TopIs(r.stack, ByteArray) then ByteArrayToken(t, r)
    else if TopIs(r.stack, LiteralArray) then LiteralArrayToken(u, t, r)
    else CodeToken(u, t, r)
  }

  // ---- pieces

  /** A piece ends at an index and begins where the one before it ends. */
  datatype Piece = Piece(kind: Kind, end: nat)

  /** Colors up to j: a piece of its own, unless the last one has that kind and can grow. */
  function Put(pieces: seq<Piece>, kind: Kind, j: nat): seq<Piece> {
    var n := |pieces|;
    if n > 0 && pieces[n - 1].kind == kind then pieces[..n - 1] + [Piece(kind, j)] else pieces + [Piece(kind, j)]
  }

  /** The pieces of the rest of the text, after those of the beginning. */
  function PiecesFrom(u: Classes, t: Text, r: Reading, pieces: seq<Piece>): seq<Piece>
    decreases |t| - r.pos
  {
    if r.pos >= |t| then pieces
    else
      var k := NextToken(u, t, r);
      PiecesFrom(u, t, k.next, Put(pieces, k.kind, k.next.pos))
  }

  const BEGIN: Reading := Reading(0, [], false, false)

  function EndOf(pieces: seq<Piece>): nat { if pieces == [] then 0 else pieces[|pieces| - 1].end }

  /** The pieces from the start of the text: none empty, no two neighbors of one kind. */
  ghost predicate Covers(pieces: seq<Piece>) {
    && (forall k :: 0 < k < |pieces| ==> pieces[k - 1].end < pieces[k].end && pieces[k - 1].kind != pieces[k].kind)
    && (pieces != [] ==> 0 < pieces[0].end)
  }

  lemma CoversBefore(pieces: seq<Piece>)
    requires Covers(pieces) && pieces != []
    ensures var before := pieces[..|pieces| - 1];
      Covers(before) && EndOf(before) < EndOf(pieces)
  {}

  /** The pieces with their texts. */
  ghost function Texts(t: Text, pieces: seq<Piece>): (r: seq<(Kind, Text)>)
    requires Covers(pieces) && EndOf(pieces) <= |t|
    ensures |r| == |pieces|
  {
    if pieces == [] then []
    else
      CoversBefore(pieces);
      var before := pieces[..|pieces| - 1];
      Texts(t, before) + [(pieces[|pieces| - 1].kind, t[EndOf(before)..EndOf(pieces)])]
  }
}
