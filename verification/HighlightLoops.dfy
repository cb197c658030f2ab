/** The loops of highlight. Each method is proved to compute the function of Highlighter that the
    proofs are about. */
module HighlightLoops {
  import opened Basics
  import opened CodeUnits
  import opened Scanner
  import opened Highlighter
  import opened HighlighterProofs

  method FindDigits(t: Text, from: nat, radix: nat) returns (j: nat)
    requires from <= |t|
    ensures j == Digits(t, from, radix)
  {
    j := from;
    if !DigitAt(t, j, radix) {
      return;
    }
    j := j + 1;
    while true
      invariant from < j <= |t| && MoreDigits(t, j, radix) == Digits(t, from, radix)
      decreases |t| - j
    {
      if At(t, j) == UNDERSCORE && DigitAt(t, j + 1, radix) {
        j := j + 2;
      } else if DigitAt(t, j, radix) {
        j := j + 1;
      } else {
        return;
      }
    }
  }

  method FindIntegerPart(t: Text, i: nat) returns (j: nat, radix: nat)
    requires i < |t| && IsDigit(t[i])
    ensures (j, radix) == IntegerPart(t, i)
  {
    hide Digits, DecimalValue;
    j := FindDigits(t, i, 10);
    radix := 10;
    if At(t, j) == 0x72 {
      var r, k := DecimalValue(t[i..j]), AfterSign(t, j + 1);
      var d := FindDigits(t, k, r);
      if r >= 2 && d > k {
        radix, j := r, d;
      }
    }
  }

  method FindNumberEnd(u: Classes, t: Text, i: nat) returns (e: nat)
    requires i < |t| && IsDigit(t[i])
    ensures e == NumberEnd(u, t, i)
  {
    hide Digits, IntegerPart, IsLetter, DigitAt, AfterSign;
    var j, radix := FindIntegerPart(t, i);
    if At(t, j) == 0x2E && DigitAt(t, j + 1, radix) {
      j := FindDigits(t, j + 1, radix);
    }
    var c := At(t, j);
    if IsExponentLetter(c) {
      var k := AfterSign(t, j + 1);
      e := FindDigits(t, k, 10);
      if e > k {
        return;
      }
    }
    if c == 0x73 {
      e := FindDigits(t, j + 1, 10);
      if e > j + 1 || !IsLetter(u, At(t, j + 1)) {
        return;
      }
    }
    e := j;
  }

  lemma MoreKeywordsStep(u: Classes, t: Text, j: nat)
    requires j < |t| && IsLetter(u, At(t, j))
    ensures var k := WordEnd(u, t, j + 1);
      MoreKeywords(u, t, j) == if ColonAt(t, k) then MoreKeywords(u, t, k + 1) else j
  {
    hide IsLetter, WordEnd;
  }

  lemma LetterIsInside(u: Classes, t: Text, j: nat)
    requires IsLetter(u, At(t, j))
    ensures j < |t|
  {}

  lemma MoreKeywordsStop(u: Classes, t: Text, j: nat)
    requires j <= |t|
    requires IsLetter(u, At(t, j)) && j < |t| ==> !ColonAt(t, WordEnd(u, t, j + 1))
    ensures MoreKeywords(u, t, j) == j
  {
    hide IsLetter, WordEnd;
  }

  method FindWordEnd(u: Classes, t: Text, from: nat) returns (j: nat)
    requires from <= |t|
    ensures j == WordEnd(u, t, from)
  {
    hide RunEnd, IsWord;
    j := FindRunEnd(t, from, Word(u));
  }

  method FindKeywordsEnd(u: Classes, t: Text, from: nat) returns (j: nat)
    requires from <= |t|
    ensures j == KeywordsEnd(u, t, from)
  {
    hide RunEnd, IsWord, IsLetter, MoreKeywords, WordEnd;
    j := FindWordEnd(u, t, from);
    if !ColonAt(t, j) {
      return;
    }
    j := j + 1;
    while IsLetter(u, At(t, j))
      invariant from <= j <= |t| && MoreKeywords(u, t, j) == KeywordsEnd(u, t, from)
      decreases |t| - j
    {
      LetterIsInside(u, t, j);
      MoreKeywordsStep(u, t, j);
      var k := FindWordEnd(u, t, j + 1);
      if !ColonAt(t, k) {
        break;
      }
      j := k + 1;
    }
    MoreKeywordsStop(u, t, j);
  }

  /** At a #. */
  method ReadHash(u: Classes, t: Text, r: Reading) returns (k: Token)
    requires r.pos < |t| && t[r.pos] == HASH
    ensures k == HashToken(u, t, r)
  {
    hide RunEnd, QuoteEnd, IsLetter, IsBinary;
    var j := FindRunEnd(t, r.pos + 1, Hashes());
    var c := At(t, j);
    if c == LEFT_PAREN || c == LEFT_BRACKET {
      return Token(Quote, Reading(j + 1, r.stack + [if c == LEFT_PAREN then LiteralArray else ByteArray], false,
        r.pragma));
    }
    if c == APOSTROPHE {
      var e := FindQuoteEnd(t, t[j], j + 1);
      return Token(Quote, r.(pos := if e < |t| then e + 1 else e, operand := true));
    }
    if IsLetter(u, c) {
      var e := FindRunEnd(t, j, WordOrColon(u));
      return Token(Quote, r.(pos := e, operand := true));
    }
    if IsBinary(c) {
      var e := FindRunEnd(t, j, IsBinary);
      return Token(Quote, r.(pos := e, operand := true));
    }
    return Token(Plain, r.(pos := j, operand := false));
  }

  method ReadInLiteralArray(u: Classes, t: Text, r: Reading) returns (k: Token)
    requires r.pos < |t|
    ensures k == LiteralArrayToken(u, t, r)
  {
    hide RunEnd, IsLetter, IsBinary, KeywordsEnd, IsConstant;
    var c, i := t[r.pos], r.pos;
    if c == LEFT_PAREN {
      return Token(Quote, Reading(i + 1, r.stack + [LiteralArray], false, r.pragma));
    }
    if c == RIGHT_PAREN {
      return Token(Quote, r.(pos := i + 1, stack := Popped(r.stack), operand := true));
    }
    var j := i + 1;
    if IsLetter(u, c) {
      j := FindKeywordsEnd(u, t, i);
      return Token(if t[j - 1] != COLON && IsConstant(t[i..j]) then Constant else Quote, r.(pos := j, operand := true));
    }
    if IsBinary(c) {
      j := FindRunEnd(t, j, IsBinary);
    } else if c == COLON && At(t, i + 1) == 0x3D {
      j := j + 1;
    }
    return Token(Quote, r.(pos := j, operand := false));
  }

  /** At a name: a name, a keyword, or keywords that belong together. */
  method ReadName(u: Classes, t: Text, r: Reading) returns (k: Token)
    requires r.pos < |t| && IsLetter(u, t[r.pos])
    ensures k == NameToken(u, t, r)
  {
    hide KeywordsEnd, IsConstant, IsPseudo, IsCapital, IsLetter;
    var i := r.pos;
    var j := FindWordEnd(u, t, i + 1);
    if ColonAt(t, j) {
      j := FindKeywordsEnd(u, t, i);
      return Token(Keyword, r.(pos := j, operand := false));
    }
    var w := t[i..j];
    return Token(if IsPseudo(w) then Special else if IsConstant(w) then Constant
                 else if IsCapital(u, w[0]) then Global else Plain, r.(pos := j, operand := true));
  }

  method ReadCode(u: Classes, t: Text, r0: Reading) returns (k: Token)
    requires r0.pos < |t|
    ensures k == CodeToken(u, t, r0)
  {
    hide RunEnd, IsBinary, NameToken;
    var c, i := t[r0.pos], r0.pos;
    var d := At(t, i + 1);
    var r := r0.(operand := false);
    if IsOpener(c) {
      return Token(Bracketing, r.(pos := i + 1, stack := r.stack + [OpenerOf(c)]));
    }
    if IsCloser(c) {
      return Token(Bracketing, r.(pos := i + 1, stack := Popped(r.stack), operand := true));
    }
    if IsLetter(u, c) {
      k := ReadName(u, t, r);
      return;
    }
    if c == COLON && d == 0x3D {
      return Token(Special, r.(pos := i + 2));
    }
    if c == 0x5E {
      return Token(Special, r.(pos := i + 1));
    }
    if c == 0x2E || c == 0x3B || c == 0x7C {
      return Token(Bracketing, r.(pos := i + 1));
    }
    if r.stack == [] && (if r.pragma then c == 0x3E else c == 0x3C && u.pragma(t, i)) {
      return Token(Bracketing, r.(pos := i + 1, pragma := !r.pragma));
    }
    if c == COLON && IsLetter(u, d) {
      var j := FindRunEnd(t, i + 2, Word(u));
      return Token(Plain, r.(pos := j, operand := true));
    }
    if IsBinary(c) {
      var j := FindRunEnd(t, i + 1, NotBar());
      return Token(Plain, r.(pos := j));
    }
    return Token(Plain, r.(pos := i + 1));
  }

  method ReadToken(u: Classes, t: Text, r: Reading) returns (k: Token)
    requires r.pos < |t|
    ensures k == NextToken(u, t, r)
  {
    hide RunEnd, QuoteEnd, HashToken, LiteralArrayToken, CodeToken, NumberEnd;
    var c, i := t[r.pos], r.pos;
    if IsSeparator(u)(c) {
      var j := FindRunEnd(t, i + 1, IsSeparator(u));
      k := Token(Plain, r.(pos := j));
    } else if c == QUOTE {
      var e := FindQuoteEnd(t, c, i + 1);
      k := Token(Comment, r.(pos := if e < |t| then e + 1 else e));
    } else if c == APOSTROPHE {
      var e := FindQuoteEnd(t, c, i + 1);
      k := Token(String, r.(pos := if e < |t| then e + 1 else e, operand := true));
    } else if c == DOLLAR {
      k := Token(Char, r.(pos := CharacterPieceEnd(t, i), operand := true));
    } else if c == HASH {
      k := ReadHash(u, t, r);
    } else if NumberStarts(t, r) {
      var j := FindNumberEnd(u, t, if c == 0x2D then i + 1 else i);
      k := Token(Number, r.(pos := j, operand := true));
    } else if TopIs(r.stack, ByteArray) {
      k := ByteArrayToken(t, r);
    } else if TopIs(r.stack, LiteralArray) {
      k := ReadInLiteralArray(u, t, r);
    } else {
      k := ReadCode(u, t, r);
    }
  }

  /** The main loop: the pieces of a text, with their kinds and texts. */
  method Highlight(u: Classes, t: Text) returns (out: seq<(Kind, Text)>)
    ensures var pieces := PiecesFrom(u, t, BEGIN, []);
      Covers(pieces) && EndOf(pieces) == |t| && out == Texts(t, pieces)
    ensures AllText(out) == t
  {
    hide NextToken, Covers, Put, EndOf;
    HighlightLosesNothing(u, t);
    var pieces, r := [], BEGIN;
    while r.pos < |t|
      invariant r.pos <= |t| && PiecesFrom(u, t, r, pieces) == PiecesFrom(u, t, BEGIN, [])
      decreases |t| - r.pos
    {
      var k := ReadToken(u, t, r);
      pieces := Put(pieces, k.kind, k.next.pos);
      r := k.next;
    }
    out := TextsOf(t, pieces);
  }

  method TextsOf(t: Text, pieces: seq<Piece>) returns (out: seq<(Kind, Text)>)
    requires Covers(pieces) && EndOf(pieces) <= |t|
    ensures out == Texts(t, pieces)
  {
    hide Covers, Texts;
    out := [];
    var x := |pieces|;
    assert pieces[..x] == pieces;
    NoTexts(t);
    while x > 0
      invariant 0 <= x <= |pieces| && Covers(pieces[..x]) && EndOf(pieces[..x]) <= |t|
      invariant Texts(t, pieces[..x]) + out == Texts(t, pieces)
    {
      x := x - 1;
      assert pieces[..x + 1][..x] == pieces[..x];
      CoversBefore(pieces[..x + 1]);
      LastText(t, pieces[..x + 1]);
      var from := if x == 0 then 0 else pieces[x - 1].end;
      Associative(Texts(t, pieces[..x]), [(pieces[x].kind, t[from..pieces[x].end])], out);
      out := [(pieces[x].kind, t[from..pieces[x].end])] + out;
    }
  }

  lemma NoTexts(t: Text)
    ensures Covers([]) && Texts(t, []) == []
  {}

  lemma LastText(t: Text, pieces: seq<Piece>)
    requires pieces != [] && Covers(pieces) && EndOf(pieces) <= |t|
    ensures var x := |pieces| - 1;
      var from := if x == 0 then 0 else pieces[x - 1].end;
      && Covers(pieces[..x]) && EndOf(pieces[..x]) <= |t| && from <= pieces[x].end <= |t|
      && Texts(t, pieces) == Texts(t, pieces[..x]) + [(pieces[x].kind, t[from..pieces[x].end])]
  {
    CoversBefore(pieces);
  }
}
