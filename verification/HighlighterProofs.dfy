module HighlighterProofs {
  // highlight is a faithful re-reading of scan.

  import opened CodeUnits
  import opened Basics
  import opened Scanner
  import opened Highlighter

  type Extent = (nat, nat)

  /** Where scan finds the strings, comments and characters from a state on, up to a position. */
  ghost function Literals(u: Classes, t: Text, s: Scan, j: nat): seq<Extent>
    requires j <= |t|
    decreases j - s.pos
  {
    if s.pos >= j then []
    else
      var next := Step(u, t, s);
      (if StartsLiteral(t[s.pos]) then [(s.pos, next.pos)] else []) + Literals(u, t, next, j)
  }

  /** Scanning stops at j, with a stack and having found these strings, comments and characters. */
  ghost predicate Scans(u: Classes, t: Text, s: Scan, j: nat, stack: seq<Opener>, found: seq<Extent>)
    requires j <= |t|
  {
    var e := ScanTo(u, t, s, j);
    e.pos == j && e.stack == stack && Literals(u, t, s, j) == found
  }

  /** What lets the scanner go by without a change. */
  predicate Neutral(c: int) {
    !StartsLiteral(c) && c != HASH && !IsOpener(c) && !IsCloser(c)
  }

  lemma OneStep(u: Classes, t: Text, s: Scan)
    requires s.pos < |t|
    ensures var e := Step(u, t, s);
      Scans(u, t, s, e.pos, e.stack, if StartsLiteral(t[s.pos]) then [(s.pos, e.pos)] else [])
  {
    hide Step, StartsLiteral;
    var e := Step(u, t, s);
    assert Literals(u, t, e, e.pos) == [];
    assert [(s.pos, e.pos)] + [] == [(s.pos, e.pos)];
  }

  lemma {:induction false} ThenScans(u: Classes, t: Text, s: Scan, j: nat, k: nat, stack: seq<Opener>,
                                     first: seq<Extent>, last: seq<Opener>, second: seq<Extent>)
    requires j <= k <= |t|
    requires Scans(u, t, s, j, stack, first) && Scans(u, t, ScanTo(u, t, s, j), k, last, second)
    ensures ScanTo(u, t, s, k) == ScanTo(u, t, ScanTo(u, t, s, j), k)
    ensures Scans(u, t, s, k, last, first + second)
    decreases j - s.pos
  {
    hide Step, StartsLiteral;
    if s.pos < j {
      var next := Step(u, t, s);
      var here := if StartsLiteral(t[s.pos]) then [(s.pos, next.pos)] else [];
      var rest := Literals(u, t, next, j);
      assert first == here + rest;
      ThenScans(u, t, next, j, k, stack, rest, last, second);
      assert here + (rest + second) == first + second;
    } else {
      assert [] + second == second;
    }
  }

  /** The same, when the first part finds nothing. */
  lemma QuietThenScans(u: Classes, t: Text, s: Scan, j: nat, k: nat, stack: seq<Opener>, last: seq<Opener>,
    found: seq<Extent>)
    requires j <= k <= |t|
    requires Scans(u, t, s, j, stack, []) && Scans(u, t, ScanTo(u, t, s, j), k, last, found)
    ensures ScanTo(u, t, s, k) == ScanTo(u, t, ScanTo(u, t, s, j), k)
    ensures Scans(u, t, s, k, last, found)
  {
    ThenScans(u, t, s, j, k, stack, [], last, found);
    assert [] + found == found;
  }

  lemma {:induction false} NeutralRun(u: Classes, t: Text, s: Scan, j: nat)
    requires s.pos <= j <= |t|
    requires forall k :: s.pos <= k < j ==> Neutral(t[k])
    ensures Scans(u, t, s, j, s.stack, [])
    decreases j - s.pos
  {
    hide QuoteStep, DollarStep, HashStep;
    if s.pos < j {
      assert Neutral(t[s.pos]);
      var next := Step(u, t, s);
      assert next.pos == s.pos + 1 && next.stack == s.stack;
      NeutralRun(u, t, next, j);
    }
  }

  lemma WordsAreNeutral(u: Classes, c: int)
    ensures IsWord(u, c) || IsLetter(u, c) || IsDigit(c) || IsBinary(c) || c == COLON || IsSeparator(u)(c) ==>
      Neutral(c)
    ensures DigitValue(c) < NO_DIGIT ==> Neutral(c)
  {}

  // ---- numbers and names have neutral characters only

  ghost predicate NeutralFrom(t: Text, i: nat, j: nat) {
    forall k :: i <= k < j && k < |t| ==> Neutral(t[k])
  }

  lemma RunIsNeutral(u: Classes, t: Text, i: nat, p: int -> bool)
    requires i <= |t|
    requires forall c :: p(c) ==> Neutral(c)
    ensures NeutralFrom(t, i, RunEnd(t, i, p))
  {}

  lemma {:induction false} MoreDigitsAreNeutral(u: Classes, t: Text, j: nat, radix: nat)
    requires j <= |t|
    ensures NeutralFrom(t, j, MoreDigits(t, j, radix))
    decreases |t| - j
  {
    forall c { WordsAreNeutral(u, c); }
    if At(t, j) == UNDERSCORE && DigitAt(t, j + 1, radix) {
      MoreDigitsAreNeutral(u, t, j + 2, radix);
    } else if DigitAt(t, j, radix) {
      MoreDigitsAreNeutral(u, t, j + 1, radix);
    }
  }

  lemma DigitsAreNeutral(u: Classes, t: Text, j: nat, radix: nat)
    requires j <= |t|
    ensures NeutralFrom(t, j, Digits(t, j, radix))
  {
    if DigitAt(t, j, radix) {
      WordsAreNeutral(u, t[j]);
      MoreDigitsAreNeutral(u, t, j + 1, radix);
    }
  }

  lemma IntegerPartIsNeutral(u: Classes, t: Text, i: nat)
    requires i < |t| && IsDigit(t[i])
    ensures NeutralFrom(t, i, IntegerPart(t, i).0)
  {
    hide Digits, DecimalValue;
    var j := Digits(t, i, 10);
    var radix, k := DecimalValue(t[i..j]), AfterSign(t, j + 1);
    DigitsAreNeutral(u, t, i, 10);
    if k <= |t| {
      DigitsAreNeutral(u, t, k, radix);
    }
  }

  lemma FractionIsNeutral(u: Classes, t: Text, j: nat, radix: nat)
    requires j <= |t|
    ensures NeutralFrom(t, j, FractionEnd(t, j, radix))
  {
    hide Digits, DigitAt;
    if j + 1 <= |t| {
      DigitsAreNeutral(u, t, j + 1, radix);
    }
  }

  lemma ExponentIsNeutral(u: Classes, t: Text, j: nat)
    requires j <= |t|
    ensures NeutralFrom(t, j, ExponentEnd(u, t, j))
  {
    hide Digits, IsLetter;
    forall k: nat | k <= |t| ensures NeutralFrom(t, k, Digits(t, k, 10)) { DigitsAreNeutral(u, t, k, 10); }
  }

  lemma NumberIsNeutral(u: Classes, t: Text, i: nat)
    requires i < |t| && IsDigit(t[i])
    ensures NeutralFrom(t, i, NumberEnd(u, t, i))
  {
    hide IntegerPart, FractionEnd, ExponentEnd;
    var (j, radix) := IntegerPart(t, i);
    IntegerPartIsNeutral(u, t, i);
    FractionIsNeutral(u, t, j, radix);
    ExponentIsNeutral(u, t, FractionEnd(t, j, radix));
  }

  lemma {:induction false} MoreKeywordsAreNeutral(u: Classes, t: Text, j: nat)
    requires j <= |t|
    ensures NeutralFrom(t, j, MoreKeywords(u, t, j))
    decreases |t| - j
  {
    hide IsWord, Neutral;
    forall c { WordsAreNeutral(u, c); }
    if IsLetter(u, At(t, j)) {
      var k := WordEnd(u, t, j + 1);
      RunIsNeutral(u, t, j + 1, Word(u));
      if ColonAt(t, k) {
        MoreKeywordsAreNeutral(u, t, k + 1);
      }
    }
  }

  lemma KeywordsAreNeutral(u: Classes, t: Text, j: nat)
    requires j <= |t|
    ensures NeutralFrom(t, j, KeywordsEnd(u, t, j))
  {
    hide IsLetter, IsWord, Neutral;
    forall c { WordsAreNeutral(u, c); }
    RunIsNeutral(u, t, j, Word(u));
    var k := WordEnd(u, t, j);
    if ColonAt(t, k) {
      MoreKeywordsAreNeutral(u, t, k + 1);
    }
  }

  // ---- one token

  /** The string, comment or character that a token is or ends with, when there is one. */
  ghost function LiteralOf(t: Text, i: nat, k: Token): seq<Extent>
    requires i < |t|
  {
    if k.kind == Comment || k.kind == String || k.kind == Char then [(i, k.next.pos)]
    else if t[i] == HASH && At(t, RunEnd(t, i + 1, Hashes())) == APOSTROPHE then
      [(RunEnd(t, i + 1, Hashes()), k.next.pos)]
    else []
  }

  /** The token that highlight reads is a run of steps of scan. */
  ghost predicate Faithful(u: Classes, t: Text, s: Scan, r: Reading, k: Token)
    requires s.pos == r.pos < |t| && k.next.pos <= |t|
  {
    Scans(u, t, s, k.next.pos, k.next.stack, LiteralOf(t, r.pos, k))
  }

  lemma {:induction false} HashRun(u: Classes, t: Text, s: Scan, j: nat)
    requires s.pos <= j < |t|
    requires forall k :: s.pos <= k <= j ==> t[k] == HASH
    ensures Scans(u, t, s, j, s.stack, []) && ScanTo(u, t, s, j) == s.(pos := j)
    decreases j - s.pos
  {
    if s.pos < j {
      var next := Step(u, t, s);
      assert t[s.pos] == HASH && t[s.pos + 1] == HASH;
      assert next == s.(pos := s.pos + 1);
      HashRun(u, t, next, j);
    }
  }

  /** The last # before what it begins. */
  lemma {:induction false} LastHash(u: Classes, t: Text, s: Scan, j: nat)
    requires s.pos < j <= |t| && j == RunEnd(t, s.pos + 1, Hashes()) && t[s.pos] == HASH
    ensures var next := Step(u, t, s.(pos := j - 1));
      ScanTo(u, t, s, j - 1) == s.(pos := j - 1) && Scans(u, t, s, next.pos, next.stack, []) &&
      ScanTo(u, t, s, next.pos) == next
  {
    hide Scans, RunEnd, QuoteEnd, Step;
    HashRun(u, t, s, j - 1);
    var last := s.(pos := j - 1);
    OneStep(u, t, last);
    var next := Step(u, t, last);
    assert t[j - 1] == HASH;
    QuietThenScans(u, t, s, j - 1, next.pos, s.stack, next.stack, []);
  }

  /** The # before a quoted symbol is a step of its own. */
  lemma HashBeforeQuote(u: Classes, t: Text, s: Scan)
    requires s.pos < |t| && t[s.pos] == HASH && At(t, s.pos + 1) == APOSTROPHE
    ensures Step(u, t, s) == s.(pos := s.pos + 1)
  {
    WordsAreNeutral(u, APOSTROPHE);
  }

  lemma QuotedSymbolToken(u: Classes, t: Text, r: Reading)
    requires r.pos < |t| && t[r.pos] == HASH
    requires At(t, RunEnd(t, r.pos + 1, Hashes())) == APOSTROPHE
    ensures var j, k := RunEnd(t, r.pos + 1, Hashes()), HashToken(u, t, r);
      j < |t| && k.next == r.(pos := QuotedEnd(t, j), operand := true) && LiteralOf(t, r.pos, k) == [(j, k.next.pos)]
  {
    hide QuotedEnd, IsLetter, IsBinary;
  }

  lemma {:induction false} QuotedSymbolIsFaithful(u: Classes, t: Text, s: Scan, r: Reading)
    requires s.pos == r.pos < |t| && s.stack == r.stack && t[r.pos] == HASH
    requires At(t, RunEnd(t, r.pos + 1, Hashes())) == APOSTROPHE
    ensures Faithful(u, t, s, r, HashToken(u, t, r))
  {
    hide Scans, RunEnd, ScanTo, HashToken, LiteralOf, Step;
    var j := RunEnd(t, r.pos + 1, Hashes());
    QuotedSymbolToken(u, t, r);
    LastHash(u, t, s, j);
    HashIsThere(t, s.pos, j);
    var last := s.(pos := j - 1);
    HashBeforeQuote(u, t, last);
    var next := s.(pos := j);
    assert Step(u, t, last) == next;
    QuoteAlone(u, t, next);
    QuietThenScans(u, t, s, j, QuotedEnd(t, j), s.stack, s.stack, [(j, QuotedEnd(t, j))]);
  }

  lemma HashIsThere(t: Text, i: nat, j: nat)
    requires i < |t| && t[i] == HASH && j == RunEnd(t, i + 1, Hashes())
    ensures i < j <= |t| && t[j - 1] == HASH
  {}

  lemma QuoteAlone(u: Classes, t: Text, s: Scan)
    requires s.pos < |t| && (t[s.pos] == APOSTROPHE || t[s.pos] == QUOTE)
    ensures Scans(u, t, s, QuotedEnd(t, s.pos), s.stack, [(s.pos, QuotedEnd(t, s.pos))])
  {
    hide Scans, QuoteEnd;
    OneStep(u, t, s);
  }

  lemma {:induction false} HashIsFaithful(u: Classes, t: Text, s: Scan, r: Reading)
    requires s.pos == r.pos < |t| && s.stack == r.stack && t[r.pos] == HASH
    ensures Faithful(u, t, s, r, HashToken(u, t, r))
  {
    hide Scans, RunEnd, QuoteStep, QuotedEnd, IsLetter, IsBinary, ScanTo;
    var j := RunEnd(t, r.pos + 1, Hashes());
    if At(t, j) == APOSTROPHE {
      QuotedSymbolIsFaithful(u, t, s, r);
    } else {
      LastHash(u, t, s, j);
    }
  }

  lemma NeutralIsFaithful(u: Classes, t: Text, s: Scan, r: Reading, k: Token)
    requires s.pos == r.pos < |t| && s.stack == r.stack && r.pos < k.next.pos <= |t|
    requires NeutralFrom(t, r.pos, k.next.pos) && k.next.stack == r.stack
    requires k.kind != Comment && k.kind != String && k.kind != Char
    ensures Faithful(u, t, s, r, k)
  {
    assert Neutral(t[r.pos]);
    NeutralRun(u, t, s, k.next.pos);
  }

  lemma BinaryRunIsNeutral(u: Classes, t: Text, i: nat, p: int -> bool)
    requires i < |t| && IsBinary(t[i]) && forall c :: p(c) ==> IsBinary(c)
    ensures NeutralFrom(t, i, RunEnd(t, i + 1, p))
  {
    hide IsBinary;
    forall c { WordsAreNeutral(u, c); }
  }

  lemma TwoAreNeutral(t: Text, i: nat)
    requires i + 1 < |t| && Neutral(t[i]) && Neutral(t[i + 1])
    ensures NeutralFrom(t, i, i + 2)
  {}

  lemma OneIsNeutral(t: Text, i: nat)
    requires i < |t| && Neutral(t[i])
    ensures NeutralFrom(t, i, i + 1)
  {}

  lemma ByteArrayIsFaithful(u: Classes, t: Text, s: Scan, r: Reading)
    requires s.pos == r.pos < |t| && s.stack == r.stack
    requires TopIs(r.stack, ByteArray) && !StartsLiteral(t[r.pos]) && t[r.pos] != HASH
    ensures Faithful(u, t, s, r, ByteArrayToken(t, r))
  {
    OneStep(u, t, s);
  }

  lemma LiteralArrayIsFaithful(u: Classes, t: Text, s: Scan, r: Reading)
    requires s.pos == r.pos < |t| && s.stack == r.stack
    requires TopIs(r.stack, LiteralArray) && !StartsLiteral(t[r.pos]) && t[r.pos] != HASH
    ensures Faithful(u, t, s, r, LiteralArrayToken(u, t, r))
  {
    hide Scans, RunEnd, IsLetter, IsBinary, KeywordsEnd, IsConstant, NeutralFrom;
    var i, c, k := r.pos, t[r.pos], LiteralArrayToken(u, t, r);
    WordsAreNeutral(u, c);
    if IsLetter(u, c) {
      KeywordsAreNeutral(u, t, i);
      NeutralIsFaithful(u, t, s, r, k);
    } else if IsBinary(c) {
      BinaryRunIsNeutral(u, t, i, IsBinary);
      NeutralIsFaithful(u, t, s, r, k);
    } else if c == COLON && At(t, i + 1) == 0x3D {
      TwoAreNeutral(t, i);
      NeutralIsFaithful(u, t, s, r, k);
    } else {
      OneStep(u, t, s);
    }
  }

  lemma NameIsFaithful(u: Classes, t: Text, s: Scan, r: Reading)
    requires s.pos == r.pos < |t| && s.stack == r.stack && IsLetter(u, t[r.pos])
    ensures Faithful(u, t, s, r, NameToken(u, t, r))
  {
    hide Scans, RunEnd, IsLetter, IsPseudo, IsConstant, IsCapital, KeywordsEnd, Faithful;
    var i := r.pos;
    KeywordsAreNeutral(u, t, i);
    WordsAreNeutral(u, t[i]);
    forall c { WordsAreNeutral(u, c); }
    RunIsNeutral(u, t, i + 1, Word(u));
    NeutralIsFaithful(u, t, s, r, NameToken(u, t, r));
  }

  lemma CodeIsFaithful(u: Classes, t: Text, s: Scan, r: Reading)
    requires s.pos == r.pos < |t| && s.stack == r.stack
    requires !TopIs(r.stack, ByteArray) && !TopIs(r.stack, LiteralArray) && !StartsLiteral(t[r.pos]) && t[r.pos] != HASH
    ensures Faithful(u, t, s, r, CodeToken(u, t, r))
  {
    hide Scans, RunEnd, IsLetter, IsBinary, KeywordsEnd, NeutralFrom, NameToken, WordEnd, Neutral, Faithful;
    var i, c, k := r.pos, t[r.pos], CodeToken(u, t, r);
    WordsAreNeutral(u, c);
    if IsOpener(c) || IsCloser(c) {
      BracketIsFaithful(u, t, s, r);
    } else if IsLetter(u, c) {
      NameIsFaithful(u, t, s, r.(operand := false));
      SameFaithful(u, t, s, r.(operand := false), r, k);
    } else {
      assert Neutral(c) by { OtherIsNeutral(c); }
      OneIsNeutral(t, i);
      if i + 1 < |t| {
        WordsAreNeutral(u, t[i + 1]);
        OtherIsNeutral(0x3D);
        if c == COLON && (t[i + 1] == 0x3D || IsLetter(u, t[i + 1])) {
          TwoAreNeutral(t, i);
          BlockParameterIsNeutral(u, t, i);
        }
      }
      if IsBinary(c) {
        BinaryRunIsNeutral(u, t, i, NotBar());
      }
      NeutralIsFaithful(u, t, s, r, k);
    }
  }

  lemma OtherIsNeutral(c: int)
    requires !IsOpener(c) && !IsCloser(c) && !StartsLiteral(c) && c != HASH
    ensures Neutral(c)
  {}

  lemma SameFaithful(u: Classes, t: Text, s: Scan, r: Reading, r': Reading, k: Token)
    requires s.pos == r.pos == r'.pos < |t| && k.next.pos <= |t| && Faithful(u, t, s, r, k)
    ensures Faithful(u, t, s, r', k)
  {}

  lemma BlockParameterIsNeutral(u: Classes, t: Text, i: nat)
    requires i + 1 < |t| && t[i] == COLON && (IsLetter(u, t[i + 1]) || t[i + 1] == 0x3D)
    ensures NeutralFrom(t, i, WordEnd(u, t, i + 2))
  {
    hide IsLetter, RunEnd;
    WordsAreNeutral(u, t[i + 1]);
    forall c { WordsAreNeutral(u, c); }
    RunIsNeutral(u, t, i + 2, Word(u));
  }

  lemma BracketIsFaithful(u: Classes, t: Text, s: Scan, r: Reading)
    requires s.pos == r.pos < |t| && s.stack == r.stack
    requires !TopIs(r.stack, ByteArray) && !TopIs(r.stack, LiteralArray) && (IsOpener(t[r.pos]) || IsCloser(t[r.pos]))
    ensures Faithful(u, t, s, r, CodeToken(u, t, r))
  {
    OneStep(u, t, s);
  }

  /** Every token that highlight reads is a run of whole steps of scan, from the same stack to
      the same stack, in which the strings, comments and characters are those colored so. */
  lemma TokenIsFaithful(u: Classes, t: Text, s: Scan, r: Reading)
    requires s.pos == r.pos < |t| && s.stack == r.stack
    ensures Faithful(u, t, s, r, NextToken(u, t, r))
  {
    hide Scans, Faithful, RunEnd, QuoteEnd, HashToken, ByteArrayToken, LiteralArrayToken, CodeToken, NumberEnd,
      NumberStarts, IsLetter, IsBinary, NeutralFrom, IsSeparator, Neutral;
    var i, c, k := r.pos, t[r.pos], NextToken(u, t, r);
    WordsAreNeutral(u, c);
    if IsSeparator(u)(c) {
      SeparatorsAreNeutral(u, t, i);
      NeutralIsFaithful(u, t, s, r, k);
    } else if StartsLiteral(c) {
      LiteralIsFaithful(u, t, s, r);
    } else if c == HASH {
      HashIsFaithful(u, t, s, r);
    } else if NumberStarts(t, r) {
      SignedNumberIsNeutral(u, t, r);
      NeutralIsFaithful(u, t, s, r, k);
    } else if TopIs(r.stack, ByteArray) {
      ByteArrayIsFaithful(u, t, s, r);
    } else if TopIs(r.stack, LiteralArray) {
      LiteralArrayIsFaithful(u, t, s, r);
    } else {
      CodeIsFaithful(u, t, s, r);
    }
  }

  lemma SeparatorsAreNeutral(u: Classes, t: Text, i: nat)
    requires i < |t| && IsSeparator(u)(t[i])
    ensures NeutralFrom(t, i, RunEnd(t, i + 1, IsSeparator(u)))
  {
    forall c { WordsAreNeutral(u, c); }
  }

  lemma SignedNumberIsNeutral(u: Classes, t: Text, r: Reading)
    requires r.pos < |t| && NumberStarts(t, r)
    ensures NeutralFrom(t, r.pos, NumberEnd(u, t, if t[r.pos] == 0x2D then r.pos + 1 else r.pos))
  {
    hide NumberEnd;
    NumberIsNeutral(u, t, if t[r.pos] == 0x2D then r.pos + 1 else r.pos);
  }

  lemma LiteralIsFaithful(u: Classes, t: Text, s: Scan, r: Reading)
    requires s.pos == r.pos < |t| && s.stack == r.stack && StartsLiteral(t[r.pos])
    requires !IsSeparator(u)(t[r.pos])
    ensures Faithful(u, t, s, r, NextToken(u, t, r))
  {
    hide Scans, QuoteEnd;
    OneStep(u, t, s);
  }

  // ---- the whole text

  /** The readings of highlight at its token boundaries. */
  ghost function Boundaries(u: Classes, t: Text, r: Reading): seq<Reading>
    decreases |t| - r.pos
  {
    [r] + if r.pos >= |t| then [] else Boundaries(u, t, NextToken(u, t, r).next)
  }

  /** The strings, comments and characters that highlight colors. */
  ghost function Colored(u: Classes, t: Text, r: Reading): seq<Extent>
    decreases |t| - r.pos
  {
    if r.pos >= |t| then []
    else
      var k := NextToken(u, t, r);
      LiteralOf(t, r.pos, k) + Colored(u, t, k.next)
  }

  lemma {:induction false} ReadingAgrees(u: Classes, t: Text, r: Reading, s: Scan)
    requires s.pos == r.pos <= |t| && s.stack == r.stack
    ensures forall b :: b in Boundaries(u, t, r) ==>
      b.pos <= |t| && ScanTo(u, t, s, b.pos).pos == b.pos && ScanTo(u, t, s, b.pos).stack == b.stack
    ensures Literals(u, t, s, |t|) == Colored(u, t, r)
    decreases |t| - r.pos
  {
    hide NextToken, LiteralOf, Step;
    if r.pos < |t| {
      var k := NextToken(u, t, r);
      TokenIsFaithful(u, t, s, r);
      var here := ScanTo(u, t, s, k.next.pos);
      ReadingAgrees(u, t, k.next, here);
      forall b | b in Boundaries(u, t, k.next) ensures ScanTo(u, t, s, b.pos) == ScanTo(u, t, here, b.pos) {
        BoundariesAreAhead(u, t, k.next, b);
        var e := ScanTo(u, t, here, b.pos);
        ThenScans(u, t, s, k.next.pos, b.pos, k.next.stack, LiteralOf(t, r.pos, k), e.stack,
          Literals(u, t, here, b.pos));
      }
      ThenScans(u, t, s, k.next.pos, |t|, k.next.stack, LiteralOf(t, r.pos, k),
                ScanTo(u, t, here, |t|).stack, Literals(u, t, here, |t|));
    }
  }

  lemma {:induction false} BoundariesAreAhead(u: Classes, t: Text, r: Reading, b: Reading)
    requires b in Boundaries(u, t, r)
    ensures r.pos <= b.pos
    decreases |t| - r.pos
  {
    hide NextToken;
    if r.pos < |t| && b != r {
      BoundariesAreAhead(u, t, NextToken(u, t, r).next, b);
    }
  }

  /** On any text: at every token boundary of highlight scan stands between two steps, with the
      same open brackets, and both find the same strings, comments and characters. */
  lemma HighlightAgreesWithScan(u: Classes, t: Text)
    ensures forall b :: b in Boundaries(u, t, BEGIN) ==>
      b.pos <= |t| && ScanTo(u, t, START, b.pos).pos == b.pos && ScanTo(u, t, START, b.pos).stack == b.stack
    ensures Literals(u, t, START, |t|) == Colored(u, t, BEGIN)
  {
    ReadingAgrees(u, t, BEGIN, START);
  }

  // ---- the pieces

  ghost function Repeat(kind: Kind, n: int): seq<Kind> { if n <= 0 then [] else seq(n, _ => kind) }

  /** The kind of every character. */
  ghost function Colors(pieces: seq<Piece>): seq<Kind> {
    if pieces == [] then []
    else
      var n := |pieces| - 1;
      var before := Colors(pieces[..n]);
      before + Repeat(pieces[n].kind, pieces[n].end - |before|)
  }

  ghost function TokenColors(u: Classes, t: Text, r: Reading): seq<Kind>
    decreases |t| - r.pos
  {
    if r.pos >= |t| then []
    else
      var k := NextToken(u, t, r);
      Repeat(k.kind, k.next.pos - r.pos) + TokenColors(u, t, k.next)
  }

  lemma {:induction false} ColorsReachTheEnd(pieces: seq<Piece>)
    requires Covers(pieces)
    ensures |Colors(pieces)| == EndOf(pieces)
  {
    if pieces != [] {
      ColorsReachTheEnd(pieces[..|pieces| - 1]);
    }
  }

  lemma PutCovers(pieces: seq<Piece>, kind: Kind, j: nat)
    requires Covers(pieces) && EndOf(pieces) < j
    ensures Covers(Put(pieces, kind, j)) && EndOf(Put(pieces, kind, j)) == j
  {}

  lemma {:induction false} ColorsPush(before: seq<Piece>, p: Piece)
    ensures Colors(before + [p]) == Colors(before) + Repeat(p.kind, p.end - |Colors(before)|)
  {
    hide Repeat;
    assert (before + [p])[..|before|] == before;
  }

  lemma LongerRepeat(a: seq<Kind>, kind: Kind, e: nat, j: nat)
    requires |a| <= e <= j
    ensures a + Repeat(kind, j - |a|) == (a + Repeat(kind, e - |a|)) + Repeat(kind, j - e)
  {}

  lemma {:induction false} LongerPiece(before: seq<Piece>, kind: Kind, e: nat, j: nat)
    requires |Colors(before)| <= e <= j
    ensures Colors(before + [Piece(kind, j)]) == Colors(before + [Piece(kind, e)]) + Repeat(kind, j - e)
  {
    hide *;
    ColorsPush(before, Piece(kind, j));
    ColorsPush(before, Piece(kind, e));
    LongerRepeat(Colors(before), kind, e, j);
  }

  lemma {:induction false} PutColors(pieces: seq<Piece>, kind: Kind, j: nat)
    requires Covers(pieces) && EndOf(pieces) < j
    ensures Colors(Put(pieces, kind, j)) == Colors(pieces) + Repeat(kind, j - EndOf(pieces))
  {
    hide Repeat, Colors, Covers;
    ColorsReachTheEnd(pieces);
    var n := |pieces| - 1;
    if n >= 0 && pieces[n].kind == kind {
      CoversBefore(pieces);
      ColorsReachTheEnd(pieces[..n]);
      assert pieces == pieces[..n] + [Piece(kind, pieces[n].end)];
      LongerPiece(pieces[..n], kind, pieces[n].end, j);
    } else {
      ColorsPush(pieces, Piece(kind, j));
    }
  }

  /** Every character has the color of its token, whatever tokens a piece is made of. */
  lemma {:induction false} PiecesHaveTheColorsOfTokens(u: Classes, t: Text, r: Reading, pieces: seq<Piece>)
    requires Covers(pieces) && EndOf(pieces) == r.pos <= |t|
    ensures var all := PiecesFrom(u, t, r, pieces);
      Covers(all) && EndOf(all) == |t| && Colors(all) == Colors(pieces) + TokenColors(u, t, r)
    decreases |t| - r.pos
  {
    hide NextToken, Put, Colors, Covers;
    if r.pos < |t| {
      var k := NextToken(u, t, r);
      PutCovers(pieces, k.kind, k.next.pos);
      PutColors(pieces, k.kind, k.next.pos);
      PiecesHaveTheColorsOfTokens(u, t, k.next, Put(pieces, k.kind, k.next.pos));
      Associative(Colors(pieces), Repeat(k.kind, k.next.pos - r.pos), TokenColors(u, t, k.next));
    }
  }

  function AllText(texts: seq<(Kind, Text)>): Text {
    if texts == [] then [] else AllText(texts[..|texts| - 1]) + texts[|texts| - 1].1
  }

  lemma {:induction false} TextsJoin(t: Text, pieces: seq<Piece>)
    requires Covers(pieces) && EndOf(pieces) <= |t|
    ensures AllText(Texts(t, pieces)) == t[..EndOf(pieces)]
    ensures forall k :: 0 <= k < |pieces| ==> Texts(t, pieces)[k].1 != []
  {
    hide Covers;
    if pieces != [] {
      CoversBefore(pieces);
      var before := pieces[..|pieces| - 1];
      TextsJoin(t, before);
      var last := Texts(t, pieces)[|before|];
      assert Texts(t, pieces) == Texts(t, before) + [last];
      assert Texts(t, pieces)[..|before|] == Texts(t, before);
      hide Texts;
      assert t[..EndOf(before)] + t[EndOf(before)..EndOf(pieces)] == t[..EndOf(pieces)];
    }
  }

  /** The texts of the pieces add up to the source, whatever it is. */
  lemma HighlightLosesNothing(u: Classes, t: Text)
    ensures var pieces := PiecesFrom(u, t, BEGIN, []);
      Covers(pieces) && EndOf(pieces) == |t| && AllText(Texts(t, pieces)) == t
    ensures Colors(PiecesFrom(u, t, BEGIN, [])) == TokenColors(u, t, BEGIN)
  {
    hide PiecesFrom, TokenColors;
    PiecesHaveTheColorsOfTokens(u, t, BEGIN, []);
    TextsJoin(t, PiecesFrom(u, t, BEGIN, []));
  }
}
