/** What the colors mean: which kind highlight gives to which words, and how far
    its tokens go. */
module HighlightKinds {
  import opened Basics
  import opened CodeUnits
  import opened Scanner
  import opened Highlighter

  /** The text of the token at a reading. */
  function TokenText(u: Classes, t: Text, r: Reading): (w: Text)
    requires r.pos < |t|
    ensures w != [] && w[0] == t[r.pos]
  {
    t[r.pos..NextToken(u, t, r).next.pos]
  }

  predicate InArray(r: Reading) { TopIs(r.stack, LiteralArray) || TopIs(r.stack, ByteArray) }

  /** The kinds that the other tokens have. */
  lemma KindsOfOthers(u: Classes, t: Text, r: Reading)
    requires r.pos < |t|
    ensures t[r.pos] == HASH ==> var kind := HashToken(u, t, r).kind; kind == Quote || kind == Plain
    ensures var kind := ByteArrayToken(t, r).kind; kind == Quote || kind == Plain
    ensures var kind := LiteralArrayToken(u, t, r).kind; kind == Quote || kind == Constant
    ensures var kind := CodeToken(u, t, r).kind;
      kind == Plain || kind == Constant || kind == Special || kind == Keyword || kind == Bracketing || kind == Global
  {
    hide RunEnd, QuotedEnd, KeywordsEnd, IsPseudo, IsConstant, IsCapital, IsBinary, IsLetter, WordEnd;
  }

  /** Everywhere: a comment begins with ", a string with ', a character with $; and a number with a digit, or
      with a - before one where no value stands in front of it, or in an array. */
  lemma LiteralsAreTold(u: Classes, t: Text, r: Reading)
    requires r.pos < |t|
    ensures var kind, c := NextToken(u, t, r).kind, t[r.pos];
      && (kind == Comment <==> c == 0x22)
      && (kind == String <==> c == 0x27)
      && (kind == Char <==> c == 0x24)
      && (kind == Number <==>
            0x30 <= c <= 0x39 ||
            (c == 0x2D && r.pos + 1 < |t| && 0x30 <= t[r.pos + 1] <= 0x39 && (!r.operand || InArray(r))))
  {
    KindsOfOthers(u, t, r);
    SeparatorsAreOther(u, t[r.pos]);
    hide RunEnd, QuotedEnd, NumberEnd, HashToken, ByteArrayToken, LiteralArrayToken, CodeToken, CharacterPieceEnd,
      IsSeparator, NumberStarts;
    StartsAsToken(t, r);
  }

  lemma StartsAsToken(t: Text, r: Reading)
    requires r.pos < |t|
    ensures var c := t[r.pos];
      NumberStarts(t, r) <==>
        0x30 <= c <= 0x39 ||
        (c == 0x2D && r.pos + 1 < |t| && 0x30 <= t[r.pos + 1] <= 0x39 && (!r.operand || InArray(r)))
  {}

  lemma SeparatorsAreOther(u: Classes, c: Unit)
    ensures IsSeparator(u)(c) ==> c !in {0x22, 0x23, 0x24, 0x27, 0x2D} && !(0x30 <= c <= 0x39)
  {}

  predicate IsWordOf(w: Text, words: seq<string>) { exists k :: 0 <= k < |words| && w == Units(words[k]) }

  const PSEUDOS: seq<string> := ["self", "super", "thisContext"]
  const CONSTANTS: seq<string> := ["nil", "true", "false"]

  lemma WordsOfCode(w: Text)
    ensures IsPseudo(w) <==> IsWordOf(w, PSEUDOS)
    ensures IsConstant(w) <==> IsWordOf(w, CONSTANTS)
  {
    hide Units;
    if IsPseudo(w) {
      assert w == Units(PSEUDOS[0]) || w == Units(PSEUDOS[1]) || w == Units(PSEUDOS[2]);
    }
    if IsConstant(w) {
      assert w == Units(CONSTANTS[0]) || w == Units(CONSTANTS[1]) || w == Units(CONSTANTS[2]);
    }
  }

  lemma KeywordsEndInColon(u: Classes, t: Text, j: nat)
    requires j <= |t| && ColonAt(t, WordEnd(u, t, j))
    ensures var e := KeywordsEnd(u, t, j); e > j && t[e - 1] == COLON
  {
    hide IsLetter, WordEnd;
    MoreKeywordsEndInColon(u, t, WordEnd(u, t, j) + 1);
  }

  lemma {:induction false} MoreKeywordsEndInColon(u: Classes, t: Text, j: nat)
    requires 0 < j <= |t| && t[j - 1] == COLON
    ensures var e := MoreKeywords(u, t, j); e > 0 && t[e - 1] == COLON
    decreases |t| - j
  {
    hide IsLetter, WordEnd;
    if IsLetter(u, At(t, j)) && j < |t| && ColonAt(t, WordEnd(u, t, j + 1)) {
      MoreKeywordsEndInColon(u, t, WordEnd(u, t, j + 1) + 1);
    }
  }

  lemma WordHasNoColon(u: Classes, t: Text, j: nat, k: nat)
    requires j <= |t| && j <= k < WordEnd(u, t, j)
    ensures IsWord(u, t[k])
  {}

  lemma ColonIsNoWord(u: Classes)
    ensures !IsWord(u, COLON) && !IsLetter(u, COLON)
  {}

  /** In code, for what begins with a letter: a keyword ends with its colon; self, super and thisContext are
      special, nil, true and false constants; another name is global when it is capitalized, else plain. */
  lemma NamesAreTold(u: Classes, t: Text, r: Reading)
    requires r.pos < |t| && IsLetter(u, t[r.pos]) && !InArray(r) && !IsSeparator(u)(t[r.pos])
    ensures var kind, w := NextToken(u, t, r).kind, TokenText(u, t, r);
      && (kind == Keyword <==> w[|w| - 1] == 0x3A)
      && (kind == Special <==> IsWordOf(w, PSEUDOS))
      && (kind == Constant <==> IsWordOf(w, CONSTANTS))
      && (kind == Global <==>
            w[|w| - 1] != 0x3A && IsCapital(u, w[0]) && !IsWordOf(w, PSEUDOS) && !IsWordOf(w, CONSTANTS))
      && (kind == Keyword || kind == Special || kind == Constant || kind == Global || kind == Plain)
  {
    LetterIsAName(u, t, r);
    NameIsTold(u, t, r.(operand := false));
    hide NextToken, NameToken, IsWordOf, IsLetter, IsCapital;
  }

  lemma NameIsTold(u: Classes, t: Text, r: Reading)
    requires r.pos < |t| && IsLetter(u, t[r.pos])
    ensures var k := NameToken(u, t, r);
      var kind, w := k.kind, t[r.pos..k.next.pos];
      && (kind == Keyword <==> w[|w| - 1] == 0x3A)
      && (kind == Special <==> IsWordOf(w, PSEUDOS))
      && (kind == Constant <==> IsWordOf(w, CONSTANTS))
      && (kind == Global <==>
            w[|w| - 1] != 0x3A && IsCapital(u, w[0]) && !IsWordOf(w, PSEUDOS) && !IsWordOf(w, CONSTANTS))
      && (kind == Keyword || kind == Special || kind == Constant || kind == Global || kind == Plain)
  {
    hide IsWordOf, Units, IsLetter, IsCapital, IsPseudo, IsConstant, KeywordsEnd, RunEnd;
    var w := t[r.pos..NameToken(u, t, r).next.pos];
    WordsOfCode(w);
    PseudosAreNoConstants(w);
    if ColonAt(t, WordEnd(u, t, r.pos + 1)) {
      KeywordText(u, t, r);
      NoWordHasAColon(w);
    } else {
      NameText(u, t, r);
    }
  }

  lemma KeywordText(u: Classes, t: Text, r: Reading)
    requires r.pos < |t| && IsLetter(u, t[r.pos]) && ColonAt(t, WordEnd(u, t, r.pos + 1))
    ensures var k := NameToken(u, t, r); k.kind == Keyword && t[r.pos..k.next.pos][k.next.pos - r.pos - 1] == COLON
  {
    NameGoesOn(u, t, r.pos);
    KeywordsEndInColon(u, t, r.pos);
    hide KeywordsEnd, WordEnd;
  }

  lemma NameText(u: Classes, t: Text, r: Reading)
    requires r.pos < |t| && IsLetter(u, t[r.pos]) && !ColonAt(t, WordEnd(u, t, r.pos + 1))
    ensures var e := NameToken(u, t, r).next.pos;
      e == WordEnd(u, t, r.pos + 1) && t[r.pos..e][e - r.pos - 1] != COLON
  {
    ColonIsNoWord(u);
    var e := WordEnd(u, t, r.pos + 1);
    if e > r.pos + 1 {
      WordHasNoColon(u, t, r.pos + 1, e - 1);
    }
    hide WordEnd, IsPseudo, IsConstant;
  }

  lemma PseudosAreNoConstants(w: Text)
    ensures !(IsPseudo(w) && IsConstant(w))
  {
    hide IsPseudo, IsConstant;
    if IsPseudo(w) && IsConstant(w) {
      PseudosBegin(w);
      ConstantsBegin(w);
      assert false;
    }
  }

  lemma PseudosBegin(w: Text)
    requires IsPseudo(w)
    ensures |w| == 11 || w[0] == 0x73
  {}

  lemma ConstantsBegin(w: Text)
    requires IsConstant(w)
    ensures |w| <= 5 && w[0] != 0x73
  {}

  lemma NoWordHasAColon(w: Text)
    requires w != [] && w[|w| - 1] == COLON
    ensures !IsWordOf(w, PSEUDOS) && !IsWordOf(w, CONSTANTS)
  {
    var s := PSEUDOS + CONSTANTS;
    if k :| 0 <= k < 3 && w == Units(PSEUDOS[k]) {
      assert PSEUDOS[k][|w| - 1] in {'f', 'r', 't'};
    }
    if k :| 0 <= k < 3 && w == Units(CONSTANTS[k]) {
      assert CONSTANTS[k][|w| - 1] in {'l', 'e'};
    }
  }

  lemma LetterIsAName(u: Classes, t: Text, r: Reading)
    requires r.pos < |t| && IsLetter(u, t[r.pos]) && !InArray(r) && !IsSeparator(u)(t[r.pos])
    ensures NextToken(u, t, r) == NameToken(u, t, r.(operand := false))
  {
    hide RunEnd, QuoteEnd, NumberEnd, KeywordsEnd, IsPseudo, IsConstant, IsCapital, NameToken;
  }

  lemma NameGoesOn(u: Classes, t: Text, i: nat)
    requires i < |t| && IsLetter(u, t[i])
    ensures WordEnd(u, t, i) == WordEnd(u, t, i + 1)
  {}

  /** In code, signs: := and ^ are special; brackets, . ; and | are told as brackets, and besides them only the
      < and > of a pragma; all else is plain. */
  lemma SignsAreTold(u: Classes, t: Text, r: Reading)
    requires r.pos < |t| && !InArray(r)
    requires var c := t[r.pos];
      !IsLetter(u, c) && !IsSeparator(u)(c) && c != HASH && NextToken(u, t, r).kind !in {Comment, String, Char, Number}
    ensures var kind, w := NextToken(u, t, r).kind, TokenText(u, t, r);
      && (kind == Special <==> w == [0x3A, 0x3D] || w == [0x5E])
      && (kind == Bracketing ==> |w| == 1)
      && (w[0] in {0x28, 0x29, 0x5B, 0x5D, 0x7B, 0x7D, 0x2E, 0x3B, 0x7C} ==> kind == Bracketing)
      && (kind == Bracketing ==> w[0] in {0x28, 0x29, 0x5B, 0x5D, 0x7B, 0x7D, 0x2E, 0x3B, 0x7C, 0x3C, 0x3E})
      && (kind == Special || kind == Bracketing || kind == Plain)
  {
    hide RunEnd, QuoteEnd, NumberEnd, NameToken;
    SignIsCode(u, t, r);
  }

  /** Outside of all brackets the < and > of a pragma are told as brackets: a < that begins one, and the next >. */
  lemma PragmasAreTold(u: Classes, t: Text, r: Reading)
    requires r.pos < |t| && r.stack == [] && (t[r.pos] == 0x3C || t[r.pos] == 0x3E)
    ensures var k := NextToken(u, t, r);
      && (k.kind == Bracketing <==> if r.pragma then t[r.pos] == 0x3E else t[r.pos] == 0x3C && u.pragma(t, r.pos))
      && k.next.pragma == if k.kind == Bracketing then !r.pragma else r.pragma
  {
    hide RunEnd, QuoteEnd, NumberEnd, NameToken;
  }

  lemma SignIsCode(u: Classes, t: Text, r: Reading)
    requires r.pos < |t| && !InArray(r)
    requires var c := t[r.pos];
      !IsSeparator(u)(c) && c != HASH && NextToken(u, t, r).kind !in {Comment, String, Char, Number}
    ensures NextToken(u, t, r) == CodeToken(u, t, r)
  {
    hide RunEnd, QuoteEnd, NumberEnd, CodeToken;
  }

  /** In a literal array all but nil, true and false and the space between is quoted. */
  lemma DataIsTold(u: Classes, t: Text, r: Reading)
    requires r.pos < |t| && TopIs(r.stack, LiteralArray) && !IsSeparator(u)(t[r.pos])
    requires t[r.pos] != HASH && NextToken(u, t, r).kind !in {Comment, String, Char, Number}
    ensures var kind, w := NextToken(u, t, r).kind, TokenText(u, t, r);
      && (kind == Quote || kind == Constant)
      && (IsLetter(u, w[0]) ==> (kind == Constant <==> IsWordOf(w, CONSTANTS)))
  {
    DataIsAnArrayToken(u, t, r);
    hide NextToken, RunEnd;
    var w := TokenText(u, t, r);
    WordsOfCode(w);
    if w[|w| - 1] == COLON { NoWordHasAColon(w); }
  }

  lemma DataIsAnArrayToken(u: Classes, t: Text, r: Reading)
    requires r.pos < |t| && TopIs(r.stack, LiteralArray) && !IsSeparator(u)(t[r.pos])
    requires t[r.pos] != HASH && NextToken(u, t, r).kind !in {Comment, String, Char, Number}
    ensures NextToken(u, t, r) == LiteralArrayToken(u, t, r)
  {
    hide RunEnd, QuoteEnd, NumberEnd, LiteralArrayToken;
  }

  /** 3-2 is no 3 and a -2: a - is an operator behind a value, which is what these leave. */
  lemma AMinusBehindAValue(u: Classes, t: Text, r: Reading)
    requires r.pos < |t|
    requires var kind := NextToken(u, t, r).kind;
      kind == Number || kind == String || kind == Char || kind == Global || kind == Constant
    ensures NextToken(u, t, r).next.operand
  {
    ValuesOfCode(u, t, r);
    hide NextToken, CodeToken, LiteralArrayToken;
    var kind := NextToken(u, t, r).kind;
    if kind == Global || kind == Constant {
      GlobalsAndConstants(u, t, r);
    } else {
      LiteralsAreValues(u, t, r);
    }
  }

  lemma GlobalsAndConstants(u: Classes, t: Text, r: Reading)
    requires r.pos < |t| && (NextToken(u, t, r).kind == Global || NextToken(u, t, r).kind == Constant)
    ensures NextToken(u, t, r) == LiteralArrayToken(u, t, r) || NextToken(u, t, r) == CodeToken(u, t, r)
  {
    KindsOfOthers(u, t, r);
    NextIsOneOf(u, t, r);
    hide NextToken, HashToken, ByteArrayToken, CodeToken, LiteralArrayToken;
  }

  lemma NextIsOneOf(u: Classes, t: Text, r: Reading)
    requires r.pos < |t|
    ensures var next := NextToken(u, t, r);
      || next.kind == Plain || next.kind == Comment || next.kind == String || next.kind == Char || next.kind == Number
      || (t[r.pos] == HASH && next == HashToken(u, t, r)) || next == ByteArrayToken(t, r)
      || next == LiteralArrayToken(u, t, r) || next == CodeToken(u, t, r)
  {
    hide RunEnd, QuotedEnd, NumberEnd, HashToken, ByteArrayToken, CodeToken, CharacterPieceEnd, IsSeparator,
      NumberStarts, LiteralArrayToken;
  }

  lemma LiteralsAreValues(u: Classes, t: Text, r: Reading)
    requires r.pos < |t|
    requires var kind := NextToken(u, t, r).kind; kind == Number || kind == String || kind == Char
    ensures NextToken(u, t, r).next.operand
  {
    LiteralsAreTold(u, t, r);
    SeparatorsAreOther(u, t[r.pos]);
    StartsAsToken(t, r);
    hide RunEnd, QuotedEnd, NumberEnd, HashToken, ByteArrayToken, CodeToken, CharacterPieceEnd, IsSeparator,
      NumberStarts, LiteralArrayToken;
  }

  lemma ValuesOfCode(u: Classes, t: Text, r: Reading)
    requires r.pos < |t|
    ensures var k := CodeToken(u, t, r); (k.kind == Global || k.kind == Constant) ==> k.next.operand
    ensures var k := LiteralArrayToken(u, t, r); (k.kind == Global || k.kind == Constant) ==> k.next.operand
  {
    hide RunEnd, KeywordsEnd, IsConstant, IsPseudo, IsCapital, IsBinary, IsLetter, WordEnd;
  }

  /** Behind what expects a value a - may be a sign: behind a keyword, an opening bracket, := and ^, a full
      stop and a semicolon; behind a closing bracket it is none. */
  lemma AMinusBehindASign(u: Classes, t: Text, r: Reading)
    requires r.pos < |t|
    ensures var k, c := CodeToken(u, t, r), t[r.pos];
      && (k.kind == Keyword || c in {0x28, 0x5B, 0x7B, 0x5E, 0x2E, 0x3B} || (c == 0x3A && At(t, r.pos + 1) == 0x3D) ==>
            !k.next.operand)
      && (c in {0x29, 0x5D, 0x7D} ==> k.next.operand)
  {
    hide RunEnd, KeywordsEnd, IsConstant, IsPseudo, IsCapital, WordEnd;
  }

  /** White space between changes nothing of that. */
  lemma SpacesDoNotMatter(u: Classes, t: Text, r: Reading)
    requires r.pos < |t| && IsSeparator(u)(t[r.pos])
    ensures NextToken(u, t, r).kind == Plain && NextToken(u, t, r).next == r.(pos := NextToken(u, t, r).next.pos)
  {}

  lemma RunEndsAt(t: Text, i: nat, j: nat, p: int -> bool)
    requires i <= j <= |t| && (forall l :: i <= l < j ==> p(t[l])) && (j == |t| || !p(t[j]))
    ensures RunEnd(t, i, p) == j
  {}

  /** Behind # signs up to j: they are quoted with the array, string, name or binary selector that they begin;
      by themselves they are plain. */
  lemma SymbolsAreTold(u: Classes, t: Text, r: Reading, j: nat)
    requires r.pos < j <= |t| && (forall i :: r.pos <= i < j ==> t[i] == HASH) && At(t, j) != HASH
    ensures var token, c := NextToken(u, t, r), At(t, j);
      && (token.kind == Plain || token.kind == Quote)
      && (token.kind == Plain <==> c != 0x28 && c != 0x5B && c != APOSTROPHE && !IsLetter(u, c) && !IsBinary(c))
      && (token.kind == Plain ==> token.next == r.(pos := j, operand := false))
      && (c == 0x28 || c == 0x5B ==>
          token.next.pos == j + 1 && InArray(token.next) && Popped(token.next.stack) == r.stack)
      && (token.kind == Quote && c != 0x28 && c != 0x5B ==>
          token.next == r.(pos := token.next.pos, operand := true))
  {
    HashIsNext(u, t, r);
    RunEndsAt(t, r.pos + 1, j, Hashes());
    hide NextToken, RunEnd, QuotedEnd, IsLetter, IsBinary;
  }

  lemma NoSymbolBegins(u: Classes, c: Unit)
    ensures IsLetter(u, c) || IsBinary(c) ==> c != 0x28 && c != 0x5B && c != APOSTROPHE
  {}

  lemma HashIsNext(u: Classes, t: Text, r: Reading)
    requires r.pos < |t| && t[r.pos] == HASH
    ensures NextToken(u, t, r) == HashToken(u, t, r)
  {
    hide HashToken;
  }

  /** What is quoted so goes to the end of the name with its colons, or of the selector, or of the string. */
  lemma SymbolsAreWhole(u: Classes, t: Text, r: Reading, j: nat, k: nat)
    requires r.pos < j < k <= |t| && (forall i :: r.pos <= i < j ==> t[i] == HASH) && t[j] != HASH
    requires
      || (t[j] == APOSTROPHE && k == QuotedEnd(t, j))
      || (IsLetter(u, t[j]) && (forall i :: j <= i < k ==> IsWord(u, t[i]) || t[i] == COLON) &&
          !IsWord(u, At(t, k)) && At(t, k) != COLON)
      || (IsBinary(t[j]) && !IsLetter(u, t[j]) && (forall i :: j <= i < k ==> IsBinary(t[i])) &&
          !IsBinary(At(t, k)))
    ensures NextToken(u, t, r).kind == Quote && TokenText(u, t, r) == t[r.pos..k]
  {
    HashIsNext(u, t, r);
    hide NextToken, QuotedEnd, RunEnd, IsLetter, IsBinary, IsWord, HashToken;
    if t[j] != APOSTROPHE {
      if IsLetter(u, t[j]) {
        NameIsQuoted(u, t, r, j, k);
      } else {
        SelectorIsQuoted(u, t, r, j, k);
      }
    } else {
      StringIsQuoted(u, t, r, j);
    }
  }

  lemma NameIsQuoted(u: Classes, t: Text, r: Reading, j: nat, k: nat)
    requires r.pos < j < k <= |t| && (forall i :: r.pos <= i < j ==> t[i] == HASH) && t[j] != HASH
    requires IsLetter(u, t[j]) && forall i :: j <= i < k ==> IsWord(u, t[i]) || t[i] == COLON
    requires !IsWord(u, At(t, k)) && At(t, k) != COLON
    ensures HashToken(u, t, r) == Token(Quote, r.(pos := k, operand := true))
  {
    NoSymbolBegins(u, t[j]);
    hide QuotedEnd, RunEnd, IsLetter, IsBinary, IsWord;
    RunEndsAt(t, r.pos + 1, j, Hashes());
    RunEndsAt(t, j, k, WordOrColon(u));
  }

  lemma SelectorIsQuoted(u: Classes, t: Text, r: Reading, j: nat, k: nat)
    requires r.pos < j < k <= |t| && (forall i :: r.pos <= i < j ==> t[i] == HASH) && t[j] != HASH
    requires IsBinary(t[j]) && !IsLetter(u, t[j]) && (forall i :: j <= i < k ==> IsBinary(t[i])) && !IsBinary(At(t, k))
    ensures HashToken(u, t, r) == Token(Quote, r.(pos := k, operand := true))
  {
    NoSymbolBegins(u, t[j]);
    hide QuotedEnd, RunEnd, IsLetter, IsBinary, IsWord;
    RunEndsAt(t, r.pos + 1, j, Hashes());
    RunEndsAt(t, j, k, IsBinary);
  }

  lemma StringIsQuoted(u: Classes, t: Text, r: Reading, j: nat)
    requires r.pos < j < |t| && (forall i :: r.pos <= i < j ==> t[i] == HASH) && t[j] == APOSTROPHE
    ensures HashToken(u, t, r) == Token(Quote, r.(pos := QuotedEnd(t, j), operand := true))
  {
    RunEndsAt(t, r.pos + 1, j, Hashes());
    hide QuotedEnd, RunEnd, IsLetter, IsBinary;
  }

  // ---- numbers

  lemma {:induction false} DigitsEnd(t: Text, i: nat, j: nat, radix: nat)
    requires i < j <= |t| && (forall k :: i <= k < j ==> DigitAt(t, k, radix))
    requires !DigitAt(t, j, radix) && At(t, j) != UNDERSCORE
    ensures Digits(t, i, radix) == j
  {
    MoreDigitsEnd(t, i + 1, j, radix);
  }

  lemma {:induction false} MoreDigitsEnd(t: Text, i: nat, j: nat, radix: nat)
    requires i <= j <= |t| && (forall k :: i <= k < j ==> DigitAt(t, k, radix))
    requires !DigitAt(t, j, radix) && At(t, j) != UNDERSCORE
    ensures MoreDigits(t, i, radix) == j
    decreases j - i
  {
    if i < j {
      MoreDigitsEnd(t, i + 1, j, radix);
    }
  }

  predicate AllDigits(t: Text, i: nat, j: nat) { i < j <= |t| && forall k :: i <= k < j ==> 0x30 <= t[k] <= 0x39 }

  /** A number may end here: with no digit, no letter, no _ and no fraction behind it. */
  predicate EndsHere(u: Classes, t: Text, j: nat) {
    !IsDigit(At(t, j)) && !IsLetter(u, At(t, j)) && At(t, j) != UNDERSCORE && At(t, j) != 0x2E
  }

  /** The whole of a decimal number is one token, with its fraction and its exponent. */
  lemma DecimalNumbersAreWhole(u: Classes, t: Text, i: nat, j: nat, k: nat, l: nat)
    requires AllDigits(t, i, j)
    ensures EndsHere(u, t, j) ==> NumberEnd(u, t, i) == j
    ensures At(t, j) == 0x2E && AllDigits(t, j + 1, k) && EndsHere(u, t, k) ==> NumberEnd(u, t, i) == k
    ensures At(t, j) == 0x65 && AllDigits(t, j + 1, k) && EndsHere(u, t, k) ==> NumberEnd(u, t, i) == k
    ensures
      At(t, j) == 0x2E && AllDigits(t, j + 1, k) && At(t, k) == 0x65 && AllDigits(t, k + 1, l) && EndsHere(u, t, l) ==>
        NumberEnd(u, t, i) == l
  {
    hide MoreDigits, Digits, IsLetter;
    if !DigitAt(t, j, 10) && At(t, j) != UNDERSCORE {
      DigitsEnd(t, i, j, 10);
    }
    if AllDigits(t, j + 1, k) && !DigitAt(t, k, 10) && At(t, k) != UNDERSCORE {
      DigitsEnd(t, j + 1, k, 10);
    }
    if AllDigits(t, k + 1, l) && !DigitAt(t, l, 10) && At(t, l) != UNDERSCORE {
      DigitsEnd(t, k + 1, l, 10);
    }
    SmallLetters(u);
  }

  lemma SmallLetters(u: Classes)
    ensures IsLetter(u, 0x65) && IsLetter(u, 0x72) && IsLetter(u, 0x73) && IsLetter(u, 0x64) && IsLetter(u, 0x71)
  {}

  /** So is the whole of a number with a radix, the digits behind the r in that radix. */
  lemma RadixNumbersAreWhole(u: Classes, t: Text, i: nat, j: nat, k: nat)
    requires AllDigits(t, i, j) && At(t, j) == 0x72 && j + 1 < k <= |t| && 2 <= DecimalValue(t[i..j])
    requires (forall l :: j < l < k ==> DigitAt(t, l, DecimalValue(t[i..j]))) && EndsHere(u, t, k)
    requires !DigitAt(t, k, DecimalValue(t[i..j]))
    ensures NumberEnd(u, t, i) == k
  {
    hide MoreDigits, Digits, IsLetter, DecimalValue;
    DigitsEnd(t, i, j, 10);
    DigitsEnd(t, j + 1, k, DecimalValue(t[i..j]));
    SmallLetters(u);
  }
}
