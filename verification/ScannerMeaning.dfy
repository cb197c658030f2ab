/** What scan finds, said without it: the brackets of plain code, and nothing inside of a string. */
module ScannerMeaning {
  import opened Basics
  import opened CodeUnits
  import opened Scanner
  import opened ChunkText

  // ---- brackets

  /** Code without strings, comments, characters, symbols and literal arrays. */
  predicate IsPlainCode(t: Text) {
    forall k :: 0 <= k < |t| ==> t[k] != QUOTE && t[k] != APOSTROPHE && t[k] != DOLLAR && t[k] != HASH
  }

  predicate Opens(c: int) { c == 0x28 || c == 0x5B || c == 0x7B }
  predicate Closes(c: int) { c == 0x29 || c == 0x5D || c == 0x7D }

  /** The closing bracket of an opening one. */
  function Partner(c: int): int { if c == 0x28 then 0x29 else if c == 0x5B then 0x5D else 0x7D }

  /** What matching brackets one by one comes to: the indices of those left open, how many closed nothing, and
      how many closed one of another kind. */
  datatype Matching = Matching(open: seq<nat>, stray: nat, mismatch: nat)

  ghost function Matched(t: Text, k: nat, m: Matching): Matching
    requires k < |t| && forall j :: 0 <= j < |m.open| ==> m.open[j] < k
  {
    var n := |m.open| - 1;
    if Opens(t[k]) then m.(open := m.open + [k])
    else if !Closes(t[k]) then m
    else if m.open == [] then m.(stray := m.stray + 1)
    else m.(open := m.open[..n], mismatch := m.mismatch + OneIf(Partner(t[m.open[n]]) != t[k]))
  }

  ghost function Match(t: Text, k: nat): (m: Matching)
    requires k <= |t|
    ensures forall j :: 0 <= j < |m.open| ==> m.open[j] < k && Opens(t[m.open[j]])
  {
    if k == 0 then Matching([], 0, 0) else Matched(t, k - 1, Match(t, k - 1))
  }

  ghost predicate StackIs(t: Text, stack: seq<Opener>, open: seq<nat>)
    requires forall j :: 0 <= j < |open| ==> open[j] < |t|
  {
    |stack| == |open| && forall j :: 0 <= j < |open| ==> stack[j] == OpenerOf(t[open[j]])
  }

  /** The brackets told are those of the first k units. */
  ghost predicate LogIs(t: Text, log: seq<Event>, k: nat)
    requires k <= |t|
  {
    && (forall i: nat :: Opened(i) in log <==> i < k && Opens(t[i]))
    && (forall i: nat :: Closed(i) in log <==> i < k && Closes(t[i]))
  }

  /** The scanner is where the matching is. */
  ghost predicate Follows(t: Text, s: Scan, k: nat)
    requires k <= |t|
  {
    var m := Match(t, k);
    && s.pos == k && s.stray == m.stray && s.mismatch == m.mismatch && s.unclosed == []
    && StackIs(t, s.stack, m.open) && LogIs(t, s.log, k)
  }

  lemma LogPush(t: Text, log: seq<Event>, k: nat, e: Event)
    requires k < |t| && LogIs(t, log, k)
    ensures Opens(t[k]) && e == Opened(k) ==> LogIs(t, log + [e], k + 1)
    ensures Closes(t[k]) && e == Closed(k) ==> LogIs(t, log + [e], k + 1)
    ensures !Opens(t[k]) && !Closes(t[k]) ==> LogIs(t, log, k + 1)
    ensures !Opens(t[k]) && !Closes(t[k]) && e.LineBreak? ==> LogIs(t, log + [e], k + 1)
  {
    assert forall x :: x in log + [e] <==> x in log || x == e;
  }

  lemma OpenersOfCode(c: int, d: int)
    requires Opens(c)
    ensures OpenerOf(c) != LiteralArray && OpenerOf(c) != ByteArray && CloserOf(OpenerOf(c)) == Partner(c)
    ensures IsOpener(d) == Opens(d) && IsCloser(d) == Closes(d)
  {}

  lemma StackPushes(t: Text, stack: seq<Opener>, open: seq<nat>, k: nat)
    requires k < |t| && (forall j :: 0 <= j < |open| ==> open[j] < k) && StackIs(t, stack, open)
    ensures StackIs(t, stack + [OpenerOf(t[k])], open + [k])
    ensures open != [] ==> StackIs(t, stack[..|stack| - 1], open[..|open| - 1])
  {}

  /** What the scanner does at one unit of plain code, with none of the arrays open. */
  lemma PlainCodeStep(u: Classes, t: Text, s: Scan)
    requires IsPlainCode(t) && s.pos < |t| && !TopIs(s.stack, ByteArray) && !TopIs(s.stack, LiteralArray)
    ensures var r, c, n := Step(u, t, s), t[s.pos], |s.stack| - 1;
      && r.pos == s.pos + 1 && r.unclosed == s.unclosed
      && (Opens(c) ==>
            r.stack == s.stack + [OpenerOf(c)] && r.log == s.log + [Opened(s.pos)] && r.stray == s.stray &&
            r.mismatch == s.mismatch)
      && (Closes(c) && s.stack == [] ==>
            r.stack == [] && r.log == s.log + [Closed(s.pos)] && r.stray == s.stray + 1 && r.mismatch == s.mismatch)
      && (Closes(c) && s.stack != [] ==>
            r.stack == s.stack[..n] && r.log == s.log + [Closed(s.pos)] && r.stray == s.stray &&
            r.mismatch == s.mismatch + OneIf(CloserOf(s.stack[n]) != c))
      && (!Opens(c) && !Closes(c) ==>
            r.stack == s.stack && (r.log == s.log || r.log == s.log + [LineBreak(s.pos, |s.stack|)]) &&
            r.stray == s.stray && r.mismatch == s.mismatch)
  {
    hide QuoteStep, DollarStep, HashStep, CloserOf;
  }

  lemma PlainStep(u: Classes, t: Text, s: Scan, k: nat)
    requires IsPlainCode(t) && k < |t| && Follows(t, s, k)
    ensures Follows(t, Step(u, t, s), k + 1)
  {
    hide Step, LogIs, StackIs, CloserOf, OpenerOf, Match, Opens, Closes, Partner;
    var m, c := Match(t, k), t[k];
    var n := |m.open| - 1;
    StackTops(t, s.stack, m.open);
    PlainCodeStep(u, t, s);
    LogPush(t, s.log, k, Opened(k));
    LogPush(t, s.log, k, Closed(k));
    LogPush(t, s.log, k, LineBreak(k, |s.stack|));
    StackPushes(t, s.stack, m.open, k);
    NextMatch(t, k);
    if Opens(c) { OpensOrCloses(c); }
  }

  lemma NextMatch(t: Text, k: nat)
    requires k < |t|
    ensures Match(t, k + 1) == Matched(t, k, Match(t, k))
  {
    hide Matched;
  }

  lemma OpensOrCloses(c: int)
    requires Opens(c)
    ensures !Closes(c)
  {}

  lemma StackTops(t: Text, stack: seq<Opener>, open: seq<nat>)
    requires (forall j :: 0 <= j < |open| ==> open[j] < |t| && Opens(t[open[j]])) && StackIs(t, stack, open)
    ensures !TopIs(stack, ByteArray) && !TopIs(stack, LiteralArray) && |stack| == |open|
    ensures open != [] ==> CloserOf(stack[|stack| - 1]) == Partner(t[open[|open| - 1]])
  {
    hide OpenerOf, CloserOf, Opens, Partner;
    if open != [] {
      OpenersOfCode(t[open[|open| - 1]], 0);
    }
  }

  lemma {:induction false} PlainScan(u: Classes, t: Text, s: Scan, k: nat)
    requires IsPlainCode(t) && k <= |t| && Follows(t, s, k)
    ensures Follows(t, ScanTo(u, t, s, |t|), |t|)
    decreases |t| - k
  {
    hide Step, Follows;
    assert s.pos == k by { FollowsPlace(t, s, k); }
    if k < |t| {
      PlainStep(u, t, s, k);
      PlainScan(u, t, Step(u, t, s), k + 1);
    }
  }

  lemma FollowsPlace(t: Text, s: Scan, k: nat)
    requires k <= |t| && Follows(t, s, k)
    ensures s.pos == k
  {}

  /** In plain code every bracket is told and no other place: what is left open, astray and mismatched is what
      matching them one by one leaves. */
  lemma PlainCodeIsMatched(u: Classes, t: Text)
    requires IsPlainCode(t)
    ensures Follows(t, ScanAll(u, t), |t|)
  {
    hide Step;
    PlainScan(u, t, START, 0);
  }

  // ---- strings and comments

  lemma {:induction false} QuoteEndsBehind(t: Text, q: Unit, w: Text, before: Text)
    requires t == before + Doubled(w, q) + [q]
    ensures Scanner.QuoteEnd(t, q, |before|) == |t| - 1
    decreases |w|
  {
    var n := |before|;
    if w == [] {
      assert t[n] == q;
    } else {
      var first := if w[0] == q then [q, q] else [w[0]];
      assert t == (before + first) + Doubled(w[1..], q) + [q];
      assert t[n] == first[0] && (w[0] == q ==> t[n + 1] == q);
      QuoteEndsBehind(t, q, w[1..], before + first);
    }
  }

  /** Nothing of a string or a comment is told, whatever it holds, with its quotes doubled; of a comment, that
      it ends. */
  lemma QuotedIsSilent(u: Classes, q: Unit, w: Text)
    requires q == QUOTE || q == APOSTROPHE
    ensures var t := [q] + Doubled(w, q) + [q];
      var s := ScanAll(u, t);
      && s.stack == [] && s.unclosed == [] && s.stray == 0 && s.mismatch == 0
      && s.log == if q == QUOTE then [CommentEnd(|t| - 1)] else []
  {
    hide Doubled, Scanner.QuoteEnd;
    var t := [q] + Doubled(w, q) + [q];
    QuoteEndsBehind(t, q, w, [q]);
    QuoteAlone(u, t, q);
  }

  lemma QuoteAlone(u: Classes, t: Text, q: Unit)
    requires |t| >= 2 && t[0] == q && (q == QUOTE || q == APOSTROPHE) && Scanner.QuoteEnd(t, q, 1) == |t| - 1
    ensures ScanAll(u, t) == START.(pos := |t|, log := if q == QUOTE then [CommentEnd(|t| - 1)] else [])
  {
    hide Scanner.QuoteEnd, DollarStep, HashStep, CodeStep;
    var s := Step(u, t, START);
    assert [] + (if q == QUOTE then [CommentEnd(|t| - 1)] else []) == if q == QUOTE then [CommentEnd(|t| - 1)] else [];
    ScanToStep(u, t, START, |t|);
  }

  // ---- characters, symbols and arrays

  /** A $ takes the next character with it, a pair of surrogates whole, and a # its symbol: nothing of them is told. */
  lemma CharactersAndSymbolsAreSilent(u: Classes, t: Text, s: Scan)
    requires s.pos + 1 < |t| && (t[s.pos] == DOLLAR || t[s.pos] == HASH)
    ensures var r := Step(u, t, s);
      && (t[s.pos] == DOLLAR ==>
            r == s.(pos := s.pos + if 0xD800 <= t[s.pos + 1] < 0xDC00 && s.pos + 2 < |t| then 3 else 2))
      && (t[s.pos] == HASH && t[s.pos + 1] != 0x28 && t[s.pos + 1] != 0x5B ==> r == s.(pos := r.pos))
      && (t[s.pos] == HASH && t[s.pos + 1] != 0x28 && t[s.pos + 1] != 0x5B && !IsLetter(u, t[s.pos + 1]) ==>
            IsBinary(t[s.pos + 1]) || r.pos == s.pos + 1)
      && (t[s.pos] == HASH && IsLetter(u, t[s.pos + 1]) ==>
            (forall k :: s.pos < k < r.pos ==> IsWord(u, t[k]) || t[k] == COLON) &&
            (r.pos < |t| ==> !IsWord(u, t[r.pos]) && t[r.pos] != COLON))
      && (t[s.pos] == HASH && !IsLetter(u, t[s.pos + 1]) && IsBinary(t[s.pos + 1]) ==>
            (forall k :: s.pos < k < r.pos ==> IsBinary(t[k])) && (r.pos < |t| ==> !IsBinary(t[r.pos])))
  {
    hide QuoteStep, CodeStep;
  }

  /** How many brackets a text has. */
  ghost function Brackets(t: Text): nat {
    if t == [] then 0 else Brackets(t[..|t| - 1]) + OneIf(Opens(t[|t| - 1]) || Closes(t[|t| - 1]))
  }

  /** What is told of the inside of an array, from the state before it: lines, and in a byte array that a bracket
      does not belong there. */
  ghost predicate Passed(s: Scan, r: Scan, t: Text, bytes: bool) {
    && r == s.(pos := r.pos, mismatch := r.mismatch, log := r.log)
    && r.mismatch == s.mismatch + (if bytes then Brackets(t) else 0)
    && s.log <= r.log && forall e :: e in r.log[|s.log|..] ==> e.LineBreak?
  }

  lemma ArrayStep(u: Classes, t: Text, s: Scan, bytes: bool)
    requires s.pos < |t| && s.stack == [if bytes then ByteArray else LiteralArray]
    requires IsPlainCode([t[s.pos]]) && (if bytes then t[s.pos] != 0x5D else t[s.pos] != 0x28 && t[s.pos] != 0x29)
    ensures var r := Step(u, t, s);
      && r == s.(pos := s.pos + 1, mismatch := r.mismatch, log := r.log)
      && r.mismatch == s.mismatch + OneIf(bytes && (Opens(t[s.pos]) || Closes(t[s.pos])))
      && (r.log == s.log || r.log == s.log + [LineBreak(s.pos, 1)])
  {
    assert IsPlainCode([t[s.pos]]) ==>
      t[s.pos] != QUOTE && t[s.pos] != APOSTROPHE && t[s.pos] != DOLLAR && t[s.pos] != HASH by {
      assert [t[s.pos]][0] == t[s.pos];
    }
    hide QuoteStep, DollarStep, HashStep;
  }

  lemma {:induction false} ArrayIsPassed(u: Classes, t: Text, s: Scan, j: nat, bytes: bool)
    requires s.pos <= j <= |t| && s.stack == [if bytes then ByteArray else LiteralArray] && IsPlainCode(t[s.pos..j])
    requires forall c :: c in t[s.pos..j] ==> if bytes then c != 0x5D else c != 0x28 && c != 0x29
    ensures var r := ScanTo(u, t, s, j); r.pos == j && Passed(s, r, t[s.pos..j], bytes)
    decreases j - s.pos
  {
    hide Step, IsPlainCode;
    if s.pos < j {
      var k := j - 1;
      var w := t[s.pos..j];
      assert w[..|w| - 1] == t[s.pos..k] && w[|w| - 1] == t[k];
      PartsArePlain(w);
      assert t[k] in w && forall c :: c in t[s.pos..k] ==> c in w;
      ArrayIsPassed(u, t, s, k, bytes);
      var r := ScanTo(u, t, s, k);
      ArrayStep(u, t, r, bytes);
      ScanOneMore(u, t, s, k);
    }
  }

  lemma PartsArePlain(w: Text)
    requires w != [] && IsPlainCode(w)
    ensures IsPlainCode(w[..|w| - 1]) && IsPlainCode([w[|w| - 1]])
  {}

  lemma {:induction false} ScanOneMore(u: Classes, t: Text, s: Scan, k: nat)
    requires s.pos <= k < |t| && ScanTo(u, t, s, k).pos == k
    ensures ScanTo(u, t, s, k + 1) == Step(u, t, ScanTo(u, t, s, k))
    decreases k - s.pos
  {
    hide Step;
    if s.pos < k {
      ScanOneMore(u, t, Step(u, t, s), k);
    }
  }

  /** The inside of a literal array without further ones is data: its brackets match nothing and nothing is amiss.
      In a byte array every bracket is one that does not belong there. */
  lemma ArraysAreData(u: Classes, w: Text, bytes: bool)
    requires IsPlainCode(w) && forall c :: c in w ==> if bytes then c != 0x5D else c != 0x28 && c != 0x29
    ensures var t := (if bytes then [HASH, 0x5B] else [HASH, 0x28]) + w + (if bytes then [0x5D] else [0x29]);
      var r := ScanAll(u, t);
      && r.stack == [] && r.stray == 0 && r.unclosed == [] && r.mismatch == (if bytes then Brackets(w) else 0)
      && forall e :: e in r.log && !e.LineBreak? ==> e == Opened(1) || e == Closed(|t| - 1)
  {
    var t := (if bytes then [HASH, 0x5B] else [HASH, 0x28]) + w + (if bytes then [0x5D] else [0x29]);
    var j := |t| - 1;
    ArrayBegins(u, t, bytes);
    hide Step, Scanner.QuoteEnd, IsPlainCode, Brackets;
    var s := Step(u, t, START);
    assert t[2..j] == w;
    ArrayIsPassed(u, t, s, j, bytes);
    var r := ScanTo(u, t, s, j);
    ArrayEnds(u, t, r, bytes);
    ScanOneMore(u, t, s, j);
    ScanToStep(u, t, START, |t|);
    assert r.log == s.log + r.log[|s.log|..];
  }

  lemma ArrayBegins(u: Classes, t: Text, bytes: bool)
    requires |t| >= 2 && t[0] == HASH && t[1] == if bytes then 0x5B else 0x28
    ensures Step(u, t, START) ==
      Scan(2, [if bytes then ByteArray else LiteralArray], 0, 0, [], [], [Opened(1)])
  {}

  lemma ArrayEnds(u: Classes, t: Text, s: Scan, bytes: bool)
    requires s.pos == |t| - 1 && t[s.pos] == if bytes then 0x5D else 0x29
    requires s.stack == [if bytes then ByteArray else LiteralArray]
    ensures Step(u, t, s) == s.(pos := |t|, stack := [], log := s.log + [Closed(s.pos)])
  {
    assert s.stack[..0] == [];
  }
}
