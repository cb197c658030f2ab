/** What scan tells of a text: its counts, and the closers that it misses. */
module ScannerProofs {
  import opened Basics
  import opened CodeUnits
  import opened Scanner

  // ---- counts

  ghost function Count(log: seq<Event>, opening: bool): nat {
    if log == [] then 0
    else
      var e := log[|log| - 1];
      Count(log[..|log| - 1], opening) + OneIf(if opening then e.Opened? else e.Closed?)
  }

  /** Every opener told is closed by a closer told, or still open; every other closer is stray.
      The stray closers are those listed. */
  ghost predicate Counts(s: Scan) {
    Count(s.log, true) + s.stray == Count(s.log, false) + |s.stack| && (s.stray == 0 <==> s.strays == [])
  }

  lemma {:induction false} CountPush(log: seq<Event>, e: Event, opening: bool)
    ensures Count(log + [e], opening) == Count(log, opening) + OneIf(if opening then e.Opened? else e.Closed?)
  {
    assert (log + [e])[..|log|] == log;
  }

  /** A push tells one opener, a pop one closer; what else a step tells is neither. */
  lemma OpensOne(s: Scan, o: Opener, i: nat)
    requires Counts(s)
    ensures Counts(Push(s, o, i))
  {
    hide Count;
    forall opening { CountPush(s.log, Opened(i), opening); }
  }

  lemma ClosesOne(s: Scan)
    requires Counts(s) && s.stack != []
    ensures Counts(Pop(s))
  {
    hide Count;
    forall opening { CountPush(s.log, Closed(s.pos), opening); }
  }

  lemma ClosesNone(s: Scan, c: Unit)
    requires Counts(s) && s.stack == []
    ensures Counts(Pop(s.(stray := s.stray + 1, strays := if c in s.strays then s.strays else s.strays + [c])))
  {
    hide Count;
    forall opening { CountPush(s.log, Closed(s.pos), opening); }
  }

  lemma TellsNeither(s: Scan, e: Event)
    requires Counts(s) && !e.Opened? && !e.Closed?
    ensures Counts(s.(log := s.log + [e])) && Counts(s.(log := s.log + []))
  {
    hide Count;
    forall opening { CountPush(s.log, e, opening); }
    assert s.log + [] == s.log;
  }

  /** What Counts looks at. */
  lemma CountsAlike(s: Scan, r: Scan)
    requires Counts(s) && r.log == s.log && |r.stack| == |s.stack| && r.stray == s.stray && r.strays == s.strays
    ensures Counts(r)
  {}

  lemma CodeCounts(t: Text, s: Scan)
    requires s.pos < |t| && Counts(s)
    ensures Counts(CodeStep(t, s))
  {
    hide Count, Counts, Push, Pop, CloserOf;
    var c, on := t[s.pos], s.(pos := s.pos + 1);
    CountsAlike(s, on);
    TellsNeither(on, LineBreak(s.pos, |s.stack|));
    CountsAlike(s, on.(mismatch := s.mismatch + 1));
    CountsAlike(s, s.(mismatch := s.mismatch + 1));
    forall o { OpensOne(s, o, s.pos); }
    if s.stack == [] {
      ClosesNone(s, c);
    } else {
      ClosesOne(s);
      ClosesOne(s.(mismatch := s.mismatch + 1));
    }
  }

  lemma StepCounts(u: Classes, t: Text, s: Scan)
    requires s.pos < |t| && Counts(s)
    ensures Counts(Step(u, t, s))
  {
    hide QuoteEnd, SymbolEnd, CloserOf, Count, Counts, CodeStep, Push;
    CodeCounts(t, s);
    var r := Step(u, t, s);
    var end := CommentEnd(QuoteEnd(t, t[s.pos], s.pos + 1));
    TellsNeither(s, end);
    CountsAlike(s.(log := s.log + []), s.(pos := r.pos, unclosed := r.unclosed, log := s.log + []));
    CountsAlike(s.(log := s.log + [end]), s.(pos := r.pos, unclosed := r.unclosed, log := s.log + [end]));
    CountsAlike(s, s.(pos := r.pos, unclosed := r.unclosed));
    OpensOne(s, LiteralArray, s.pos + 1);
    OpensOne(s, ByteArray, s.pos + 1);
  }

  lemma {:induction false} ScanCounts(u: Classes, t: Text, s: Scan, j: nat)
    requires j <= |t| && Counts(s)
    ensures Counts(ScanTo(u, t, s, j))
    decreases j - s.pos
  {
    hide Step, Counts;
    if s.pos < j {
      StepCounts(u, t, s);
      ScanCounts(u, t, Step(u, t, s), j);
    }
  }

  /** The depth is what the openers and closers told leave open. */
  lemma DepthIsWhatIsLeftOpen(u: Classes, t: Text)
    ensures Counts(ScanAll(u, t))
  {
    ScanCounts(u, t, START, |t|);
  }

  // ---- the closers that are missing

  /** The closers that would close the open brackets, in the order to write them. */
  ghost function Closers(stack: seq<Opener>): (c: Text)
    ensures |c| == |stack|
  {
    if stack == [] then [] else [CloserOf(stack[|stack| - 1])] + Closers(stack[..|stack| - 1])
  }

  /** pending has them innermost last: the other way round. */
  lemma {:induction false} PendingIsClosersReversed(stack: seq<Opener>, k: nat)
    requires k < |stack|
    ensures Closers(stack)[k] == Pending(stack)[|stack| - 1 - k]
  {
    if k > 0 {
      PendingIsClosersReversed(stack[..|stack| - 1], k - 1);
    }
  }

  ghost predicate AllClosers(c: Text) { forall k :: 0 <= k < |c| ==> IsCloser(c[k]) }

  lemma {:induction false} ClosersAreClosers(stack: seq<Opener>)
    ensures AllClosers(Closers(stack))
  {
    if stack != [] {
      ClosersAreClosers(stack[..|stack| - 1]);
    }
  }

  lemma {:induction false} QuoteEndStays(t: Text, c: Text, q: Unit, j: nat)
    requires j <= |t| && AllClosers(c) && !IsCloser(q) && QuoteEnd(t, q, j) < |t|
    ensures QuoteEnd(t + c, q, j) == QuoteEnd(t, q, j)
    decreases |t| - j
  {
    if t[j] != q {
      QuoteEndStays(t, c, q, j + 1);
    } else if At(t, j + 1) == q {
      QuoteEndStays(t, c, q, j + 2);
    }
  }

  lemma {:induction false} RunEndStays(t: Text, c: Text, i: nat, p: int -> bool)
    requires i <= |t| && AllClosers(c) && forall x :: IsCloser(x) ==> !p(x)
    ensures RunEnd(t + c, i, p) == RunEnd(t, i, p)
    decreases |t| - i
  {
    if i < |t| && p(t[i]) {
      RunEndStays(t, c, i + 1, p);
    }
  }

  lemma SymbolEndStays(u: Classes, t: Text, c: Text, i: nat)
    requires i < |t| && AllClosers(c)
    ensures SymbolEnd(u, t + c, i) == SymbolEnd(u, t, i)
  {
    hide RunEnd;
    RunEndStays(t, c, i + 1, WordOrColon(u));
    RunEndStays(t, c, i + 1, IsBinary);
  }

  /** A $ at i is the last but one character, before the first half of a surrogate pair. */
  predicate HalfCharacterAt(t: Text, i: nat) {
    i + 2 == |t| && t[i] == DOLLAR && IsHighSurrogate(t[i + 1])
  }

  /** A step that leaves nothing unfinished is the same when closers follow the text. */
  lemma StepStays(u: Classes, t: Text, c: Text, s: Scan)
    requires s.pos < |t| && AllClosers(c) && Step(u, t, s).unclosed == [] && !HalfCharacterAt(t, s.pos)
    ensures Step(u, t + c, s) == Step(u, t, s)
  {
    hide QuoteEnd, SymbolEnd, CloserOf, IsBinary, IsLetter;
    var x := t[s.pos];
    assert (t + c)[s.pos] == x;
    if x == QUOTE || x == APOSTROPHE {
      QuoteEndStays(t, c, x, s.pos + 1);
    } else if x == HASH {
      SymbolEndStays(u, t, c, s.pos);
    }
  }

  lemma {:induction false} UnclosedStays(u: Classes, t: Text, s: Scan, j: nat)
    requires j <= |t| && ScanTo(u, t, s, j).unclosed == []
    ensures s.unclosed == []
    decreases j - s.pos
  {
    hide QuoteEnd, SymbolEnd, CloserOf, IsBinary, IsLetter;
    if s.pos < j {
      UnclosedStays(u, t, Step(u, t, s), j);
    }
  }

  /** Between two steps, the next one begins a half character that ends the text. */
  ghost predicate EndsInHalf(u: Classes, t: Text, s: Scan) {
    |t| >= 2 && ScanTo(u, t, s, |t| - 2).pos == |t| - 2 && HalfCharacterAt(t, |t| - 2)
  }

  lemma {:induction false} ScanStays(u: Classes, t: Text, c: Text, s: Scan, j: nat)
    requires s.pos <= |t| && j <= |t| && AllClosers(c) && ScanTo(u, t, s, j).unclosed == []
    requires s.pos <= |t| - 2 && j > |t| - 2 ==> !EndsInHalf(u, t, s)
    ensures ScanTo(u, t + c, s, j) == ScanTo(u, t, s, j)
    decreases j - s.pos
  {
    hide Step, AllClosers;
    if s.pos < j {
      var next := Step(u, t, s);
      UnclosedStays(u, t, next, j);
      StepStays(u, t, c, s);
      ScanStays(u, t, c, next, j);
    }
  }

  lemma {:induction false} ClosersClose(u: Classes, x: Text, s: Scan)
    requires s.pos <= |x| && x[s.pos..] == Closers(s.stack)
    ensures var e := ScanTo(u, x, s, |x|);
      e.stack == [] && e.stray == s.stray && e.mismatch == s.mismatch && e.unclosed == s.unclosed
    decreases |x| - s.pos
  {
    if s.stack != [] {
      var o := s.stack[|s.stack| - 1];
      var next := Step(u, x, s);
      assert x[s.pos] == x[s.pos..][0] == CloserOf(o);
      CloserPops(u, x, s);
      assert x[next.pos..] == x[s.pos..][1..];
      ClosersClose(u, x, next);
    }
  }

  lemma CloserPops(u: Classes, x: Text, s: Scan)
    requires s.pos < |x| && s.stack != [] && x[s.pos] == CloserOf(s.stack[|s.stack| - 1])
    ensures var e := Step(u, x, s);
      && e.pos == s.pos + 1 && e.stack == s.stack[..|s.stack| - 1]
      && e.stray == s.stray && e.mismatch == s.mismatch && e.unclosed == s.unclosed
  {
    hide QuoteStep, DollarStep, HashStep;
  }

  /** A closer closes one bracket at most. */
  lemma {:induction false} ClosersCloseOneEach(u: Classes, x: Text, s: Scan)
    requires s.pos <= |x| && AllClosers(x[s.pos..])
    ensures |ScanTo(u, x, s, |x|).stack| >= |s.stack| - (|x| - s.pos)
    decreases |x| - s.pos
  {
    hide QuoteStep, DollarStep, HashStep;
    if s.pos < |x| {
      assert IsCloser(x[s.pos..][0]);
      var next := Step(u, x, s);
      assert x[next.pos..] == x[s.pos..][1..];
      ClosersCloseOneEach(u, x, next);
    }
  }

  ghost predicate IsClosedBy(u: Classes, t: Text, c: Text) {
    var s, e := ScanAll(u, t), ScanAll(u, t + c);
    e.stack == [] && e.stray == s.stray && e.mismatch == s.mismatch && e.unclosed == []
  }

  /** A text with nothing unfinished is closed by its pending closers, no closer of them stray or
      of another opener, except when it ends in a $ and half a surrogate pair: the first closer
      would be taken into that character. */
  lemma PendingClosersClose(u: Classes, t: Text)
    requires ScanAll(u, t).unclosed == []
    ensures var stack := ScanAll(u, t).stack;
      IsClosedBy(u, t, Closers(stack)) <==> stack == [] || !EndsInHalf(u, t, START)
  {
    hide ScanTo, Step;
    var s := ScanAll(u, t);
    var c := Closers(s.stack);
    ClosersAreClosers(s.stack);
    if s.stack == [] {
      assert t + c == t;
    } else if !EndsInHalf(u, t, START) {
      ScanStays(u, t, c, START, |t|);
      ThenScan(u, t + c, START, |t|, |t + c|);
      assert s.pos == |t| && (t + c)[|t|..] == c;
      ClosersClose(u, t + c, s);
    } else {
      HalfTakesACloser(u, t, c);
    }
  }

  lemma {:induction false} ThenScan(u: Classes, t: Text, s: Scan, j: nat, k: nat)
    requires j <= k <= |t|
    ensures ScanTo(u, t, s, k) == ScanTo(u, t, ScanTo(u, t, s, j), k)
    decreases j - s.pos
  {
    hide Step;
    if s.pos < j {
      ThenScan(u, t, Step(u, t, s), j, k);
    }
  }

  lemma HalfTakesACloser(u: Classes, t: Text, c: Text)
    requires ScanAll(u, t).unclosed == [] && EndsInHalf(u, t, START)
    requires AllClosers(c) && |c| == |ScanAll(u, t).stack| > 0
    ensures ScanAll(u, t + c).stack != []
  {
    hide ScanTo, Step, AllClosers;
    var n, x := |t| - 2, t + c;
    var h := ScanTo(u, t, START, n);
    ThenScan(u, t, START, n, |t|);
    UnclosedStays(u, t, h, |t|);
    ScanStays(u, t, c, START, n);
    DollarTakes(u, t, c, h);
    var next := Step(u, x, h);
    ScanToStep(u, t, h, |t|);
    ScanToStep(u, x, h, |x|);
    ThenScan(u, x, START, n, |x|);
    assert x[next.pos..] == c[1..];
    assert AllClosers(c[1..]) by { TailOfClosers(c); }
    ClosersCloseOneEach(u, x, next);
  }

  /** Such a text: an open ( and then a $ before half a pair. */
  const HALF_AT_THE_END: Text := [LEFT_PAREN, DOLLAR, 0xD83D]

  lemma HalfAtTheEndIsNotClosed(u: Classes)
    ensures var s := ScanAll(u, HALF_AT_THE_END);
      && s.unclosed == [] && s.stack == [Paren]
      && !IsClosedBy(u, HALF_AT_THE_END, Closers(s.stack))
  {
    var t := HALF_AT_THE_END;
    var first := Step(u, t, START);
    assert first == START.(pos := 1, stack := [Paren], log := [Opened(0)]);
    assert Step(u, t, first) == first.(pos := 3);
    assert ScanAll(u, t) == first.(pos := 3);
    assert ScanTo(u, t, START, 1) == first && EndsInHalf(u, t, START);
    PendingClosersClose(u, t);
  }

  lemma TailOfClosers(c: Text)
    requires AllClosers(c) && c != []
    ensures AllClosers(c[1..])
  {}

  lemma DollarTakes(u: Classes, t: Text, c: Text, h: Scan)
    requires |t| >= 2 && h.pos == |t| - 2 && HalfCharacterAt(t, h.pos) && c != []
    ensures Step(u, t, h) == h.(pos := |t|) && Step(u, t + c, h) == h.(pos := |t| + 1)
  {}
}
