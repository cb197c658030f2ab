/** The text functions of the chunk format of notebooks
    (packaging/emscripten/web/notebook-st.js): the doubling of ! and of quotes,
    the unifying of line ends, and the trimming of white space as JavaScript
    and as the format have it. */
module ChunkText {
  import opened CodeUnits

  /** The separators of the chunk format. */
  predicate IsSpace(c: Unit) { c == SPACE || c == TAB || c == LF || c == FORM_FEED }

  /** What \s and trim() of JavaScript take for white space. */
  predicate IsJsSpace(c: Unit) {
    || c == SPACE || TAB <= c <= CR || c == 0xA0 || c == 0x1680 || 0x2000 <= c <= 0x200A
    || c == 0x2028 || c == 0x2029 || c == 0x202F || c == 0x205F || c == 0x3000 || c == BYTE_ORDER_MARK
  }

  /** s with every c doubled. */
  function Doubled(s: Text, c: Unit): Text {
    if s == [] then [] else (if s[0] == c then [c, c] else [s[0]]) + Doubled(s[1..], c)
  }

  /** s with every "" made one ", left to right. */
  function Undoubled(s: Text): Text {
    if |s| >= 2 && s[0] == QUOTE && s[1] == QUOTE then [QUOTE] + Undoubled(s[2..])
    else if s == [] then []
    else [s[0]] + Undoubled(s[1..])
  }

  /** CR LF and CR made LF. */
  function Lines(s: Text): (r: Text)
    ensures CR !in r
  {
    if s == [] then []
    else if s[0] == CR then [LF] + Lines(if |s| > 1 && s[1] == LF then s[2..] else s[1..])
    else [s[0]] + Lines(s[1..])
  }

  /** The characters at the start of s that satisfy p. */
  function Run(s: Text, p: Unit -> bool): (k: nat)
    ensures k <= |s|
    ensures forall i :: 0 <= i < k ==> p(s[i])
    ensures k < |s| ==> !p(s[k])
  {
    if s == [] || !p(s[0]) then 0 else 1 + Run(s[1..], p)
  }

  lemma RunIs(s: Text, p: Unit -> bool, k: nat)
    requires k <= |s| && (forall i :: 0 <= i < k ==> p(s[i])) && (k < |s| ==> !p(s[k]))
    ensures Run(s, p) == k
  {
    var r := Run(s, p);
    assert r < |s| ==> !p(s[r]);
    assert k < |s| ==> !p(s[k]);
  }

  /** The length of s without the characters at its end that satisfy p. */
  function Kept(s: Text, p: Unit -> bool): (b: nat)
    ensures b <= |s|
    ensures forall i :: b <= i < |s| ==> p(s[i])
    ensures b > 0 ==> !p(s[b - 1])
  {
    if s == [] || !p(s[|s| - 1]) then |s| else Kept(s[..|s| - 1], p)
  }

  lemma KeptIs(s: Text, p: Unit -> bool, b: nat)
    requires b <= |s| && (forall i :: b <= i < |s| ==> p(s[i])) && (b > 0 ==> !p(s[b - 1]))
    ensures Kept(s, p) == b
  {
    var r := Kept(s, p);
    assert r > 0 ==> !p(s[r - 1]);
    assert b > 0 ==> !p(s[b - 1]);
  }

  function Skip(s: Text): Text { s[Run(s, IsSpace)..] }

  /** trim() of JavaScript. */
  function JsTrim(s: Text): (r: Text)
    ensures |r| <= |s|
    ensures r != [] ==> !IsJsSpace(r[0]) && !IsJsSpace(r[|r| - 1])
  {
    var t := s[..Kept(s, IsJsSpace)];
    t[Run(t, IsJsSpace)..]
  }

  /** The index after the last line feed of s, 0 when it has none. */
  function AfterLastLine(s: Text): (a: nat)
    ensures a <= |s|
    ensures a > 0 ==> s[a - 1] == LF
    ensures forall i :: a <= i < |s| ==> s[i] != LF
  {
    if s == [] then 0 else if s[|s| - 1] == LF then |s| else AfterLastLine(s[..|s| - 1])
  }

  lemma AfterLastLineIs(s: Text, a: nat)
    requires a <= |s| && (a > 0 ==> s[a - 1] == LF) && forall i :: a <= i < |s| ==> s[i] != LF
    ensures AfterLastLine(s) == a
  {
    var r := AfterLastLine(s);
    assert r > 0 ==> s[r - 1] == LF;
    assert a > 0 ==> s[a - 1] == LF;
  }

  /** The part of s from its first line that is not blank to its last character that is not blank. */
  function TrimBlankLines(s: Text): Text {
    var t := s[..Kept(s, IsSpace)];
    t[AfterLastLine(t[..Run(t, IsSpace)])..]
  }

  /** Neither a blank first line nor white space at the end. */
  predicate IsTrimmed(s: Text) {
    && (s != [] ==> !IsSpace(s[|s| - 1]))
    && forall i :: 0 <= i < Run(s, IsSpace) ==> s[i] != LF
  }

  lemma TrimBlankLinesTrims(s: Text)
    ensures IsTrimmed(TrimBlankLines(s))
  {
    hide Run, Kept, AfterLastLine, IsSpace;
    var t := s[..Kept(s, IsSpace)];
    var k := Run(t, IsSpace);
    var a := AfterLastLine(t[..k]);
    var r := t[a..];
    RunIs(r, IsSpace, k - a);
    assert forall i :: a <= i < k ==> t[..k][i] == t[i];
  }

  /** Trimmed text stays as it is. */
  lemma TrimmedStays(s: Text)
    requires IsTrimmed(s)
    ensures TrimBlankLines(s) == s
  {
    KeptIs(s, IsSpace, |s|);
    assert s[..|s|] == s;
    AfterLastLineIs(s[..Run(s, IsSpace)], 0);
  }

  lemma {:induction false} DoubledConcat(x: Text, y: Text, c: Unit)
    ensures Doubled(x + y, c) == Doubled(x, c) + Doubled(y, c)
  {
    if x == [] {
      assert x + y == y;
    } else {
      assert (x + y)[1..] == x[1..] + y;
      DoubledConcat(x[1..], y, c);
    }
  }

  lemma {:induction false} DoubledStays(x: Text, c: Unit)
    requires c !in x
    ensures Doubled(x, c) == x
  {
    if x != [] {
      DoubledStays(x[1..], c);
    }
  }

  lemma {:induction false} DoubledHasNo(x: Text, c: Unit, d: Unit)
    requires d !in x && c != d
    ensures d !in Doubled(x, c)
  {
    if x != [] {
      DoubledHasNo(x[1..], c, d);
    }
  }

  /** Making "" one " undoes the doubling of ". */
  lemma {:induction false} UndoubledDoubled(x: Text)
    ensures Undoubled(Doubled(x, QUOTE)) == x
  {
    if x != [] {
      var d := Doubled(x[1..], QUOTE);
      UndoubledDoubled(x[1..]);
      if x[0] == QUOTE {
        assert Doubled(x, QUOTE)[2..] == d;
      } else {
        assert Doubled(x, QUOTE)[1..] == d;
      }
    }
  }

  lemma {:induction false} LinesStays(s: Text)
    requires CR !in s
    ensures Lines(s) == s
  {
    if s != [] {
      LinesStays(s[1..]);
    }
  }

  /** s with every line feed made eol. */
  function WithEol(s: Text, eol: Text): Text {
    if s == [] then [] else (if s[0] == LF then eol else [s[0]]) + WithEol(s[1..], eol)
  }

  /** Lines undoes CR LF and CR line ends. */
  lemma {:induction false} LinesOfEol(s: Text, eol: Text)
    requires CR !in s && (eol == [LF] || eol == [CR, LF] || eol == [CR])
    ensures Lines(WithEol(s, eol)) == s
  {
    if s != [] {
      var w := WithEol(s[1..], eol);
      LinesOfEol(s[1..], eol);
      if s[0] == LF {
        if eol == [CR, LF] {
          assert (eol + w)[2..] == w;
        } else if eol == [CR] {
          assert (eol + w)[1..] == w;
          EolIsNotLf(s[1..], eol);
        } else {
          assert (eol + w)[1..] == w;
        }
      } else {
        assert ([s[0]] + w)[1..] == w;
      }
    }
  }

  lemma EolIsNotLf(s: Text, eol: Text)
    requires eol == [CR]
    ensures WithEol(s, eol) != [] ==> WithEol(s, eol)[0] != LF
  {}
}
