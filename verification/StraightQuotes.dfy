/** Curly quotes typed into code made straight: `straightenQuotes` of
    packaging/emscripten/web/notebook-st.js. */
module StraightQuotes {
  import opened Basics
  import opened CodeUnits
  import opened Scanner

  predicate IsCurlySingle(c: int) { c == 0x2018 || c == 0x2019 }
  predicate IsCurlyDouble(c: int) { c == 0x201C || c == 0x201D }

  function Straight(c: Unit): Unit {
    if IsCurlySingle(c) then APOSTROPHE else if IsCurlyDouble(c) then QUOTE else c
  }

  /** Out of strings and comments; or in one with a quote, that a curly quote began or not. */
  datatype Place = Outside | Inside(quote: Unit, curly: bool)

  predicate Ends(p: Place, c: Unit) {
    p.Inside? && (c == p.quote || (p.curly && c == if p.quote == APOSTROPHE then 0x2019 else 0x201D))
  }

  /** The text from a place on, made straight. */
  function Straightened(t: Text, p: Place): (r: Text)
    ensures |r| == |t|
    decreases |t|
  {
    if t == [] then []
    else
      var c := t[0];
      if p.Inside? then
        if Ends(p, c) then [p.quote] + Straightened(t[1..], Outside) else [c] + Straightened(t[1..], p)
      else if c == DOLLAR && |t| > 1 then [c, Straight(t[1])] + Straightened(t[2..], Outside)
      else if Straight(c) == APOSTROPHE || Straight(c) == QUOTE then
        [Straight(c)] + Straightened(t[1..], Inside(Straight(c), c != Straight(c)))
      else [c] + Straightened(t[1..], Outside)
  }

  function PlaceOnce(p: Place): Place { if p.Inside? then p.(curly := false) else p }

  /** What is straight already stays: doing it twice is doing it once. */
  lemma {:induction false} StraightenedTwice(t: Text, p: Place)
    requires p.Inside? ==> p.quote == APOSTROPHE || p.quote == QUOTE
    ensures Straightened(Straightened(t, p), PlaceOnce(p)) == Straightened(t, p)
    decreases |t|
  {
    if t != [] {
      var c := t[0];
      var r := Straightened(t, p);
      if p.Outside? && c == DOLLAR && |t| > 1 {
        StraightenedTwice(t[2..], Outside);
        assert r[2..] == Straightened(t[2..], Outside);
      } else {
        var next := if p.Inside? then (if Ends(p, c) then Outside else p)
                    else if Straight(c) == APOSTROPHE || Straight(c) == QUOTE then Inside(Straight(c), c != Straight(c))
                    else Outside;
        StraightenedTwice(t[1..], next);
        assert r[1..] == Straightened(t[1..], next);
      }
    }
  }

  /** Only curly quotes change, each into the straight one of its kind. */
  lemma {:induction false} OnlyQuotesChange(t: Text, p: Place, k: nat)
    requires k < |t| && (p.Inside? ==> p.quote == APOSTROPHE || p.quote == QUOTE)
    ensures Straightened(t, p)[k] == t[k] || Straightened(t, p)[k] == Straight(t[k])
    decreases |t|
  {
    var c := t[0];
    if p.Outside? && c == DOLLAR && |t| > 1 {
      if k >= 2 {
        OnlyQuotesChange(t[2..], Outside, k - 2);
      }
    } else if k > 0 {
      var next := if p.Inside? then (if Ends(p, c) then Outside else p)
                  else if Straight(c) == APOSTROPHE || Straight(c) == QUOTE then Inside(Straight(c), c != Straight(c))
                  else Outside;
      OnlyQuotesChange(t[1..], next, k - 1);
    }
  }

  method StraightenQuotes(t: Text) returns (out: Text)
    ensures out == Straightened(t, Outside)
  {
    out := [];
    var p := Outside;
    var i := 0;
    while i < |t|
      invariant 0 <= i <= |t|
      invariant out + Straightened(t[i..], p) == Straightened(t, Outside)
    {
      var c := t[i];
      ghost var rest := t[i..];
      assert rest[0] == c && rest[1..] == t[i + 1..];
      if p.Inside? {
        if Ends(p, c) {
          Associative(out, [p.quote], Straightened(t[i + 1..], Outside));
          out, p := out + [p.quote], Outside;
        } else {
          Associative(out, [c], Straightened(t[i + 1..], p));
          out := out + [c];
        }
      } else if c == DOLLAR && i + 1 < |t| {
        assert rest[1] == t[i + 1] && rest[2..] == t[i + 2..];
        Associative(out, [c, Straight(t[i + 1])], Straightened(t[i + 2..], Outside));
        out := out + [c, Straight(t[i + 1])];
        i := i + 1;
      } else {
        if Straight(c) == APOSTROPHE || Straight(c) == QUOTE {
          p := Inside(Straight(c), c != Straight(c));
        }
        Associative(out, [Straight(c)], Straightened(t[i + 1..], p));
        out := out + [Straight(c)];
      }
      i := i + 1;
    }
    assert t[i..] == [];
    assert out + [] == out;
  }

  // ---- what the straightened text is

  predicate IsCurly(c: int) { IsCurlySingle(c) || IsCurlyDouble(c) }

  /** Reading r from i to k: the index of the quote that opened the string or comment that k is in; -1 outside.
      open is the one that i is in. */
  function OpenAt(r: Text, i: nat, open: int, k: nat): (o: int)
    requires i <= k < |r| && -1 <= open < i
    ensures -1 <= o < k
    decreases k - i
  {
    if i == k then open
    else if open >= 0 then OpenAt(r, i + 1, if r[i] == r[open] then -1 else open, k)
    else if r[i] == DOLLAR then if i + 1 == k then -1 else OpenAt(r, i + 2, -1, k)
    else OpenAt(r, i + 1, if r[i] == APOSTROPHE || r[i] == QUOTE then i else -1, k)
  }

  /** The unit of t closes what the quote at o opens: the quote itself, or the curly one that closes, when a
      curly one opened. */
  predicate Closes(t: Text, r: Text, o: nat, c: Unit)
    requires o < |t| == |r|
  {
    c == r[o] || (t[o] != r[o] && c == if r[o] == APOSTROPHE then 0x2019 else 0x201D)
  }

  /** Outside of strings and comments every quote is straight, behind a $ too; inside, only what closes them
      is made straight, and everything else stays. */
  lemma {:induction false} StraightenedIs(t: Text, k: nat)
    requires k < |t|
    ensures var r := Straightened(t, Outside);
      var o := OpenAt(r, 0, -1, k);
      if o < 0 then r[k] == Straight(t[k]) && !IsCurly(r[k])
      else r[k] == if Closes(t, r, o, t[k]) then r[o] else t[k]
  {
    assert t[0..] == t;
    var r := Straightened(t, Outside);
    assert r[0..] == r;
    FromHere(t, r, 0, -1, Outside, k);
  }

  lemma {:induction false} FromHere(t: Text, r: Text, i: nat, open: int, p: Place, k: nat)
    requires i <= k < |t| == |r| && -1 <= open < i && r[i..] == Straightened(t[i..], p)
    requires p == if open < 0 then Outside else Inside(r[open], t[open] != r[open])
    requires open >= 0 ==> r[open] == APOSTROPHE || r[open] == QUOTE
    ensures var o := OpenAt(r, i, open, k);
      if o < 0 then r[k] == Straight(t[k]) && !IsCurly(r[k])
      else r[k] == if Closes(t, r, o, t[k]) then r[o] else t[k]
    decreases k - i
  {
    var c, rest := t[i], t[i..];
    assert rest[0] == c && r[i..][0] == r[i];
    if open >= 0 {
      assert rest[1..] == t[i + 1..] && r[i..][1..] == r[i + 1..];
      if i < k {
        FromHere(t, r, i + 1, if r[i] == r[open] then -1 else open, if Ends(p, c) then Outside else p, k);
      }
    } else if c == DOLLAR && |rest| > 1 {
      assert rest[1] == t[i + 1] && rest[2..] == t[i + 2..];
      assert r[i..][1] == r[i + 1] && r[i..][2..] == r[i + 2..];
      if i + 1 < k {
        FromHere(t, r, i + 2, -1, Outside, k);
      }
    } else {
      assert rest[1..] == t[i + 1..] && r[i..][1..] == r[i + 1..];
      if i < k {
        if Straight(c) == APOSTROPHE || Straight(c) == QUOTE {
          FromHere(t, r, i + 1, i, Inside(Straight(c), c != Straight(c)), k);
        } else {
          FromHere(t, r, i + 1, -1, Outside, k);
        }
      }
    }
  }
}
