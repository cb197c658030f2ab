/** How src/unix/aio.c reports in turns the descriptors that epoll refuses. */
module AioRotation {
  import opened Basics

  /** INCOMING_EVENTS_SIZE, and MAX_REFUSED_DESCRIPTORS, half of it. */
  const EVENTS: nat := 50
  const MOST: nat := 25

  function Take<T>(s: seq<T>, n: nat): (r: seq<T>)
    ensures |r| == Min(|s|, n)
  {
    if |s| <= n then s else s[..n]
  }

  function Drop<T>(s: seq<T>, n: nat): seq<T> { if |s| <= n then [] else s[n..] }

  /** The two buffers of a turn that starts at position p: the refused descriptors from p on, and
      those before it, each cut to MOST. */
  function FromStart<T>(all: seq<T>, p: nat): seq<T> { Take(Drop(all, p), MOST) }
  function Wrapped<T>(all: seq<T>, p: nat): seq<T> { Take(Take(all, p), MOST) }

  /** How many of those before p find room. */
  function TakenOf<T>(all: seq<T>, p: nat): nat {
    Min(|Wrapped(all, p)|, MOST - |FromStart(all, p)|)
  }

  /** What a turn reports, and where the next one starts. */
  function Reports<T>(all: seq<T>, p: nat): seq<T> {
    FromStart(all, p) + Wrapped(all, p)[..TakenOf(all, p)]
  }

  function NextStart<T>(all: seq<T>, p: nat): nat {
    var taken := TakenOf(all, p);
    var next := if taken > 0 then taken else p + |FromStart(all, p)|;
    if next >= |all| then 0 else next
  }

  /** A start beyond the end, after descriptors were disabled, is a start at the first one. */
  function Start(p: nat, n: nat): nat { if p >= n then 0 else p }

  function Mod(x: nat, n: nat): (r: nat)
    requires 0 < n
    ensures r < n
  {
    x % n
  }

  /** Positions are counted around the list: a turn takes the MOST that follow its start, all of them
      when there are fewer, none of them twice, and leaves off where the following turn begins. */
  lemma TurnIsRotation<T>(all: seq<T>, p: nat)
    requires all != []
    ensures |Reports(all, p)| == Min(MOST, |all|)
    ensures forall k :: 0 <= k < |Reports(all, p)| ==> Reports(all, p)[k] == all[Mod(Start(p, |all|) + k, |all|)]
    ensures NextStart(all, p) == Mod(Start(p, |all|) + Min(MOST, |all|), |all|)
  {
    hide Mod;
    forall x: nat | x < 2 * |all| ensures Mod(x, |all|) == if x < |all| then x else x - |all| {
      OnceAround(x, |all|);
    }
  }

  lemma OnceAround(x: nat, n: nat)
    requires 0 < n && x < 2 * n
    ensures Mod(x, n) == if x < n then x else x - n
  {
    ModUnique(x, n, if x < n then 0 else 1, if x < n then x else x - n);
  }

  /** Nothing is to report: nothing is, and the rotation starts anew. */
  lemma NothingToReport<T>(p: nat)
    ensures Reports<T>([], p) == [] && NextStart<T>([], p) == 0
  {}

  // ---- turns one after the other, with the same refused descriptors

  function StartOfTurn<T>(all: seq<T>, p: nat, turn: nat): nat {
    if turn == 0 then p else NextStart(all, StartOfTurn(all, p, turn - 1))
  }

  lemma {:induction false} StartsMoveOn<T>(all: seq<T>, p: nat, turn: nat)
    requires p < |all|
    ensures StartOfTurn(all, p, turn) == Mod(p + turn * Min(MOST, |all|), |all|)
  {
    hide Mod, NextStart;
    var n, m := |all|, Min(MOST, |all|);
    if turn == 0 {
      OnceAround(p, n);
    } else {
      StartsMoveOn(all, p, turn - 1);
      var before := p + (turn - 1) * m;
      TurnIsRotation(all, Mod(before, n));
      assert before + m == p + turn * m by { OneMore(turn, m); }
      ModOfSum(before, m, n);
    }
  }

  lemma OneMore(turn: nat, m: nat)
    requires turn > 0
    ensures (turn - 1) * m >= 0 && (turn - 1) * m + m == turn * m
  {}

  lemma ModOfSum(x: nat, y: nat, n: nat)
    requires 0 < n
    ensures Mod(Mod(x, n) + y, n) == Mod(x + y, n)
  {
    var r := (x % n + y) % n;
    var q := (x % n + y) / n;
    assert x + y == (x / n + q) * n + r by {
      assert x == (x / n) * n + x % n;
      assert x % n + y == q * n + r;
    }
    ModUnique(x + y, n, x / n + q, r);
  }

  /** How many turns take all of n descriptors. */
  function Turns(n: nat): nat { (n + MOST - 1) / MOST }

  /** The rotation is fair: from any start, every descriptor is reported within that many turns
      one after the other. */
  lemma EveryoneIsReported<T>(all: seq<T>, p: nat, x: nat)
    requires x < |all|
    ensures exists turn: nat :: turn < Turns(|all|) && all[x] in Reports(all, StartOfTurn(all, p, turn))
  {
    hide Mod, Reports, NextStart, StartOfTurn, Turns;
    var n, m, s := |all|, Min(MOST, |all|), Start(p, |all|);
    var d := if x >= s then x - s else x + n - s;
    var turn, k := DistanceInTurns(d, n);
    StartsAgree(all, p, turn);
    StartsMoveOn(all, s, turn);
    var here := StartOfTurn(all, s, turn);
    TurnIsRotation(all, here);
    ModOfSum(s + turn * m, k, n);
    assert s + turn * m + k == s + d;
    OnceAround(s + d, n);
    assert Reports(all, here)[k] == all[x];
    assert all[x] in Reports(all, StartOfTurn(all, p, turn));
  }

  /** Any d below n is so many whole turns, and a position in the next one. */
  lemma DistanceInTurns(d: nat, n: nat) returns (turn: nat, k: nat)
    requires d < n
    ensures turn < Turns(n) && k < Min(MOST, n) && turn * Min(MOST, n) >= 0 && turn * Min(MOST, n) + k == d
  {
    if n <= MOST {
      turn, k := 0, d;
    } else {
      turn, k := d / MOST, d % MOST;
    }
  }

  lemma StartIsInside<T>(all: seq<T>, p: nat, turn: nat)
    requires p < |all|
    ensures Start(StartOfTurn(all, p, turn), |all|) == StartOfTurn(all, p, turn)
  {
    StartsMoveOn(all, p, turn);
  }

  /** A start beyond the end is only the first turn's. */
  lemma {:induction false} StartsAgree<T>(all: seq<T>, p: nat, turn: nat)
    requires all != []
    ensures Start(StartOfTurn(all, p, turn), |all|) == StartOfTurn(all, Start(p, |all|), turn)
    ensures Reports(all, StartOfTurn(all, p, turn)) == Reports(all, StartOfTurn(all, Start(p, |all|), turn))
  {
    hide Mod, Reports, NextStart;
    var s := Start(p, |all|);
    if turn > 0 {
      StartsAgree(all, p, turn - 1);
      var a, b := StartOfTurn(all, p, turn - 1), StartOfTurn(all, s, turn - 1);
      TurnIsRotation(all, a);
      TurnIsRotation(all, b);
      StartIsInside(all, s, turn - 1);
      StartIsInside(all, s, turn);
    } else {
      SameReports(all, p);
    }
  }

  lemma SameReports<T>(all: seq<T>, p: nat)
    requires all != []
    ensures Reports(all, p) == Reports(all, Start(p, |all|))
  {
    if p >= |all| {
      assert Reports(all, p) == Take(all, MOST);
      assert Reports(all, 0) == Take(all, MOST);
    }
  }
}
