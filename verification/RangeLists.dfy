/** The range lists of the WebAssembly heap allocator: sorted, coalescing holes. */
module RangeLists {
  // Every list operation is specified by what it does to Count, the number of ranges of a list that
  // contain an address.

  type Byte = x: int | 0 <= x < 256

  datatype Range = Range(start: nat, end: nat, dirty: bool)

  const MAX_RANGES: nat := 1024

  ghost predicate Contains(r: Range, a: int) {
    r.start <= a < r.end
  }

  ghost predicate Covers(rs: seq<Range>, a: int) {
    exists i :: 0 <= i < |rs| && Contains(rs[i], a)
  }

  /** How many ranges of rs contain the address a. */
  ghost function Count(rs: seq<Range>, a: int): (c: nat)
    ensures c > 0 <==> Covers(rs, a)
  {
    if rs == [] then 0
    else
      assert Covers(rs, a) <==> Contains(rs[0], a) || Covers(rs[1..], a) by {
        if i :| 0 <= i < |rs| && Contains(rs[i], a) && i > 0 { assert Contains(rs[1..][i - 1], a); }
        if i :| 0 <= i < |rs[1..]| && Contains(rs[1..][i], a) { assert Contains(rs[i + 1], a); }
      }
      (if Contains(rs[0], a) then 1 else 0) + Count(rs[1..], a)
  }

  /** Sorted, without empty ranges, and with a gap between any two of them. */
  ghost predicate Coalesced(rs: seq<Range>) {
    && (forall i :: 0 <= i < |rs| ==> rs[i].start < rs[i].end)
    && (forall i, j :: 0 <= i < j < |rs| ==> rs[i].end < rs[j].start)
  }

  function RemoveAt<T>(s: seq<T>, i: nat): seq<T>
    requires i < |s|
  {
    s[..i] + s[i + 1..]
  }

  function InsertAt<T>(s: seq<T>, i: nat, x: T): seq<T>
    requires i <= |s|
  {
    s[..i] + [x] + s[i..]
  }

  /** The index of the first range that starts at or above start. */
  function Position(rs: seq<Range>, start: nat): (i: nat)
    ensures i <= |rs|
    ensures forall k :: 0 <= k < i ==> rs[k].start < start
    ensures i < |rs| ==> start <= rs[i].start
  {
    if rs == [] || start <= rs[0].start then 0
    else 1 + Position(rs[1..], start)
  }

  lemma PositionIs(rs: seq<Range>, start: nat, i: nat)
    requires i <= |rs|
    requires forall k :: 0 <= k < i ==> rs[k].start < start
    requires i < |rs| ==> start <= rs[i].start
    ensures i == Position(rs, start)
  {
    var p := Position(rs, start);
    assert p < |rs| ==> start <= rs[p].start;
  }

  /** Ranges i and i + 1 as one, when they touch. */
  function Join(rs: seq<Range>, i: nat): (r: seq<Range>)
    requires i < |rs|
    ensures |rs| - 1 <= |r| <= |rs|
  {
    if i + 1 < |rs| && rs[i].end == rs[i + 1].start then
      rs[..i] + [Range(rs[i].start, rs[i + 1].end, rs[i].dirty || rs[i + 1].dirty)] + rs[i + 2..]
    else rs
  }

  lemma JoinIsRemove(rs: seq<Range>, i: nat)
    requires i + 1 < |rs| && rs[i].end == rs[i + 1].start
    ensures Join(rs, i) == RemoveAt(rs[i := Range(rs[i].start, rs[i + 1].end, rs[i].dirty || rs[i + 1].dirty)], i + 1)
  {}

  /** The list once [start, end) is added to it (a full list and an empty range change nothing). */
  function AddHole(holes: seq<Range>, start: nat, end: nat, dirty: bool): (r: seq<Range>)
    ensures |holes| <= MAX_RANGES ==> |r| <= MAX_RANGES
  {
    if start >= end || |holes| == MAX_RANGES then holes
    else
      var i := Position(holes, start);
      var joined := Join(InsertAt(holes, i, Range(start, end, dirty)), i);
      if i > 0 then Join(joined, i - 1) else joined
  }

  lemma AddHoleLength(holes: seq<Range>, start: nat, end: nat, dirty: bool)
    ensures |AddHole(holes, start, end, dirty)| <= |holes| + 1
  {}

  lemma {:induction false} CountConcat(x: seq<Range>, y: seq<Range>, a: int)
    ensures Count(x + y, a) == Count(x, a) + Count(y, a)
  {
    if x == [] {
      assert x + y == y;
    } else {
      assert (x + y)[1..] == x[1..] + y;
      CountConcat(x[1..], y, a);
    }
  }

  lemma CountOne(r: Range, a: int)
    ensures Count([r], a) == if Contains(r, a) then 1 else 0
  {
    assert Count([r][1..], a) == 0;
  }

  lemma CountSplit(rs: seq<Range>, i: nat, a: int)
    requires i < |rs|
    ensures Count(rs, a) == Count(rs[..i], a) + (if Contains(rs[i], a) then 1 else 0) + Count(rs[i + 1..], a)
  {
    assert rs == rs[..i] + [rs[i]] + rs[i + 1..];
    CountConcat(rs[..i] + [rs[i]], rs[i + 1..], a);
    CountConcat(rs[..i], [rs[i]], a);
    CountOne(rs[i], a);
  }

  lemma CountInsert(rs: seq<Range>, i: nat, r: Range, a: int)
    requires i <= |rs|
    ensures Count(InsertAt(rs, i, r), a) == Count(rs, a) + if Contains(r, a) then 1 else 0
  {
    var x := InsertAt(rs, i, r);
    CountSplit(x, i, a);
    assert x[..i] == rs[..i] && x[i + 1..] == rs[i..];
    assert rs == rs[..i] + rs[i..];
    CountConcat(rs[..i], rs[i..], a);
  }

  lemma CountRemove(rs: seq<Range>, i: nat, a: int)
    requires i < |rs|
    ensures Count(RemoveAt(rs, i), a) + (if Contains(rs[i], a) then 1 else 0) == Count(rs, a)
  {
    CountSplit(rs, i, a);
    CountConcat(rs[..i], rs[i + 1..], a);
  }

  lemma CountJoin(rs: seq<Range>, i: nat, a: int)
    requires i < |rs|
    requires forall k :: 0 <= k < |rs| ==> rs[k].start < rs[k].end
    ensures Count(Join(rs, i), a) == Count(rs, a)
  {
    var x := Join(rs, i);
    if x != rs {
      CountSplit(x, i, a);
      CountSplit(rs, i, a);
      CountSplit(rs[i + 1..], 0, a);
      assert x[..i] == rs[..i] && x[i + 1..] == rs[i + 2..] == rs[i + 1..][1..];
      assert rs[i + 1..][..0] == [];
    }
  }

  /** Adding a range adds one to the count of its addresses, and to no other. */
  lemma CountAddHole(holes: seq<Range>, start: nat, end: nat, dirty: bool, a: int)
    requires Coalesced(holes) && |holes| < MAX_RANGES
    ensures Count(AddHole(holes, start, end, dirty), a) == Count(holes, a) + if start <= a < end then 1 else 0
  {
    if start < end {
      var i := Position(holes, start);
      var x := InsertAt(holes, i, Range(start, end, dirty));
      CountInsert(holes, i, Range(start, end, dirty), a);
      CountJoin(x, i, a);
      if i > 0 { CountJoin(Join(x, i), i - 1, a); }
    }
  }

  lemma CoalescedAround(holes: seq<Range>, p: nat, m: Range, q: nat)
    requires Coalesced(holes) && p <= q <= |holes|
    requires m.start < m.end
    requires p > 0 ==> holes[p - 1].end < m.start
    requires q < |holes| ==> m.end < holes[q].start
    ensures Coalesced(holes[..p] + [m] + holes[q..])
  {
    var r := holes[..p] + [m] + holes[q..];
    forall i, j | 0 <= i < j < |r| ensures r[i].end < r[j].start {
      if i < p { assert r[i] == holes[i]; }
      if j > p { assert r[j] == holes[j - p - 1 + q]; }
    }
  }

  /** The holes around the position of a range that is free of them. */
  lemma Neighbours(holes: seq<Range>, start: nat, end: nat)
    requires Coalesced(holes) && start < end
    requires forall a :: start <= a < end ==> !Covers(holes, a)
    ensures var i := Position(holes, start);
      (i > 0 ==> holes[i - 1].end <= start) && (i < |holes| ==> end <= holes[i].start)
  {
    var i := Position(holes, start);
    if i > 0 {
      assert !Covers(holes, start);
      assert !Contains(holes[i - 1], start);
    }
    if i < |holes| {
      assert Contains(holes[i], holes[i].start) && Covers(holes, holes[i].start);
    }
  }

  lemma JoinShape(holes: seq<Range>, i: nat, r: Range)
    requires i <= |holes|
    ensures Join(InsertAt(holes, i, r), i) ==
      if i < |holes| && r.end == holes[i].start
      then holes[..i] + [Range(r.start, holes[i].end, r.dirty || holes[i].dirty)] + holes[i + 1..]
      else holes[..i] + [r] + holes[i..]
  {
    var x := InsertAt(holes, i, r);
    if i < |holes| {
      assert x[i + 1] == holes[i] && x[i + 2..] == holes[i + 1..];
    }
  }

  lemma JoinLeftShape(holes: seq<Range>, i: nat, q: nat, r: Range)
    requires 0 < i <= q <= |holes|
    ensures Join(holes[..i] + [r] + holes[q..], i - 1) ==
      if holes[i - 1].end == r.start
      then holes[..i - 1] + [Range(holes[i - 1].start, r.end, holes[i - 1].dirty || r.dirty)] + holes[q..]
      else holes[..i] + [r] + holes[q..]
  {
    var x := holes[..i] + [r] + holes[q..];
    assert x[..i - 1] == holes[..i - 1] && x[i + 1..] == holes[q..];
  }

  lemma GapBetween(holes: seq<Range>, i: nat, j: nat)
    requires Coalesced(holes) && i < j < |holes|
    ensures holes[i].end < holes[j].start
  {}

  /** The holes stay sorted and fully coalesced when a range free of them is added. */
  lemma AddHoleCoalesced(holes: seq<Range>, start: nat, end: nat, dirty: bool)
    requires Coalesced(holes)
    requires forall a :: start <= a < end ==> !Covers(holes, a)
    ensures Coalesced(AddHole(holes, start, end, dirty))
  {
    hide Coalesced, Covers, Join, InsertAt;
    if start < end && |holes| != MAX_RANGES {
      var i := Position(holes, start);
      Neighbours(holes, start, end);
      JoinShape(holes, i, Range(start, end, dirty));
      var q := if i < |holes| && end == holes[i].start then i + 1 else i;
      var right := if q == i then Range(start, end, dirty) else Range(start, holes[i].end, dirty || holes[i].dirty);
      if q < |holes| && i < q { GapBetween(holes, i, q); }
      if i < |holes| { RangeIsNotEmpty(holes, i); }
      if i > 0 {
        JoinLeftShape(holes, i, q, right);
        RangeIsNotEmpty(holes, i - 1);
      }
      if i > 0 && holes[i - 1].end == start {
        if i > 1 { GapBetween(holes, i - 2, i - 1); }
        CoalescedAround(holes, i - 1, Range(holes[i - 1].start, right.end, holes[i - 1].dirty || right.dirty), q);
      } else {
        CoalescedAround(holes, i, right, q);
      }
    }
  }

  lemma RangeIsNotEmpty(holes: seq<Range>, i: nat)
    requires Coalesced(holes) && i < |holes|
    ensures holes[i].start < holes[i].end
  {}

  /** Every address of a clean range of rs is zero in memory. */
  ghost predicate CleanAreZero(rs: seq<Range>, memory: seq<Byte>) {
    forall i, a {:trigger Contains(rs[i], a)} ::
      0 <= i < |rs| && !rs[i].dirty && Contains(rs[i], a) && a < |memory| ==> memory[a] == 0
  }

  lemma JoinKeepsClean(rs: seq<Range>, i: nat, memory: seq<Byte>)
    requires i < |rs| && CleanAreZero(rs, memory)
    ensures CleanAreZero(Join(rs, i), memory)
  {
    var x := Join(rs, i);
    forall k, a | 0 <= k < |x| && !x[k].dirty && Contains(x[k], a) && a < |memory| ensures memory[a] == 0 {
      if x == rs || k < i {
        assert x[k] == rs[k];
      } else if k > i {
        assert x[k] == rs[k + 1] && Contains(rs[k + 1], a);
      } else {
        assert Contains(rs[i], a) || Contains(rs[i + 1], a);
      }
    }
  }

  /** A merged hole is clean only when every part of it is: clean holes stay zero. */
  lemma AddHoleKeepsClean(holes: seq<Range>, start: nat, end: nat, dirty: bool, memory: seq<Byte>)
    requires CleanAreZero(holes, memory)
    requires dirty || forall a :: start <= a < end && a < |memory| ==> memory[a] == 0
    ensures CleanAreZero(AddHole(holes, start, end, dirty), memory)
  {
    if start < end && |holes| != MAX_RANGES {
      var i := Position(holes, start);
      var x := InsertAt(holes, i, Range(start, end, dirty));
      forall k, a | 0 <= k < |x| && !x[k].dirty && Contains(x[k], a) && a < |memory| ensures memory[a] == 0 {
        if k < i { assert x[k] == holes[k]; }
        if k > i { assert x[k] == holes[k - 1] && Contains(holes[k - 1], a); }
      }
      JoinKeepsClean(x, i, memory);
      if i > 0 { JoinKeepsClean(Join(x, i), i - 1, memory); }
    }
  }
}
