module AllocatorProofs {
  // What the heap allocator keeps: every address accounted for, zero-filled allocations, the lowest fit.

  import opened Basics
  import opened RangeLists
  import opened AllocatorModel

  lemma OneOwner(h: Heap, a: int)
    requires Accounts(h, 0, 0)
    ensures Owners(h, a) == OneIf(h.first <= a < h.brk)
  {
    assert Owners(h, a) + OneIf(0 <= a < 0) == OneIf(h.first <= a < h.brk);
  }

  lemma RangeBounds(h: Heap, rs: seq<Range>, i: nat, low: int, high: int)
    requires Accounts(h, low, high) && i < |rs| && rs[i].start < rs[i].end
    requires rs == h.holes || rs == h.blocks
    ensures h.first <= rs[i].start && rs[i].end <= h.brk
  {
    assert Contains(rs[i], rs[i].start) && Covers(rs, rs[i].start);
    assert Contains(rs[i], rs[i].end - 1) && Covers(rs, rs[i].end - 1);
    assert Owners(h, rs[i].start) > 0 && Owners(h, rs[i].end - 1) > 0;
  }

  /** Putting back a range that nobody owns gives it one owner and keeps the heap sound. */
  lemma PutHoleSound(h: Heap, start: nat, end: nat, dirty: bool)
    requires Sound(h)
    requires forall a :: start <= a < end ==> !Covers(h.holes, a)
    requires dirty || IsZero(h.memory, start, end)
    ensures var g := PutHole(h, start, end, dirty);
      && Sound(g)
      && (forall a :: Owners(g, a) == Owners(h, a) + OneIf(start <= a < end))
      && (|h.holes| < MAX_RANGES ==> forall a :: Count(g.holes, a) == Count(h.holes, a) + OneIf(start <= a < end))
      && (|h.holes| < MAX_RANGES ==> g.lost == h.lost)
      && g == h.(holes := g.holes, lost := g.lost)
  {
    var g := PutHole(h, start, end, dirty);
    if start < end {
      if |h.holes| == MAX_RANGES {
        forall a ensures Owners(g, a) == Owners(h, a) + OneIf(start <= a < end) {
          CountConcat(h.lost, [Range(start, end, dirty)], a);
          CountOne(Range(start, end, dirty), a);
        }
      } else {
        AddHoleCoalesced(h.holes, start, end, dirty);
        AddHoleKeepsClean(h.holes, start, end, dirty, h.memory);
        forall a ensures Count(g.holes, a) == Count(h.holes, a) + OneIf(start <= a < end) {
          CountAddHole(h.holes, start, end, dirty, a);
        }
      }
    }
  }

  lemma RemoveHoleSound(h: Heap, i: nat)
    requires Sound(h) && i < |h.holes|
    ensures Sound(h.(holes := RemoveAt(h.holes, i)))
    ensures forall a :: Count(RemoveAt(h.holes, i), a) + OneIf(Contains(h.holes[i], a)) == Count(h.holes, a)
  {
    RemoveKeepsClean(h.holes, i, h.memory);
    forall a ensures Count(RemoveAt(h.holes, i), a) + OneIf(Contains(h.holes[i], a)) == Count(h.holes, a) {
      CountRemove(h.holes, i, a);
    }
  }

  lemma RemoveKeepsClean(holes: seq<Range>, i: nat, memory: seq<Byte>)
    requires i < |holes| && CleanAreZero(holes, memory) && Coalesced(holes)
    ensures CleanAreZero(RemoveAt(holes, i), memory) && Coalesced(RemoveAt(holes, i))
  {
    var rest := RemoveAt(holes, i);
    assert forall k :: 0 <= k < |rest| ==> rest[k] == holes[if k < i then k else k + 1];
  }

  lemma MoveBreakSound(h: Heap, brk: nat)
    requires Sound(h) && h.brk <= brk <= h.limit
    ensures Sound(h.(brk := brk))
  {}

  /** Nobody has what a removed hole held. */
  lemma RemovedIsNotCovered(h: Heap, i: nat)
    requires Sound(h) && i < |h.holes|
    requires forall a :: Contains(h.holes[i], a) ==> Count(h.holes, a) == 1
    ensures forall a :: Contains(h.holes[i], a) ==> Count(RemoveAt(h.holes, i), a) == 0
    ensures forall a :: Contains(h.holes[i], a) ==> !Covers(RemoveAt(h.holes, i), a)
  {
    RemoveHoleSound(h, i);
    hide RemoveAt, Coalesced, CleanAreZero;
    forall a | Contains(h.holes[i], a)
      ensures Count(RemoveAt(h.holes, i), a) == 0 && !Covers(RemoveAt(h.holes, i), a)
    {}
  }

  /** Removing hole i and putting its first part back. */
  lemma KeepLeftPart(h: Heap, i: nat, start: nat)
    requires Sound(h) && i < |h.holes| && h.holes[i].start <= start < h.holes[i].end
    requires forall a :: Contains(h.holes[i], a) ==> Count(h.holes, a) == 1
    ensures var hole := h.holes[i];
      var g := PutHole(h.(holes := RemoveAt(h.holes, i)), hole.start, start, hole.dirty);
      && Sound(g) && g == h.(holes := g.holes)
      && (forall a :: Owners(g, a) + OneIf(start <= a < hole.end) == Owners(h, a))
      && (forall a :: start <= a < hole.end ==> !Covers(g.holes, a))
  {
    hide PutHole, Coalesced, CleanAreZero;
    var hole := h.holes[i];
    RemoveHoleSound(h, i);
    RemovedIsNotCovered(h, i);
    HoleIsZero(h, i);
    var rest := h.(holes := RemoveAt(h.holes, i));
    assert |rest.holes| < |h.holes|;
    hide RemoveAt;
    forall a | hole.start <= a < start ensures !Covers(rest.holes, a) { assert Contains(hole, a); }
    PutHoleSound(rest, hole.start, start, hole.dirty);
    var g := PutHole(rest, hole.start, start, hole.dirty);
    forall a ensures Owners(g, a) + OneIf(start <= a < hole.end) == Owners(h, a) {
      assert Owners(g, a) == Owners(rest, a) + OneIf(hole.start <= a < start);
    }
    forall a | start <= a < hole.end ensures !Covers(g.holes, a) {
      assert Contains(hole, a) && Count(rest.holes, a) == 0;
      assert Count(g.holes, a) == Count(rest.holes, a) + OneIf(hole.start <= a < start);
    }
  }

  lemma SplitHole(h: Heap, i: nat, start: nat, end: nat)
    requires Sound(h) && i < |h.holes| && h.holes[i].start <= start < h.holes[i].end && start < end
    requires forall a :: Contains(h.holes[i], a) ==> Count(h.holes, a) == 1
    ensures var g := WithoutMiddle(h, i, start, end);
      && Sound(g)
      && (forall a :: Owners(g, a) + OneIf(start <= a < end && a < h.holes[i].end) == Owners(h, a))
      && (|h.holes| < MAX_RANGES ==> g.lost == h.lost)
      && g == h.(holes := g.holes, lost := g.lost)
  {
    var hole := h.holes[i];
    KeepLeftPart(h, i, start);
    var left := PutHole(h.(holes := RemoveAt(h.holes, i)), hole.start, start, hole.dirty);
    HoleIsZero(h, i);
    PutHoleSound(left, end, hole.end, hole.dirty);
    var g := WithoutMiddle(h, i, start, end);
    forall a ensures Owners(g, a) + OneIf(start <= a < end && a < hole.end) == Owners(h, a) {
      assert Owners(g, a) == Owners(left, a) + OneIf(end <= a < hole.end);
    }
    AddHoleLength(RemoveAt(h.holes, i), hole.start, start, hole.dirty);
  }

  lemma HoleIsZero(h: Heap, i: nat)
    requires Sound(h) && i < |h.holes|
    ensures h.holes[i].dirty || IsZero(h.memory, h.holes[i].start, h.holes[i].end)
  {
    forall a | h.holes[i].start <= a < h.holes[i].end && !h.holes[i].dirty && a < |h.memory| ensures h.memory[a] == 0 {
      assert Contains(h.holes[i], a);
    }
  }

  lemma OneOwnerEach(h: Heap, i: nat)
    requires Accounts(h, 0, 0) && i < |h.holes|
    ensures forall a :: Contains(h.holes[i], a) ==> Count(h.holes, a) == 1 && Owners(h, a) == 1
  {
    forall a | Contains(h.holes[i], a) ensures Count(h.holes, a) == 1 && Owners(h, a) == 1 {
      assert Covers(h.holes, a);
      OneOwner(h, a);
    }
  }

  /** A carved range is zero: its part inside the hole was zero or is zeroed now, and the
      rest lies above the old break. */
  lemma CarvedIsZero(h: Heap, i: nat, start: nat, end: nat)
    requires Sound(h) && i < |h.holes| && h.holes[i].start <= start && h.holes[i].end <= h.brk
    requires end > h.holes[i].end ==> h.holes[i].end == h.brk
    ensures IsZero(if h.holes[i].dirty then Zeroed(h.memory, start, Min(end, h.holes[i].end)) else h.memory, start, end)
  {
    HoleIsZero(h, i);
  }

  lemma HoleIsFree(h: Heap, i: nat, start: nat, size: nat)
    requires i < |h.holes| && Holds(h, i, start, start + size) && h.holes[i].end <= h.brk <= h.max
    ensures Free(h, start, size)
  {
    forall a | start <= a < start + size && a < h.brk ensures Covers(h.holes, a) {
      assert Contains(h.holes[i], a);
    }
  }

  lemma CarveZeroes(h: Heap, both: Heap, i: nat, start: nat, size: nat)
    requires Sound(h) && i < |h.holes| && size > 0 && Holds(h, i, start, start + size) && h.holes[i].end <= h.brk
    requires Sound(both) && Accounts(both, start, start + size) && both.brk == Max(h.brk, start + size)
    requires both == h.(holes := both.holes, lost := both.lost, brk := both.brk)
    requires |h.holes| < MAX_RANGES ==> both.lost == h.lost
    ensures var hole := h.holes[i];
      Allocates(h,
                if hole.dirty then both.(memory := Zeroed(both.memory, start, Min(start + size, hole.end))) else both,
                start, size)
  {
    hide CleanAreZero, Coalesced;
    var hole := h.holes[i];
    var end := start + size;
    ZeroingSound(both, start, Min(end, hole.end));
    CarvedIsZero(h, i, start, end);
    HoleIsFree(h, i, start, size);
    ZeroingAccounts(both, Zeroed(both.memory, start, Min(end, hole.end)), start, end);
  }

  lemma ZeroingAccounts(h: Heap, memory: seq<Byte>, start: nat, end: nat)
    requires Accounts(h, start, end)
    ensures Accounts(h.(memory := memory), start, end)
  {
    var g := h.(memory := memory);
    forall a ensures Owners(g, a) + OneIf(start <= a < end) == OneIf(g.first <= a < g.brk) {
      assert Owners(h, a) + OneIf(start <= a < end) == OneIf(h.first <= a < h.brk);
    }
  }

  lemma CarveGranted(h: Heap, i: nat, start: nat, size: nat)
    requires Inv(h) && i < |h.holes| && size > 0 && Holds(h, i, start, start + size)
    requires start + size <= h.holes[i].end || start + size <= h.limit
    requires h.first <= h.holes[i].start && h.holes[i].end <= h.brk
    ensures Carve(h, i, start, size).1 == start && Allocates(h, Carve(h, i, start, size).0, start, size)
  {
    hide WithoutMiddle, Allocates, Coalesced, CleanAreZero;
    var end := start + size;
    var moved := Grown(h, h.holes[i].end, end);
    var both := WithoutMiddle(moved, i, start, end);
    OneOwnerEach(h, i);
    SplitHole(moved, i, start, end);
    CarveAccounts(h, moved, both, i, start, end);
    CarveZeroes(h, both, i, start, size);
  }

  /** carve: the two remainders become holes again, the range itself has no owner yet, and
      it is zero even when the hole was dirty or reached past the break. */
  lemma CarveAllocates(h: Heap, i: nat, start: nat, size: nat)
    requires Inv(h) && i < |h.holes| && size > 0 && Holds(h, i, start, start + size)
    ensures var (g, r) := Carve(h, i, start, size);
      && 0 < start
      && (r == 0 <==> start + size > h.holes[i].end && start + size > h.limit)
      && (r == 0 ==> g == h)
      && (r != 0 ==> r == start && Allocates(h, g, start, size))
  {
    RangeBounds(h, h.holes, i, 0, 0);
    if start + size <= h.holes[i].end || start + size <= h.limit {
      CarveGranted(h, i, start, size);
    }
  }

  lemma CarveAccounts(h: Heap, moved: Heap, both: Heap, i: nat, start: nat, end: nat)
    requires Accounts(h, 0, 0) && i < |h.holes| && start < h.holes[i].end <= h.brk && h.first <= start < end
    requires moved == Grown(h, h.holes[i].end, end)
    requires end > h.holes[i].end ==> h.holes[i].end == h.brk
    requires both.first == h.first && both.brk == moved.brk
    requires forall a :: Owners(both, a) + OneIf(start <= a < end && a < h.holes[i].end) == Owners(moved, a)
    ensures Accounts(both, start, end)
  {
    forall a ensures Owners(both, a) + OneIf(start <= a < end) == OneIf(both.first <= a < both.brk) {
      assert Owners(moved, a) == Owners(h, a);
      OneOwner(h, a);
    }
  }

  lemma ZeroingSound(h: Heap, start: nat, end: nat)
    requires Sound(h)
    ensures Sound(h.(memory := Zeroed(h.memory, start, end)))
  {
    var m := Zeroed(h.memory, start, end);
    forall k, a | 0 <= k < |h.holes| && !h.holes[k].dirty && Contains(h.holes[k], a) && a < |m| ensures m[a] == 0 {
      assert h.memory[a] == 0;
    }
  }

  lemma HolesBelowBreak(h: Heap, start: nat, end: nat)
    requires Inv(h) && h.brk <= start < end
    ensures FirstHolding(h, start, end, 0) == |h.holes|
  {
    var i := FirstHolding(h, start, end, 0);
    if i < |h.holes| {
      RangeBounds(h, h.holes, i, 0, 0);
    }
  }

  /** A free range lies in one hole, in one hole that grows with the break, or above the
      break: it never straddles two holes, since the holes are fully coalesced. */
  lemma FreeIsHeld(h: Heap, x: nat, size: nat)
    requires Inv(h) && size > 0 && Free(h, x, size) && x < h.brk
    ensures exists i :: 0 <= i < |h.holes| && Contains(h.holes[i], x) && Holds(h, i, x, x + size)
  {
    assert Covers(h.holes, x);
    var i :| 0 <= i < |h.holes| && Contains(h.holes[i], x);
    RangeBounds(h, h.holes, i, 0, 0);
    EndIsNotCovered(h.holes, i);
    var e := h.holes[i].end;
    assert x <= e < x + size ==> h.brk <= e || Covers(h.holes, e);
  }

  lemma EndIsNotCovered(holes: seq<Range>, i: nat)
    requires Coalesced(holes) && i < |holes|
    ensures !Covers(holes, holes[i].end)
  {
    forall j | 0 <= j < |holes| ensures !Contains(holes[j], holes[i].end) {
      assert j < i ==> holes[j].end < holes[i].start;
      assert i < j ==> holes[i].end < holes[j].start;
    }
  }

  /** allocateExactly answers start when, and only when, [start, start + size) is free and
      the host grants the break it needs; otherwise it answers 0 and changes nothing. */
  lemma AllocateExactlyMeets(h: Heap, start: nat, size: nat)
    requires Inv(h) && size > 0
    ensures var (g, r) := AllocateExactly(h, start, size);
      && (r != 0 <==> Free(h, start, size) && (start + size <= h.brk || start + size <= h.limit))
      && (r == 0 ==> g == h)
      && (r != 0 ==> r == start && Allocates(h, g, start, size))
  {
    hide Carve, Allocates, PutHole, Accounts, Covers;
    var end := start + size;
    var i := FirstHolding(h, start, end, 0);
    if i < |h.holes| {
      RangeBounds(h, h.holes, i, 0, 0);
      CarveAllocates(h, i, start, size);
      HoleIsFree(h, i, start, size);
    } else if start < h.brk {
      if Free(h, start, size) {
        FreeIsHeld(h, start, size);
        assert false;
      }
    } else if end <= h.max && end <= h.limit {
      ExtendAllocates(h, start, size);
    }
  }

  lemma ExtendAllocates(h: Heap, start: nat, size: nat)
    requires Inv(h) && size > 0 && h.brk <= start && start + size <= h.limit
    ensures Allocates(h, PutHole(h.(brk := start + size), h.brk, start, false), start, size)
  {
    var moved := h.(brk := start + size);
    MoveBreakSound(h, start + size);
    forall a | h.brk <= a ensures !Covers(h.holes, a) {
      OneOwner(h, a);
      assert Count(h.holes, a) == 0;
    }
    PutHoleSound(moved, h.brk, start, false);
    var g := PutHole(moved, h.brk, start, false);
    forall a ensures Owners(g, a) + OneIf(start <= a < start + size) == OneIf(g.first <= a < g.brk) {
      assert Owners(moved, a) == Owners(h, a);
      OneOwner(h, a);
    }
  }

  /** Where allocateAbove looks in a hole is the lowest place of that hole. */
  lemma CandidateIsLowest(h: Heap, i: nat, x: nat, low: nat, high: nat, size: nat)
    requires i < |h.holes| && size > 0 && x % PAGE == 0 && low <= x && x + size <= high
    requires Contains(h.holes[i], x) && Holds(h, i, x, x + size)
    ensures Suits(h, i, low, high, size) && Candidate(h, i, low) <= x
  {}

  /** The lowest fit: a non-zero answer is a free start between the bounds, on a page or at the
      lower bound itself, and no start on a page that fits is lower; the answer is 0 only when none
      fits, or when the host refuses the break that the lowest one needs. */
  lemma AllocateAboveIsLowestFit(h: Heap, low: nat, high: nat, size: nat)
    requires Inv(h) && size > 0
    ensures var (g, r) := AllocateAbove(h, low, high, size);
      && (r == 0 ==> g == h)
      && (r != 0 ==> Allocates(h, g, r, size) && low <= r && r + size <= high && (r % PAGE == 0 || r == low))
      && (r != 0 && low % PAGE == 0 ==> Fits(h, r, low, high, size))
      && (r != 0 ==> forall x :: Fits(h, x, low, high, size) ==> r <= x)
      && (r == 0 && h.limit == h.max ==> forall x :: !Fits(h, x, low, high, size))
  {
    var (g, r) := AllocateAbove(h, low, high, size);
    var i := FirstSuiting(h, low, high, size, 0);
    if i < |h.holes| {
      CarveAllocates(h, i, Candidate(h, i, low), size);
      RangeBounds(h, h.holes, i, 0, 0);
    } else {
      var start := Max(AlignUp(h.brk), low);
      if start + size <= high {
        HolesBelowBreak(h, start, start + size);
        AllocateExactlyMeets(h, start, size);
      }
    }
    forall x: nat | Fits(h, x, low, high, size)
      ensures r != 0 ==> r <= x
      ensures r == 0 ==> h.limit < h.max
    {
      NothingLower(h, x, low, high, size);
    }
  }

  /** Every place that fits is at or above the one that allocateAbove tries. */
  lemma NothingLower(h: Heap, x: nat, low: nat, high: nat, size: nat)
    requires Inv(h) && size > 0 && Fits(h, x, low, high, size)
    ensures var i := FirstSuiting(h, low, high, size, 0);
      if i < |h.holes| then Candidate(h, i, low) <= x
      else h.brk <= x && Max(AlignUp(h.brk), low) <= x
  {
    var i := FirstSuiting(h, low, high, size, 0);
    if x < h.brk {
      FreeIsHeld(h, x, size);
      var j :| 0 <= j < |h.holes| && Contains(h.holes[j], x) && Holds(h, j, x, x + size);
      CandidateIsLowest(h, j, x, low, high, size);
      assert i <= j;
      assert i < j ==> h.holes[i].end < h.holes[j].start;
      CandidateStays(h, i, low, high, size);
    } else if i < |h.holes| {
      RangeBounds(h, h.holes, i, 0, 0);
      CandidateStays(h, i, low, high, size);
    }
  }

  lemma CandidateStays(h: Heap, i: nat, low: nat, high: nat, size: nat)
    requires i < |h.holes| && size > 0 && Suits(h, i, low, high, size)
    ensures Candidate(h, i, low) < h.holes[i].end
  {}
}
