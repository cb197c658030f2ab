module AllocatorRuns {
  // Whole runs of the allocator: requests and frees, malloc, stores, and what the host grants.

  import opened Basics
  import opened RangeLists
  import opened AllocatorModel
  import opened AllocatorProofs

  datatype Event =
    | Allocate(desiredSize: nat, desiredBase: nat, configured: nat)
    | Free(addr: nat)
    | Malloc(n: nat)
    | Store(addr: nat, value: Byte)
    | Grant(limit: nat)

  /** malloc's sbrk(n): it takes [brk, brk + n) when the host grants it. */
  function MallocBreak(h: Heap, n: nat): Heap {
    if n == 0 || h.brk + n > h.limit then h
    else h.(brk := h.brk + n, malloced := h.malloced + [Range(h.brk, h.brk + n, false)])
  }

  /** The program writes only what it owns: live blocks, malloc's memory, and allocated
      ranges that a full table does not record. */
  ghost predicate MayStore(h: Heap, a: nat) {
    a < |h.memory| && (Covers(h.blocks, a) || Covers(h.malloced, a) || Covers(h.lost, a))
  }

  ghost predicate Allowed(s: Space, e: Event) {
    match e
    case Store(a, _) => MayStore(s.heap, a)
    case Grant(limit) => s.heap.brk <= limit <= s.heap.max
    case _ => true
  }

  ghost function Step(s: Space, e: Event): Answer
    requires Allowed(s, e) && |s.heap.memory| == s.heap.max
  {
    match e
    case Allocate(size, base, configured) => SqAllocateMemory(s, size, base, configured)
    case Free(addr) => Answer(s.(heap := SqDeallocate(s.heap, addr)), 0)
    case Malloc(n) => Answer(s.(heap := MallocBreak(s.heap, n)), 0)
    case Store(a, v) => Answer(s.(heap := s.heap.(memory := s.heap.memory[a := v])), 0)
    case Grant(limit) => Answer(s.(heap := s.heap.(limit := limit)), 0)
  }

  /** Recording an allocated range gives it its one owner. */
  lemma RecordKeepsInv(h: Heap, g: Heap, start: nat, size: nat)
    requires Allocates(h, g, start, size) && start != 0 && size > 0 && |h.blocks| <= MAX_RANGES
    ensures Inv(Record(g, start, size))
  {
    var k := Record(g, start, size);
    forall a ensures Owners(k, a) + OneIf(0 <= a < 0) == OneIf(k.first <= a < k.brk) {
      RecordCounts(g, start, size, a);
      assert Owners(g, a) + OneIf(start <= a < start + size) == OneIf(g.first <= a < g.brk);
    }
  }

  lemma RecordCounts(g: Heap, start: nat, size: nat, a: int)
    requires start != 0
    ensures Owners(Record(g, start, size), a) == Owners(g, a) + OneIf(start <= a < start + size)
  {
    var r := Range(start, start + size, false);
    CountConcat(g.blocks, [r], a);
    CountConcat(g.lost, [r], a);
    CountOne(r, a);
  }

  /** A finished request: the heap of the answer keeps the invariant, a range was given out
      exactly when the answer is not 0, it was free, it is zero, and nothing else was written. */
  ghost predicate Served(s: Space, r: Answer, size: nat) {
    && r.Answer?
    && Inv(r.space.heap)
    && (r.start == 0 ==> r.space.heap == s.heap)
    && (r.start != 0 ==>
          && AllocatorModel.Free(s.heap, r.start, size)
          && r.space.heap.brk == Max(s.heap.brk, r.start + size)
          && IsZero(r.space.heap.memory, r.start, r.start + size)
          && |r.space.heap.memory| == |s.heap.memory|
          && (forall a :: 0 <= a < |s.heap.memory| && !(r.start <= a < r.start + size) ==>
                r.space.heap.memory[a] == s.heap.memory[a])
          && r.space.heap.malloced == s.heap.malloced
          && (|s.heap.blocks| < MAX_RANGES ==>
                r.space.heap.blocks == s.heap.blocks + [Range(r.start, r.start + size, false)])
          && (|s.heap.blocks| < MAX_RANGES && |s.heap.holes| < MAX_RANGES ==> r.space.heap.lost == s.heap.lost))
  }

  lemma FinishServes(s: Space, t: Space, r: (Heap, nat), size: nat)
    requires Inv(s.heap) && size > 0
    requires r.1 == 0 ==> r.0 == s.heap
    requires r.1 != 0 ==> Allocates(s.heap, r.0, r.1, size)
    ensures Served(s, Finish(t, r, size), size)
  {
    if r.1 != 0 {
      RecordKeepsInv(s.heap, r.0, r.1, size);
    }
  }

  /** Where the answer may lie, by the kind of request: old objects between the base and its double, the
      first of them at the base; a fixed address there or nowhere; permanent objects nowhere. */
  ghost predicate Placed(s: Space, r: Answer, base: nat, size: nat) {
    && r.Answer?
    && (r.start != 0 && base == OLD_SPACE_HINT ==> r.start == r.space.oldSpaceBase)
    && (r.start != 0 && (base == OLD_SPACE_HINT || (s.oldSpaceBase != 0 && base >= s.oldSpaceBase)) ==>
          r.space.oldSpaceBase <= r.start && r.start + size <= 2 * r.space.oldSpaceBase)
    && (r.start != 0 && base < OLD_SPACE_HINT && s.oldSpaceBase != 0 && base >= s.oldSpaceBase ==>
          base <= r.start && r.start % PAGE == 0)
    && (r.start != 0 && 0 < base < OLD_SPACE_HINT && !(s.oldSpaceBase != 0 && base >= s.oldSpaceBase) ==>
          r.start == base)
    && r.space.fixedSpaceEnd == (
         if r.start != 0 && base != 0 && base != OLD_SPACE_HINT && !(s.oldSpaceBase != 0 && base >= s.oldSpaceBase)
         then Max(s.fixedSpaceEnd, base + size) else s.fixedSpaceEnd)
    && (base >= PERM_SPACE_HINT ==> r.start == 0)
    && Based(s, r)
  }

  /** What the caller gets for its desired size: whole pages, no more than it needs, of which all that it
      asked for was free and is zero, recorded as they are. */
  ghost predicate Sized(s: Space, r: Answer, desiredSize: nat)
    requires r.Answer?
  {
    r.start != 0 ==>
      && AllocatorModel.Free(s.heap, r.start, desiredSize)
      && r.start + desiredSize <= |r.space.heap.memory|
      && IsZero(r.space.heap.memory, r.start, r.start + desiredSize)
      && (|s.heap.blocks| < MAX_RANGES ==> exists end: nat ::
            && r.space.heap.blocks == s.heap.blocks + [Range(r.start, end, false)]
            && (end - r.start) % PAGE == 0
            && r.start + Max(desiredSize, 1) <= end < r.start + Max(desiredSize, 1) + PAGE)
  }

  lemma ServedIsSized(s: Space, r: Answer, desiredSize: nat)
    requires Served(s, r, RequestSize(desiredSize))
    ensures Sized(s, r, desiredSize)
  {
    hide RequestSize;
    var end := r.start + RequestSize(desiredSize);
    if r.start != 0 && |s.heap.blocks| < MAX_RANGES {
      assert r.space.heap.blocks == s.heap.blocks + [Range(r.start, end, false)];
      assert end - r.start == RequestSize(desiredSize);
    }
  }

  /** The base of old space, once it is set: a power of two above all that was placed at fixed addresses,
      whose window up to its double the memory can reach. */
  ghost predicate Based(s: Space, r: Answer)
    requires r.Answer?
  {
    if s.oldSpaceBase != 0 then r.space.oldSpaceBase == s.oldSpaceBase
    else r.space.oldSpaceBase != 0 ==>
      && (exists k: nat :: r.space.oldSpaceBase == Pow2(k))
      && s.fixedSpaceEnd < r.space.oldSpaceBase && 2 * r.space.oldSpaceBase <= s.heap.max
  }

  lemma {:induction false} PowersOfTwo(n: nat)
    ensures IsPowerOfTwo(n) <==> exists k: nat :: n == Pow2(k)
  {
    if IsPowerOfTwo(n) {
      HalvesToOne(n);
    } else if k: nat :| n == Pow2(k) {
      PowersHalve(k);
    }
  }

  lemma {:induction false} HalvesToOne(n: nat)
    requires IsPowerOfTwo(n)
    ensures exists k: nat :: n == Pow2(k)
  {
    if n == 1 {
      assert n == Pow2(0);
    } else {
      HalvesToOne(n / 2);
      var k: nat :| n / 2 == Pow2(k);
      assert n == Pow2(k + 1);
    }
  }

  lemma {:induction false} PowersHalve(k: nat)
    ensures IsPowerOfTwo(Pow2(k))
  {
    if k > 0 {
      PowersHalve(k - 1);
    }
  }

  /** A range is free, and the host grants the part of it that lies past the break. */
  ghost predicate Obtainable(h: Heap, start: nat, size: nat) {
    AllocatorModel.Free(h, start, size) && (start + size <= h.brk || start + size <= h.limit)
  }

  /** Which requests succeed. One for a given place does exactly when the place is to be had; one that may
      go anywhere in a window, when the host grants whatever the heap may reach, exactly when something in
      the window fits. */
  ghost predicate Granted(s: Space, r: Answer, base: nat, size: nat)
    requires r.Answer?
  {
    var more, open := s.oldSpaceBase != 0 && base >= s.oldSpaceBase, s.heap.limit == s.heap.max;
    && (base == OLD_SPACE_HINT ==>
          (r.start != 0 <==> size <= r.space.oldSpaceBase && Obtainable(s.heap, r.space.oldSpaceBase, size)))
    && (0 < base < PERM_SPACE_HINT && base != OLD_SPACE_HINT && !more ==>
          (r.start != 0 <==> Obtainable(s.heap, base, size)))
    && (base < PERM_SPACE_HINT && base != OLD_SPACE_HINT && more && open ==>
          (r.start != 0 <==> exists x :: Fits(s.heap, x, base, 2 * s.oldSpaceBase, size)))
    && (base == 0 && open ==> (r.start != 0 <==> exists x :: Fits(s.heap, x, 0, s.heap.max, size)))
  }

  lemma AboveIsGranted(h: Heap, low: nat, high: nat, size: nat)
    requires Inv(h) && size > 0 && low % PAGE == 0 && h.limit == h.max
    ensures AllocateAbove(h, low, high, size).1 != 0 <==> exists x :: Fits(h, x, low, high, size)
  {
    hide Inv, AllocateAbove, Allocates, Fits;
    AllocateAboveIsLowestFit(h, low, high, size);
  }

  lemma RequestsAreGranted(s: Space, desiredSize: nat, desiredBase: nat, configured: nat)
    requires Inv(s.heap) && SqAllocateMemory(s, desiredSize, desiredBase, configured).Answer?
    ensures Granted(s, SqAllocateMemory(s, desiredSize, desiredBase, configured), AlignUp(desiredBase),
                    RequestSize(desiredSize))
  {
    hide Inv, AllocateAbove, AllocateExactly, Allocates, Fits, GoodBase;
    hide AllocatorModel.Free;
    var size, base := RequestSize(desiredSize), AlignUp(desiredBase);
    var first := if s.oldSpaceBase == 0 then configured else s.oldSpaceBase;
    AllocateExactlyMeets(s.heap, if base == OLD_SPACE_HINT then first else base, size);
    if s.heap.limit == s.heap.max {
      AboveIsGranted(s.heap, base, 2 * s.oldSpaceBase, size);
      AboveIsGranted(s.heap, 0, s.heap.max, size);
    }
  }

  /** sqAllocateMemory, every branch. It exits only over a bad configured base. */
  lemma SqAllocateMemoryMeets(s: Space, desiredSize: nat, desiredBase: nat, configured: nat)
    requires Inv(s.heap)
    ensures var r := SqAllocateMemory(s, desiredSize, desiredBase, configured);
      var size := RequestSize(desiredSize);
      var base := AlignUp(desiredBase);
      && (r.Exited? <==>
            base == OLD_SPACE_HINT && s.oldSpaceBase == 0 &&
            !((exists k: nat :: configured == Pow2(k)) && s.fixedSpaceEnd < configured && 2 * configured <= s.heap.max))
      && (r.Answer? ==>
            Served(s, r, size) && Sized(s, r, desiredSize) && Placed(s, r, base, size) && Granted(s, r, base, size))
  {
    hide Granted, Served, Sized, Finish, AllocateExactly, AllocateAbove, Inv, Allocates, IsPowerOfTwo, AlignUp,
      RequestSize;
    var size := RequestSize(desiredSize);
    var base := AlignUp(desiredBase);
    assert size > 0;
    if SqAllocateMemory(s, desiredSize, desiredBase, configured).Answer? {
      RequestsAreGranted(s, desiredSize, desiredBase, configured);
    }
    PowersOfTwo(configured);
    if Served(s, SqAllocateMemory(s, desiredSize, desiredBase, configured), size) {
      ServedIsSized(s, SqAllocateMemory(s, desiredSize, desiredBase, configured), desiredSize);
    }
    if base == OLD_SPACE_HINT {
      if s.oldSpaceBase != 0 || GoodBase(s, configured) {
        var t := if s.oldSpaceBase == 0 then s.(oldSpaceBase := configured) else s;
        if size <= t.oldSpaceBase {
          ExactServes(s, t, t.oldSpaceBase, size);
        } else {
          FinishServes(s, t, (t.heap, 0), size);
          FinishKeeps(t, (t.heap, 0), size);
        }
      }
    } else if base >= PERM_SPACE_HINT {
      NothingServes(s, size);
    } else if s.oldSpaceBase != 0 && base >= s.oldSpaceBase {
      AboveServes(s, base, 2 * s.oldSpaceBase, size);
    } else if base != 0 {
      var a := AllocateExactly(s.heap, base, size);
      ExactServes(s, if a.1 != 0 then s.(fixedSpaceEnd := Max(s.fixedSpaceEnd, a.1 + size)) else s, base, size);
    } else {
      AboveServes(s, 0, s.heap.max, size);
    }
  }

  lemma FinishKeeps(t: Space, r: (Heap, nat), size: nat)
    ensures var a := Finish(t, r, size);
      a.Answer? && a.start == r.1 && a.space.oldSpaceBase == t.oldSpaceBase && a.space.fixedSpaceEnd == t.fixedSpaceEnd
  {}

  lemma NothingServes(s: Space, size: nat)
    requires Inv(s.heap)
    ensures Served(s, Answer(s, 0), size)
  {}

  lemma ExactServes(s: Space, t: Space, base: nat, size: nat)
    requires Inv(s.heap) && size > 0 && t.heap == s.heap
    ensures var r := Finish(t, AllocateExactly(t.heap, base, size), size);
      && Served(s, r, size) && r.Answer? && (r.start == 0 || r.start == base) &&
         r.start == AllocateExactly(t.heap, base, size).1
      && r.space.oldSpaceBase == t.oldSpaceBase && r.space.fixedSpaceEnd == t.fixedSpaceEnd
  {
    hide Served, AllocateExactly, Record, Allocates, Inv;
    AllocateExactlyMeets(s.heap, base, size);
    FinishServes(s, t, AllocateExactly(t.heap, base, size), size);
  }

  lemma AboveServes(s: Space, low: nat, high: nat, size: nat)
    requires Inv(s.heap) && size > 0 && low % PAGE == 0
    ensures var r := Finish(s, AllocateAbove(s.heap, low, high, size), size);
      && Served(s, r, size) && r.Answer?
      && (r.start != 0 ==> low <= r.start && r.start % PAGE == 0 && r.start + size <= high)
      && r.space.oldSpaceBase == s.oldSpaceBase && r.space.fixedSpaceEnd == s.fixedSpaceEnd
  {
    hide Served, AllocateAbove, Record, Allocates, Inv;
    AllocateAboveIsLowestFit(s.heap, low, high, size);
    FinishServes(s, s, AllocateAbove(s.heap, low, high, size), size);
  }

  // ---- freeing

  lemma CountReplaceByLast(rs: seq<Range>, i: nat, a: int)
    requires i < |rs|
    ensures Count(rs[i := rs[|rs| - 1]][..|rs| - 1], a) + OneIf(Contains(rs[i], a)) == Count(rs, a)
  {
    var n := |rs| - 1;
    var last := rs[n];
    assert rs == rs[..n] + [last];
    CountConcat(rs[..n], [last], a);
    CountOne(last, a);
    if i < n {
      CountSplit(rs[..n], i, a);
      var x := rs[i := last][..n];
      CountSplit(x, i, a);
      assert x[..i] == rs[..n][..i] && x[i + 1..] == rs[..n][i + 1..];
    } else {
      assert rs[i := last][..n] == rs[..n];
    }
  }

  lemma BlockIsNotHole(h: Heap, i: nat)
    requires Accounts(h, 0, 0) && i < |h.blocks|
    ensures forall a :: Contains(h.blocks[i], a) ==> !Covers(h.holes, a)
  {
    forall a | Contains(h.blocks[i], a) ensures !Covers(h.holes, a) {
      assert Covers(h.blocks, a);
      OneOwner(h, a);
    }
  }

  /** A block put among the holes keeps the invariant. */
  lemma FreedKeepsInv(h: Heap, i: nat)
    requires Inv(h) && i < |h.blocks|
    ensures var b := h.blocks[i];
      var put := PutHole(h, b.start, b.end, true);
      && Inv(put.(blocks := h.blocks[i := h.blocks[|h.blocks| - 1]][..|h.blocks| - 1]))
      && (|h.holes| < MAX_RANGES ==> put.lost == h.lost)
      && (|h.holes| < MAX_RANGES ==> forall a :: Covers(put.holes, a) <==> Covers(h.holes, a) || Contains(b, a))
      && put == h.(holes := put.holes, lost := put.lost)
  {
    hide PutHole, Coalesced, CleanAreZero;
    var b := h.blocks[i];
    BlockIsNotHole(h, i);
    PutHoleSound(h, b.start, b.end, true);
    var put := PutHole(h, b.start, b.end, true);
    var g := put.(blocks := h.blocks[i := h.blocks[|h.blocks| - 1]][..|h.blocks| - 1]);
    forall a ensures Owners(g, a) + OneIf(0 <= a < 0) == OneIf(g.first <= a < g.brk) {
      CountReplaceByLast(h.blocks, i, a);
      assert Owners(put, a) == Owners(h, a) + OneIf(b.start <= a < b.end);
      OneOwner(h, a);
    }
    if |h.holes| < MAX_RANGES {
      forall a ensures Covers(put.holes, a) <==> Covers(h.holes, a) || Contains(b, a) {
        assert Count(put.holes, a) == Count(h.holes, a) + OneIf(b.start <= a < b.end);
      }
    }
  }

  /** Freeing a recorded segment turns exactly its range into a (dirty) hole. */
  lemma SqDeallocateKeepsInv(h: Heap, addr: nat)
    requires Inv(h)
    ensures var g := SqDeallocate(h, addr);
      && (forall b :: b in g.blocks <==> b in h.blocks && b.start != addr)
      && Inv(g) && g.memory == h.memory && g.brk == h.brk && g.malloced == h.malloced && g.first == h.first
      && g.limit == h.limit && g.max == h.max
      && (|h.holes| < MAX_RANGES ==> g.lost == h.lost)
      && (forall i :: 0 <= i < |h.blocks| && h.blocks[i].start == addr && |h.holes| < MAX_RANGES ==>
            forall a :: Covers(g.holes, a) <==> Covers(h.holes, a) || Contains(h.blocks[i], a))
      && ((forall i :: 0 <= i < |h.blocks| ==> h.blocks[i].start != addr) ==> g == h)
  {
    hide Inv, PutHole, Covers, Contains;
    var i := FindBlock(h.blocks, addr, 0);
    if i < |h.blocks| {
      FreedKeepsInv(h, i);
      forall j | 0 <= j < |h.blocks| && h.blocks[j].start == addr ensures j == i {
        if j != i {
          BlocksAreDisjoint(h, i, j);
          BlockIsNotEmpty(h, i);
          BlockIsNotEmpty(h, j);
        }
      }
      ReplaceByLastHas(h.blocks, i);
    }
  }

  lemma ReplaceByLastHas(rs: seq<Range>, i: nat)
    requires i < |rs| && forall j :: 0 <= j < |rs| && rs[j].start == rs[i].start ==> j == i
    ensures forall b :: b in rs[i := rs[|rs| - 1]][..|rs| - 1] <==> b in rs && b.start != rs[i].start
  {
    var n := |rs| - 1;
    var rest := rs[i := rs[n]][..n];
    forall b | b in rs && b.start != rs[i].start ensures b in rest {
      var j :| 0 <= j < |rs| && rs[j] == b;
      assert rest[if j == n then i else j] == b;
    }
    forall b | b in rest ensures b in rs && b.start != rs[i].start {
      var j :| 0 <= j < n && rest[j] == b;
      assert rs[if j == i then n else j] == b;
    }
  }

  lemma BlockIsNotEmpty(h: Heap, i: nat)
    requires Inv(h) && i < |h.blocks|
    ensures h.blocks[i].start < h.blocks[i].end
  {}

  lemma {:induction false} CountTwo(rs: seq<Range>, i: nat, j: nat, a: int)
    requires i < j < |rs| && Contains(rs[i], a) && Contains(rs[j], a)
    ensures Count(rs, a) >= 2
  {
    CountSplit(rs, i, a);
    assert rs[i + 1..][j - i - 1] == rs[j];
    assert Covers(rs[i + 1..], a);
  }

  /** Live blocks never overlap. */
  lemma BlocksAreDisjoint(h: Heap, i: nat, j: nat)
    requires Inv(h) && i < |h.blocks| && j < |h.blocks| && i != j
    ensures h.blocks[i].end <= h.blocks[j].start || h.blocks[j].end <= h.blocks[i].start
  {
    var a := Max(h.blocks[i].start, h.blocks[j].start);
    if Contains(h.blocks[i], a) && Contains(h.blocks[j], a) {
      CountTwo(h.blocks, if i < j then i else j, if i < j then j else i, a);
      OneOwner(h, a);
    }
  }

  // ---- runs

  lemma MallocBreakKeepsInv(h: Heap, n: nat)
    requires Inv(h)
    ensures Inv(MallocBreak(h, n))
  {
    if n != 0 && h.brk + n <= h.limit {
      var g := MallocBreak(h, n);
      var r := Range(h.brk, h.brk + n, false);
      forall a ensures Owners(g, a) + OneIf(0 <= a < 0) == OneIf(g.first <= a < g.brk) {
        CountConcat(h.malloced, [r], a);
        CountOne(r, a);
        OneOwner(h, a);
      }
    }
  }

  lemma StoreKeepsInv(h: Heap, a: nat, v: Byte)
    requires Inv(h) && MayStore(h, a)
    ensures Inv(h.(memory := h.memory[a := v]))
  {
    var g := h.(memory := h.memory[a := v]);
    OneOwner(h, a);
    assert Count(h.holes, a) == 0;
    forall i, b | 0 <= i < |g.holes| && !g.holes[i].dirty && Contains(g.holes[i], b) && b < |g.memory|
      ensures g.memory[b] == 0
    {
      assert b == a ==> Covers(g.holes, a);
    }
    forall b ensures Owners(g, b) + OneIf(0 <= b < 0) == OneIf(g.first <= b < g.brk) {
      OneOwner(h, b);
    }
  }

  lemma GrantKeepsInv(h: Heap, limit: nat)
    requires Inv(h) && h.brk <= limit <= h.max
    ensures Inv(h.(limit := limit))
  {
    var g := h.(limit := limit);
    forall b ensures Owners(g, b) + OneIf(0 <= b < 0) == OneIf(g.first <= b < g.brk) {
      OneOwner(h, b);
    }
  }

  /** Every event keeps the accounting, the sorted and coalesced holes and the zeros. */
  lemma StepKeepsInv(s: Space, e: Event)
    requires Inv(s.heap) && Allowed(s, e)
    ensures Step(s, e).Answer? ==> Inv(Step(s, e).space.heap)
  {
    hide SqAllocateMemory, SqDeallocate, MallocBreak, Placed, Granted;
    match e
    case Allocate(size, base, configured) => SqAllocateMemoryMeets(s, size, base, configured);
    case Free(addr) => SqDeallocateKeepsInv(s.heap, addr);
    case Malloc(n) => MallocBreakKeepsInv(s.heap, n);
    case Store(a, v) => StoreKeepsInv(s.heap, a, v);
    case Grant(limit) => GrantKeepsInv(s.heap, limit);
  }

  /** The VM starts with empty tables, the break above 0 and zero memory above it. */
  ghost predicate Initial(s: Space) {
    && s.heap.holes == [] && s.heap.blocks == [] && s.heap.malloced == [] && s.heap.lost == []
    && 0 < s.heap.first == s.heap.brk <= s.heap.limit <= s.heap.max == |s.heap.memory|
    && IsZero(s.heap.memory, s.heap.brk, s.heap.max)
    && s.oldSpaceBase == 0 && s.fixedSpaceEnd == 0
  }

  /** spaces is a run: each space is what an allowed event makes of the one before. */
  ghost predicate IsRun(spaces: seq<Space>, events: seq<Event>) {
    && |spaces| == |events| + 1
    && Initial(spaces[0])
    && forall i :: 0 <= i < |events| ==>
         && |spaces[i].heap.memory| == spaces[i].heap.max
         && Allowed(spaces[i], events[i])
         && Step(spaces[i], events[i]).Answer?
         && spaces[i + 1] == Step(spaces[i], events[i]).space
  }

  /** In every reachable state each address from the first break to the current one has
      exactly one owner, the holes are sorted and coalesced, and clean holes are zero. */
  lemma {:induction false} RunKeepsInv(spaces: seq<Space>, events: seq<Event>)
    requires IsRun(spaces, events)
    ensures Inv(spaces[|events|].heap)
    decreases |events|
  {
    var n := |events|;
    if n == 0 {
      var h := spaces[0].heap;
      forall a ensures Owners(h, a) + OneIf(0 <= a < 0) == OneIf(h.first <= a < h.brk) {
        assert !Covers(h.holes, a) && !Covers(h.blocks, a) && !Covers(h.malloced, a) && !Covers(h.lost, a);
      }
    } else {
      RunKeepsInv(spaces[..n], events[..n - 1]);
      StepKeepsInv(spaces[n - 1], events[n - 1]);
    }
  }

  /** No step loses a range while both tables have room. */
  lemma StepLosesNothing(s: Space, e: Event)
    requires Inv(s.heap) && Allowed(s, e)
    requires |s.heap.holes| < MAX_RANGES && |s.heap.blocks| < MAX_RANGES
    ensures Step(s, e).Answer? ==> Step(s, e).space.heap.lost == s.heap.lost
  {
    hide SqAllocateMemory, SqDeallocate, Placed, Granted;
    match e
    case Allocate(size, base, configured) => SqAllocateMemoryMeets(s, size, base, configured);
    case Free(addr) => SqDeallocateKeepsInv(s.heap, addr);
    case _ =>
  }

  /** While the tables never fill up, live blocks, holes and malloc's ranges alone cover
      everything from the first break to the current one, each address exactly once. */
  lemma {:induction false} RunLosesNothing(spaces: seq<Space>, events: seq<Event>)
    requires IsRun(spaces, events)
    requires forall i :: 0 <= i < |events| ==>
      |spaces[i].heap.holes| < MAX_RANGES && |spaces[i].heap.blocks| < MAX_RANGES
    ensures var h := spaces[|events|].heap;
      && h.lost == []
      && forall a :: Count(h.holes, a) + Count(h.blocks, a) + Count(h.malloced, a) == OneIf(h.first <= a < h.brk)
    decreases |events|
  {
    hide Inv, Allowed, Step, Owners, Count;
    var n := |events|;
    if n > 0 {
      assert IsRun(spaces[..n], events[..n - 1]);
      RunLosesNothing(spaces[..n], events[..n - 1]);
      RunKeepsInv(spaces[..n], events[..n - 1]);
      StepLosesNothing(spaces[n - 1], events[n - 1]);
    }
    RunKeepsInv(spaces, events);
    NoneLost(spaces[n].heap);
  }

  lemma NoneLost(h: Heap)
    requires Inv(h) && h.lost == []
    ensures forall a :: Count(h.holes, a) + Count(h.blocks, a) + Count(h.malloced, a) == OneIf(h.first <= a < h.brk)
  {
    forall a ensures Count(h.holes, a) + Count(h.blocks, a) + Count(h.malloced, a) == OneIf(h.first <= a < h.brk) {
      OneOwner(h, a);
    }
  }
}
