/** The functions that the heap allocator of the WebAssembly VM computes, on values.
    The host's sbrk grants a new break when it is at most `limit`, which the host may
    change between two calls (a call moves the break at most once). */
module AllocatorModel {
  import opened Basics
  import opened RangeLists

  const PAGE: nat := 65536
  const OLD_SPACE_HINT: nat := 0x100_0000_0000
  const PERM_SPACE_HINT: nat := 0x200_0000_0000

  /** The allocator and the linear memory [0, max). `malloced` holds the ranges that
      malloc took at the break, and `lost` the ranges that no table records because it
      was full. first is the break when the VM started. */
  datatype Heap = Heap(holes: seq<Range>, blocks: seq<Range>, malloced: seq<Range>, lost: seq<Range>,
                       first: nat, brk: nat, limit: nat, max: nat, memory: seq<Byte>)

  function AlignUp(v: nat): (r: nat)
    ensures r % PAGE == 0 && v <= r
    ensures forall x: nat :: x % PAGE == 0 && v <= x ==> r <= x
  {
    (v + PAGE - 1) / PAGE * PAGE
  }


  /** The memory with [start, end) zeroed. */
  function Zeroed(memory: seq<Byte>, start: nat, end: nat): (r: seq<Byte>)
    ensures |r| == |memory|
    ensures forall a :: 0 <= a < |r| ==> r[a] == if start <= a < end then 0 else memory[a]
  {
    seq(|memory|, a requires 0 <= a < |memory| => if start <= a < end then 0 else memory[a])
  }

  function PutHole(h: Heap, start: nat, end: nat, dirty: bool): Heap {
    if start >= end then h
    else if |h.holes| == MAX_RANGES then h.(lost := h.lost + [Range(start, end, dirty)])
    else h.(holes := AddHole(h.holes, start, end, dirty))
  }

  /** The range lies inside hole i, if need be after the hole has grown at the break. */
  predicate Holds(h: Heap, i: nat, start: nat, end: nat)
    requires i < |h.holes|
  {
    && h.holes[i].start <= start
    && (end <= h.holes[i].end || (start < h.holes[i].end && h.holes[i].end == h.brk && end <= h.max))
  }

  /** The break moved as far as a hole beside it must grow to reach end. */
  function Grown(h: Heap, holeEnd: nat, end: nat): Heap {
    if end > holeEnd then h.(brk := h.brk + (end - holeEnd)) else h
  }

  /** Hole i of h without [start, end): what carve leaves in the table. */
  function WithoutMiddle(h: Heap, i: nat, start: nat, end: nat): Heap
    requires i < |h.holes|
  {
    var hole := h.holes[i];
    PutHole(PutHole(h.(holes := RemoveAt(h.holes, i)), hole.start, start, hole.dirty), end, hole.end, hole.dirty)
  }

  function Carve(h: Heap, i: nat, start: nat, size: nat): (Heap, nat)
    requires i < |h.holes|
  {
    var hole := h.holes[i];
    var end := start + size;
    if end > hole.end && h.brk + (end - hole.end) > h.limit then (h, 0)
    else
      var both := WithoutMiddle(Grown(h, hole.end, end), i, start, end);
      (if hole.dirty then both.(memory := Zeroed(both.memory, start, Min(end, hole.end))) else both, start)
  }

  /** The first hole at or after i that holds [start, end), or the number of holes. */
  function FirstHolding(h: Heap, start: nat, end: nat, i: nat): (r: nat)
    requires i <= |h.holes|
    ensures i <= r <= |h.holes|
    ensures forall k :: i <= k < r ==> !Holds(h, k, start, end)
    ensures r < |h.holes| ==> Holds(h, r, start, end)
    decreases |h.holes| - i
  {
    if i == |h.holes| || Holds(h, i, start, end) then i else FirstHolding(h, start, end, i + 1)
  }

  function AllocateExactly(h: Heap, start: nat, size: nat): (Heap, nat) {
    var i := FirstHolding(h, start, start + size, 0);
    if i < |h.holes| then Carve(h, i, start, size)
    else if start < h.brk || start + size > h.max || start + size > h.limit then (h, 0)
    else (PutHole(h.(brk := start + size), h.brk, start, false), start)
  }

  /** Where allocateAbove looks in hole i. */
  function Candidate(h: Heap, i: nat, low: nat): nat
    requires i < |h.holes|
  {
    AlignUp(Max(h.holes[i].start, low))
  }

  predicate Suits(h: Heap, i: nat, low: nat, high: nat, size: nat)
    requires i < |h.holes|
  {
    var start := Candidate(h, i, low);
    start + size <= high && Holds(h, i, start, start + size)
  }

  function FirstSuiting(h: Heap, low: nat, high: nat, size: nat, i: nat): (r: nat)
    requires i <= |h.holes|
    ensures i <= r <= |h.holes|
    ensures forall k :: i <= k < r ==> !Suits(h, k, low, high, size)
    ensures r < |h.holes| ==> Suits(h, r, low, high, size)
    decreases |h.holes| - i
  {
    if i == |h.holes| || Suits(h, i, low, high, size) then i else FirstSuiting(h, low, high, size, i + 1)
  }

  function AllocateAbove(h: Heap, low: nat, high: nat, size: nat): (Heap, nat) {
    var i := FirstSuiting(h, low, high, size, 0);
    if i < |h.holes| then Carve(h, i, Candidate(h, i, low), size)
    else
      var start := Max(AlignUp(h.brk), low);
      if start + size <= high then AllocateExactly(h, start, size) else (h, 0)
  }

  /** The heap, and two addresses that the VM remembers: the base of its old objects, 0 before the first
      request for them, and where the spaces at fixed addresses end. */
  datatype Space = Space(heap: Heap, oldSpaceBase: nat, fixedSpaceEnd: nat)

  predicate IsPowerOfTwo(n: nat) {
    n == 1 || (n > 1 && n % 2 == 0 && IsPowerOfTwo(n / 2))
  }

  /** What computeOldSpaceBase demands of the configured base; it exits otherwise. */
  predicate GoodBase(s: Space, base: nat) {
    IsPowerOfTwo(base) && base > s.fixedSpaceEnd && base <= s.heap.max / 2
  }

  /** The request went through (at 0: it was refused), or the process exited. */
  datatype Answer = Answer(space: Space, start: nat) | Exited

  function Record(h: Heap, start: nat, size: nat): Heap {
    if start == 0 then h
    else if |h.blocks| < MAX_RANGES then h.(blocks := h.blocks + [Range(start, start + size, false)])
    else h.(lost := h.lost + [Range(start, start + size, false)])
  }

  /** Whole pages, no more than needed, and one for an empty request. */
  function RequestSize(desiredSize: nat): (size: nat)
    ensures size % PAGE == 0 && Max(desiredSize, 1) <= size < Max(desiredSize, 1) + PAGE
  {
    AlignUp(if desiredSize == 0 then 1 else desiredSize)
  }

  function Finish(s: Space, r: (Heap, nat), size: nat): Answer {
    Answer(s.(heap := Record(r.0, r.1, size)), r.1)
  }

  function SqAllocateMemory(s: Space, desiredSize: nat, desiredBase: nat, configured: nat): Answer {
    var size := RequestSize(desiredSize);
    var base := AlignUp(desiredBase);
    if base == OLD_SPACE_HINT then
      if s.oldSpaceBase == 0 && !GoodBase(s, configured) then Exited
      else
        var t := if s.oldSpaceBase == 0 then s.(oldSpaceBase := configured) else s;
        Finish(t, if size <= t.oldSpaceBase then AllocateExactly(t.heap, t.oldSpaceBase, size) else (t.heap, 0), size)
    else if base >= PERM_SPACE_HINT then Answer(s, 0)
    else if s.oldSpaceBase != 0 && base >= s.oldSpaceBase then
      Finish(s, AllocateAbove(s.heap, base, 2 * s.oldSpaceBase, size), size)
    else if base != 0 then
      var r := AllocateExactly(s.heap, base, size);
      Finish(if r.1 != 0 then s.(fixedSpaceEnd := Max(s.fixedSpaceEnd, r.1 + size)) else s, r, size)
    else Finish(s, AllocateAbove(s.heap, 0, s.heap.max, size), size)
  }

  /** The index of the recorded block that starts at addr, or the number of blocks. */
  function FindBlock(blocks: seq<Range>, addr: nat, i: nat): (r: nat)
    requires i <= |blocks|
    ensures i <= r <= |blocks|
    ensures forall k :: i <= k < r ==> blocks[k].start != addr
    ensures r < |blocks| ==> blocks[r].start == addr
    decreases |blocks| - i
  {
    if i == |blocks| || blocks[i].start == addr then i else FindBlock(blocks, addr, i + 1)
  }

  function SqDeallocate(h: Heap, addr: nat): Heap {
    var i := FindBlock(h.blocks, addr, 0);
    if i == |h.blocks| then h
    else
      var b := h.blocks[i];
      var n := |h.blocks| - 1;
      PutHole(h, b.start, b.end, true).(blocks := h.blocks[i := h.blocks[n]][..n])
  }

  // ---- the invariant

  /** How many owners the address a has. */
  ghost function Owners(h: Heap, a: int): nat {
    Count(h.holes, a) + Count(h.blocks, a) + Count(h.malloced, a) + Count(h.lost, a)
  }


  /** Every address between the first break and the current one has exactly one owner,
      but those of [low, high), an allocated range not recorded yet, which have none. */
  ghost predicate Accounts(h: Heap, low: int, high: int) {
    forall a :: Owners(h, a) + OneIf(low <= a < high) == OneIf(h.first <= a < h.brk)
  }

  ghost predicate Sound(h: Heap) {
    && 0 < h.first <= h.brk <= h.max == |h.memory|
    && h.brk <= h.limit <= h.max
    && Coalesced(h.holes) && |h.holes| <= MAX_RANGES && |h.blocks| <= MAX_RANGES
    && (forall i :: 0 <= i < |h.blocks| ==> h.blocks[i].start < h.blocks[i].end)
    && CleanAreZero(h.holes, h.memory)
    && (forall a :: h.brk <= a < |h.memory| ==> h.memory[a] == 0)
  }

  ghost predicate Inv(h: Heap) {
    Sound(h) && Accounts(h, 0, 0)
  }

  /** [x, x + size) is page-aligned, free or above the break, and between low and high. */
  ghost predicate Fits(h: Heap, x: nat, low: nat, high: nat, size: nat) {
    x % PAGE == 0 && low <= x && x + size <= high && Free(h, x, size)
  }

  ghost predicate Free(h: Heap, x: nat, size: nat) {
    x + size <= h.max && forall a :: x <= a < x + size ==> h.brk <= a || Covers(h.holes, a)
  }

  ghost predicate IsZero(memory: seq<Byte>, start: nat, end: nat) {
    forall a :: start <= a < end && a < |memory| ==> memory[a] == 0
  }

  /** What every allocation that answers start != 0 does to the heap: the range was free,
      is zero, belongs to nobody else, and no other byte changed. */
  ghost predicate Allocates(h: Heap, g: Heap, start: nat, size: nat) {
    && Sound(g) && Accounts(g, start, start + size)
    && Free(h, start, size)
    && |g.memory| == |h.memory|
    && g.brk == Max(h.brk, start + size)
    && IsZero(g.memory, start, start + size)
    && g.blocks == h.blocks && g.malloced == h.malloced && g.first == h.first && g.max == h.max && g.limit == h.limit
    && (forall a :: 0 <= a < |h.memory| && !(start <= a < start + size) ==> g.memory[a] == h.memory[a])
    && (|h.holes| < MAX_RANGES ==> g.lost == h.lost)
  }
}
