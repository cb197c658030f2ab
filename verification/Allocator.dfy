/** The allocator itself: the statics of memoryEmscripten.c as the fields of one object,
    each function proved against the function of AllocatorModel that it computes. */
module Allocator {
  import opened Basics
  import opened RangeLists
  import opened AllocatorModel
  import opened AllocatorProofs
  import opened AllocatorRuns

  class Memory {
    const holes: array<Range>
    const blocks: array<Range>
    const memory: array<Byte>
    var numHoles: nat
    var numBlocks: nat
    var brk: nat
    var limit: nat
    var oldSpaceBase: nat
    var fixedSpaceEnd: nat
    ghost const first: nat
    ghost var malloced: seq<Range>
    ghost var lost: seq<Range>

    ghost predicate Shaped()
      reads this
    {
      && holes.Length == blocks.Length == MAX_RANGES && holes != blocks
      && numHoles <= MAX_RANGES && numBlocks <= MAX_RANGES
    }

    ghost function Heap(): Heap
      requires Shaped()
      reads this, holes, blocks, memory
    {
      AllocatorModel.Heap(holes[..numHoles], blocks[..numBlocks], malloced, lost, first, brk, limit, memory.Length,
        memory[..])
    }

    ghost function Space(): Space
      requires Shaped()
      reads this, holes, blocks, memory
    {
      AllocatorModel.Space(Heap(), oldSpaceBase, fixedSpaceEnd)
    }

    ghost predicate Valid()
      reads this, holes, blocks, memory
    {
      Shaped() && Inv(Heap())
    }

    constructor (brk: nat, limit: nat, max: nat)
      requires 0 < brk <= limit <= max
      ensures Valid() && Initial(Space())
      ensures fresh(holes) && fresh(blocks) && fresh(memory)
    {
      holes := new Range[MAX_RANGES](_ => Range(0, 0, false));
      blocks := new Range[MAX_RANGES](_ => Range(0, 0, false));
      memory := new Byte[max](_ => 0);
      numHoles, numBlocks, oldSpaceBase, fixedSpaceEnd := 0, 0, 0, 0;
      this.brk, this.limit, this.first := brk, limit, brk;
      malloced, lost := [], [];
      new;
      RunKeepsInv([Space()], []);
    }

    /** sbrk(n): the host moves the break, or refuses. */
    method Sbrk(n: nat) returns (granted: bool)
      requires Shaped()
      modifies `brk
      ensures Shaped()
      ensures granted <==> old(brk) + n <= limit
      ensures brk == if granted then old(brk) + n else old(brk)
    {
      granted := brk + n <= limit;
      if granted {
        brk := brk + n;
      }
    }

    method RemoveHoleAt(i: nat)
      requires Shaped() && i < numHoles
      modifies `numHoles, holes
      ensures Shaped()
      ensures Heap() == old(Heap()).(holes := RemoveAt(old(Heap()).holes, i))
    {
      forall k | i <= k < numHoles - 1 {
        holes[k] := holes[k + 1];
      }
      numHoles := numHoles - 1;
      assert holes[..numHoles] == RemoveAt(old(holes[..numHoles]), i);
    }

    /** Join hole i and the next one, when they touch. */
    method JoinHoles(i: nat)
      requires Shaped() && i < numHoles
      modifies `numHoles, holes
      ensures Shaped()
      ensures Heap() == old(Heap()).(holes := Join(old(Heap()).holes, i))
    {
      if i + 1 < numHoles && holes[i].end == holes[i + 1].start {
        hide RemoveAt;
        ghost var was := holes[..numHoles];
        holes[i] := Range(holes[i].start, holes[i + 1].end, holes[i].dirty || holes[i + 1].dirty);
        assert holes[..numHoles] == was[i := holes[i]];
        RemoveHoleAt(i + 1);
        JoinIsRemove(was, i);
      }
    }

    method InsertHole(i: nat, r: Range)
      requires Shaped() && i <= numHoles < MAX_RANGES
      modifies `numHoles, holes
      ensures Shaped() && numHoles == old(numHoles) + 1
      ensures Heap() == old(Heap()).(holes := InsertAt(old(Heap()).holes, i, r))
    {
      forall k | i <= k < numHoles {
        holes[k + 1] := holes[k];
      }
      holes[i] := r;
      numHoles := numHoles + 1;
      assert holes[..numHoles] == InsertAt(old(holes[..numHoles]), i, r);
    }

    method FindPosition(start: nat) returns (i: nat)
      requires Shaped()
      ensures i == Position(Heap().holes, start)
    {
      ghost var was := holes[..numHoles];
      i := 0;
      while i < numHoles && holes[i].start < start
        invariant i <= numHoles
        invariant forall k :: 0 <= k < i ==> was[k].start < start
      {
        assert was[i] == holes[i];
        i := i + 1;
      }
      assert i < numHoles ==> was[i] == holes[i];
      PositionIs(was, start, i);
    }

    method AddHole(start: nat, end: nat, dirty: bool)
      requires Shaped()
      modifies `numHoles, `lost, holes
      ensures Shaped()
      ensures Heap() == PutHole(old(Heap()), start, end, dirty)
    {
      if start >= end {
        return;
      }
      if numHoles == MAX_RANGES {
        lost := lost + [Range(start, end, dirty)];
        return;
      }
      hide Join, Position, InsertAt;
      ghost var h := Heap();
      var i := FindPosition(start);
      InsertHole(i, Range(start, end, dirty));
      assert Heap() == h.(holes := InsertAt(h.holes, i, Range(start, end, dirty)));
      JoinHoles(i);
      if i > 0 {
        JoinHoles(i - 1);
      }
    }

    method Memset(start: nat, end: nat)
      requires Shaped() && end <= memory.Length
      modifies memory
      ensures memory[..] == Zeroed(old(memory[..]), start, end)
    {
      for a := start to Max(start, end)
        invariant forall b :: 0 <= b < memory.Length ==> memory[b] == if start <= b < a then 0 else old(memory[b])
      {
        memory[a] := 0;
      }
    }

    /** Takes a range that a hole can give; 0 means that the host refused the break. */
    method Carve(i: nat, start: nat, size: nat) returns (r: nat)
      requires Valid() && i < numHoles && size > 0 && Holds(Heap(), i, start, start + size)
      modifies `numHoles, `lost, `brk, holes, memory
      ensures Shaped()
      ensures (Heap(), r) == AllocatorModel.Carve(old(Heap()), i, start, size)
    {
      hide PutHole, RemoveAt;
      var hole, end := holes[i], start + size;
      RangeBounds(Heap(), Heap().holes, i, 0, 0);
      if end > hole.end {
        var granted := Sbrk(end - hole.end);
        if !granted {
          return 0;
        }
      }
      RemoveHoleAt(i);
      AddHole(hole.start, start, hole.dirty);
      AddHole(end, hole.end, hole.dirty);
      if hole.dirty {
        Memset(start, if end < hole.end then end else hole.end);
      }
      return start;
    }

    method HoldsRange(i: nat, start: nat, end: nat) returns (b: bool)
      requires Shaped() && i < numHoles
      ensures b == Holds(Heap(), i, start, end)
    {
      if holes[i].start > start {
        return false;
      }
      if end <= holes[i].end {
        return true;
      }
      return start < holes[i].end && holes[i].end == brk && end <= memory.Length;
    }

    /** The first hole that holds a range; numHoles when none does. */
    method FindHolding(start: nat, end: nat) returns (i: nat)
      requires Shaped()
      ensures i <= numHoles && i == FirstHolding(Heap(), start, end, 0)
      ensures i < numHoles ==> Holds(Heap(), i, start, end)
    {
      hide Holds;
      i := 0;
      while i < numHoles
        invariant i <= numHoles
        invariant FirstHolding(Heap(), start, end, 0) == FirstHolding(Heap(), start, end, i)
      {
        var held := HoldsRange(i, start, end);
        if held {
          break;
        }
        i := i + 1;
      }
    }

    /** The first hole that suits a request, and the place in it; numHoles when none does. */
    method FindSuiting(low: nat, high: nat, size: nat) returns (i: nat, start: nat)
      requires Shaped()
      ensures i <= numHoles && i == FirstSuiting(Heap(), low, high, size, 0)
      ensures i < numHoles ==> start == AlignUp(Max(holes[i].start, low)) && Holds(Heap(), i, start, start + size)
    {
      hide Holds, AlignUp;
      ghost var h := Heap();
      i, start := 0, 0;
      while i < numHoles
        invariant i <= numHoles
        invariant FirstSuiting(h, low, high, size, 0) == FirstSuiting(h, low, high, size, i)
      {
        start := AlignUp(if holes[i].start > low then holes[i].start else low);
        assert start == Candidate(h, i, low);
        var held := HoldsRange(i, start, start + size);
        if start + size <= high && held {
          break;
        }
        i := i + 1;
      }
    }

    /** Takes one given range, if nothing there is in use. */
    method AllocateExactly(start: nat, size: nat) returns (r: nat)
      requires Valid() && size > 0
      modifies `numHoles, `lost, `brk, holes, memory
      ensures Shaped()
      ensures (Heap(), r) == AllocatorModel.AllocateExactly(old(Heap()), start, size)
    {
      hide AllocatorModel.Carve, PutHole, Holds, FirstHolding;
      var i := FindHolding(start, start + size);
      if i < numHoles {
        r := Carve(i, start, size);
        return;
      }
      var was := brk;
      if start < was || start + size > memory.Length {
        return 0;
      }
      var granted := Sbrk(start + size - was);
      if !granted {
        return 0;
      }
      AddHole(was, start, false);
      return start;
    }

    /** Looks through the holes upwards, and beyond the break after them. */
    method AllocateAbove(low: nat, high: nat, size: nat) returns (r: nat)
      requires Valid() && size > 0
      modifies `numHoles, `lost, `brk, holes, memory
      ensures Shaped()
      ensures (Heap(), r) == AllocatorModel.AllocateAbove(old(Heap()), low, high, size)
    {
      hide AllocatorModel.Carve, AllocatorModel.AllocateExactly, Inv, Holds, FirstSuiting;
      var i, start := FindSuiting(low, high, size);
      if i < numHoles {
        r := Carve(i, start, size);
        return;
      }
      start := AlignUp(brk);
      if start < low {
        start := low;
      }
      if start + size <= high {
        r := AllocateExactly(start, size);
      } else {
        r := 0;
      }
    }

    /** sqAllocateMemory: 0 when the request is refused; exits when the configured
        old-space base is bad. */
    method SqAllocateMemory(desiredHeapSize: nat, desiredBaseAddress: nat, configured: nat)
      returns (result: nat, exits: bool)
      requires Valid()
      modifies this, holes, blocks, memory
      ensures Shaped()
      ensures exits <==>
        AllocatorModel.SqAllocateMemory(old(Space()), desiredHeapSize, desiredBaseAddress, configured).Exited?
      ensures !exits ==> Valid()
      ensures !exits ==>
        AllocatorModel.SqAllocateMemory(old(Space()), desiredHeapSize, desiredBaseAddress, configured) ==
          Answer(Space(), result)
      ensures !exits ==> Sized(old(Space()), Answer(Space(), result), desiredHeapSize)
    {
      hide Inv, AllocatorModel.AllocateExactly, AllocatorModel.AllocateAbove, Record, Placed, Granted, Sized,
        IsPowerOfTwo;
      ghost var was := Space();
      SqAllocateMemoryMeets(was, desiredHeapSize, desiredBaseAddress, configured);
      var size := AlignUp(if desiredHeapSize != 0 then desiredHeapSize else 1);
      var base := AlignUp(desiredBaseAddress);
      exits := false;
      if base == OLD_SPACE_HINT {
        if oldSpaceBase == 0 {
          if !(IsPowerOfTwo(configured) && configured > fixedSpaceEnd && configured <= memory.Length / 2) {
            return 0, true;
          }
          oldSpaceBase := configured;
        }
        if size <= oldSpaceBase {
          result := AllocateExactly(oldSpaceBase, size);
        } else {
          result := 0;
        }
      } else if base >= PERM_SPACE_HINT {
        return 0, false;
      } else if oldSpaceBase != 0 && base >= oldSpaceBase {
        result := AllocateAbove(base, 2 * oldSpaceBase, size);
      } else if base != 0 {
        result := AllocateExactly(base, size);
        if result != 0 && result + size > fixedSpaceEnd {
          fixedSpaceEnd := result + size;
        }
      } else {
        result := AllocateAbove(0, memory.Length, size);
      }
      RecordBlock(result, size);
    }

    method RecordBlock(start: nat, size: nat)
      requires Shaped()
      modifies `numBlocks, `lost, blocks
      ensures Shaped()
      ensures Heap() == Record(old(Heap()), start, size)
    {
      if start != 0 && numBlocks < MAX_RANGES {
        blocks[numBlocks] := Range(start, start + size, false);
        numBlocks := numBlocks + 1;
        assert blocks[..numBlocks] == old(blocks[..numBlocks]) + [Range(start, start + size, false)];
      } else if start != 0 {
        lost := lost + [Range(start, start + size, false)];
      }
    }

    /** The last block takes the place of block i. */
    method ForgetBlock(i: nat)
      requires Shaped() && i < numBlocks
      modifies `numBlocks, blocks
      ensures Shaped()
      ensures var b := old(Heap()).blocks;
        Heap() == old(Heap()).(blocks := b[i := b[|b| - 1]][..|b| - 1])
    {
      numBlocks := numBlocks - 1;
      blocks[i] := blocks[numBlocks];
      assert blocks[..numBlocks] == old(blocks[..numBlocks])[i := old(blocks[numBlocks - 1])][..numBlocks];
    }

    /** Frees by address alone: the block that was recorded there says how much. */
    method SqDeallocate(addr: nat) returns (known: bool)
      requires Valid()
      modifies `numHoles, `numBlocks, `lost, holes, blocks
      ensures Valid()
      ensures Heap() == AllocatorModel.SqDeallocate(old(Heap()), addr)
      ensures known <==> exists i :: 0 <= i < |old(Heap()).blocks| && old(Heap()).blocks[i].start == addr
    {
      hide Inv, PutHole;
      SqDeallocateKeepsInv(Heap(), addr);
      ghost var was := blocks[..numBlocks];
      var i := 0;
      while i < numBlocks && blocks[i].start != addr
        modifies {}
        invariant i <= numBlocks
        invariant forall k :: 0 <= k < i ==> blocks[k].start != addr
        invariant FindBlock(was, addr, 0) == FindBlock(was, addr, i)
      {
        i := i + 1;
      }
      if i == numBlocks {
        return false;
      }
      assert was[i].start == addr;
      AddHole(blocks[i].start, blocks[i].end, true);
      ForgetBlock(i);
      return true;
    }
  }
}
