module HandleTable {
  // The open-addressing table of genuine handles (include/pharovm/win/sqWin32HandleTable.h).

  import opened Basics

  // Linear probing, deletion that repairs the collision chain in place, growth and shrinking.
  // A handle is its address; NULL is 0.

  type Handle = nat
  const NULL: Handle := 0

  // ---- cyclic distances

  /** The number of steps from slot a on to slot b, around a table of n. */
  function Dist(n: nat, a: nat, b: nat): (d: nat)
    requires a < n && b < n
    ensures d < n
  {
    if a <= b then b - a else n - a + b
  }

  function Home(n: nat, x: Handle): (h: nat)
    requires n > 0
    ensures h < n
  {
    x % n
  }

  /** The slot k steps after a. */
  function Around(n: nat, a: nat, k: nat): (b: nat)
    requires a < n && k < n
    ensures b < n && Dist(n, a, b) == k
  {
    if a + k < n then a + k else a + k - n
  }

  /** Slot q is probed before slot p when x is looked for. */
  predicate Before(n: nat, x: Handle, q: nat, p: nat)
    requires q < n && p < n
  {
    Dist(n, Home(n, x), q) < Dist(n, Home(n, x), p)
  }

  // ---- what a table of slots holds

  /** What a lookup of x finds at slot p: every slot probed before it holds another handle. */
  ghost predicate Reaches(d: seq<Handle>, x: Handle, p: nat) {
    p < |d| && forall q :: 0 <= q < |d| && Before(|d|, x, q, p) ==> d[q] != NULL && d[q] != x
  }

  ghost predicate NoDuplicates(d: seq<Handle>) {
    forall p, q :: 0 <= p < q < |d| && d[p] != NULL ==> d[p] != d[q]
  }

  /** Every stored handle is reached from its home slot by a probe that meets no NULL. */
  ghost predicate Probed(d: seq<Handle>) {
    NoDuplicates(d) && forall p :: 0 <= p < |d| && d[p] != NULL ==> Reaches(d, d[p], p)
  }

  ghost function Handles(d: seq<Handle>): set<Handle> {
    set x | x in d && x != NULL
  }

  ghost predicate HasNull(d: seq<Handle>) {
    exists p :: 0 <= p < |d| && d[p] == NULL
  }

  /** What FindHandleInTable answers: the first slot on the probe that is empty or holds item,
      or -1 when there is none. */
  ghost predicate Found(d: seq<Handle>, item: Handle, index: int) {
    if index == -1 then forall q :: 0 <= q < |d| ==> d[q] != NULL && d[q] != item
    else 0 <= index < |d| && (d[index] == NULL || d[index] == item) && Reaches(d, item, index)
  }

  /** A stored handle and its lookup end at the same slot. */
  lemma SamePlace(d: seq<Handle>, x: Handle, p: nat, q: nat)
    requires x != NULL && Reaches(d, x, p) && Reaches(d, x, q)
    requires d[p] == x && (d[q] == x || d[q] == NULL)
    ensures p == q
  {
    var either := Before(|d|, x, p, q) || Before(|d|, x, q, p);
    if p != q { DistIsInjective(|d|, Home(|d|, x), p, q); }
  }

  lemma StoredIsAt(d: seq<Handle>, x: Handle, p: nat, q: nat)
    requires Probed(d) && x != NULL && p < |d| && Reaches(d, x, q) && (d[q] == x || d[q] == NULL)
    ensures d[p] == x ==> p == q
  {
    if d[p] == x { SamePlace(d, x, p, q); }
  }

  /** In a probed table the lookup decides membership. */
  lemma FoundDecidesMembership(d: seq<Handle>, item: Handle, index: int)
    requires Probed(d) && item != NULL && Found(d, item, index)
    ensures item in Handles(d) <==> index != -1 && d[index] == item
  {
    if item in d && index != -1 {
      var p :| 0 <= p < |d| && d[p] == item;
      SamePlace(d, item, p, index);
    }
  }

  lemma DistIsInjective(n: nat, h: nat, p: nat, q: nat)
    requires h < n && p < n && q < n && p != q
    ensures Dist(n, h, p) != Dist(n, h, q)
  {}

  /** Storing x where its lookup ended keeps the table probed and adds exactly x. */
  lemma StoreKeepsProbed(d: seq<Handle>, x: Handle, index: nat)
    requires Probed(d) && x != NULL && Found(d, x, index)
    ensures Probed(d[index := x]) && Handles(d[index := x]) == Handles(d) + {x}
  {
    var e := d[index := x];
    FoundDecidesMembership(d, x, index);
    assert e[index] == x;
    forall p | 0 <= p < |e| && e[p] != NULL ensures Reaches(e, e[p], p) {
      if p != index {
        assert Reaches(d, d[p], p);
        assert d[p] in d && d[p] in Handles(d);
      }
    }
    forall y | y in Handles(d) + {x} ensures y in e {
      if y != x {
        var p :| 0 <= p < |d| && d[p] == y;
        assert e[p] == y;
      }
    }
    forall p | 0 <= p < |d| ensures d[p] == x ==> p == index {
      StoredIsAt(d, x, p, index);
    }
  }

  lemma StoreNull(d: seq<Handle>, index: nat)
    requires index < |d| && d[index] == NULL
    ensures d[index := NULL] == d
  {}

  // ---- counting handles against slots

  lemma {:induction false} HandlesAtMostSlots(d: seq<Handle>)
    ensures |Handles(d)| <= |d|
  {
    if d != [] {
      var n := |d| - 1;
      HandlesAtMostSlots(d[..n]);
      assert d == d[..n] + [d[n]];
      assert Handles(d) == if d[n] == NULL then Handles(d[..n]) else Handles(d[..n]) + {d[n]};
    }
  }

  /** A table without NULL has as many handles as slots. */
  lemma {:induction false} FullCounts(d: seq<Handle>)
    requires NoDuplicates(d) && !HasNull(d)
    ensures |Handles(d)| == |d|
  {
    if d != [] {
      var n := |d| - 1;
      assert forall p :: 0 <= p < n ==> d[..n][p] == d[p];
      FullCounts(d[..n]);
      assert d == d[..n] + [d[n]];
      assert d[n] !in d[..n];
      assert Handles(d) == Handles(d[..n]) + {d[n]};
    }
  }

  // ---- deletion

  /** Slot g was emptied, and the o - 1 slots after it were looked at since: no probe of a
      stored handle meets a NULL but perhaps g, and those of the slots looked at avoid g too. */
  ghost predicate Fixing(d: seq<Handle>, g: nat, o: nat) {
    && g < |d| && 1 <= o <= |d| && d[g] == NULL && NoDuplicates(d)
    && (forall p, q :: 0 <= p < |d| && d[p] != NULL && 0 <= q < |d| && Before(|d|, d[p], q, p) ==>
       q == g || d[q] != NULL)
    && (forall p :: 0 <= p < |d| && d[p] != NULL && Dist(|d|, g, p) < o ==> !Before(|d|, d[p], g, p))
  }

  /** The slot that the scan looks at next. */
  function Scanned(n: nat, g: nat, o: nat): (p: nat)
    requires g < n && 1 <= o <= n
    ensures p < n
  {
    if o == n then g else Around(n, g, o)
  }

  lemma ClearingStartsFixing(d: seq<Handle>, index: nat)
    requires Probed(d) && index < |d| && d[index] != NULL
    ensures Fixing(d[index := NULL], index, 1)
    ensures Handles(d[index := NULL]) == Handles(d) - {d[index]}
  {
    var e := d[index := NULL];
    forall p, q | 0 <= p < |e| && e[p] != NULL && 0 <= q < |e| && Before(|e|, e[p], q, p)
      ensures q == index || e[q] != NULL
    {
      assert Reaches(d, d[p], p);
    }
    forall x | x in Handles(d) - {d[index]} ensures x in e {
      var p :| 0 <= p < |d| && d[p] == x;
      assert e[p] == x;
    }
    forall x | x in Handles(e) ensures x in d && x != d[index] {
      var p :| 0 <= p < |e| && e[p] == x;
      assert d[p] == x;
    }
  }

  lemma FixingBounds(d: seq<Handle>, g: nat, o: nat)
    requires Fixing(d, g, o)
    ensures g < |d| && 1 <= o <= |d|
  {}

  /** Slots met on the way: if g is probed before p, so is what lies between g and p. */
  lemma BetweenIsBefore(n: nat, h: nat, g: nat, m: nat, p: nat)
    requires h < n && g < n && m < n && p < n
    requires Dist(n, h, g) < Dist(n, h, p) && Dist(n, g, m) < Dist(n, g, p)
    ensures Dist(n, h, m) < Dist(n, h, p)
  {}

  /** When the scan meets a NULL, the table is probed again. */
  lemma FixedIsProbed(d: seq<Handle>, g: nat, o: nat)
    requires Fixing(d, g, o) && d[Scanned(|d|, g, o)] == NULL
    ensures Probed(d)
  {
    var n, m := |d|, Scanned(|d|, g, o);
    forall p | 0 <= p < n && d[p] != NULL ensures Reaches(d, d[p], p) {
      if o < n && o <= Dist(n, g, p) {
        assert Dist(n, g, m) == o;
        if Dist(n, g, p) == o { SameDist(n, g, m, p); }
        var beyond := Before(n, d[p], m, p);
        if Dist(n, Home(n, d[p]), g) < Dist(n, Home(n, d[p]), p) {
          BetweenIsBefore(n, Home(n, d[p]), g, m, p);
        }
      }
      assert !Before(n, d[p], g, p);
    }
  }

  lemma SameDist(n: nat, a: nat, b: nat, c: nat)
    requires a < n && b < n && c < n && Dist(n, a, b) == Dist(n, a, c)
    ensures b == c
  {}

  /** A handle that its lookup finds where it is needs no move: the scan goes on. */
  lemma ScanGoesOn(d: seq<Handle>, g: nat, o: nat)
    requires Fixing(d, g, o) && d[Scanned(|d|, g, o)] != NULL
    requires Found(d, d[Scanned(|d|, g, o)], Scanned(|d|, g, o))
    ensures o < |d| && Fixing(d, g, o + 1)
  {
    var n, m := |d|, Scanned(|d|, g, o);
    assert o < n && Dist(n, g, m) == o;
    forall p | 0 <= p < n && d[p] != NULL && Dist(n, g, p) < o + 1 ensures !Before(n, d[p], g, p) {
      if Dist(n, g, p) == o { SameDist(n, g, m, p); }
    }
  }

  /** A stored handle whose lookup ends elsewhere is found at the emptied slot. */
  lemma FoundAtHole(d: seq<Handle>, g: nat, o: nat, p: nat, index: int)
    requires Fixing(d, g, o) && p < |d| && d[p] != NULL && Found(d, d[p], index) && index != p
    ensures index == g && Before(|d|, d[p], g, p)
  {
    var n, x := |d|, d[p];
    assert index != -1;
    DistIsInjective(n, Home(n, x), p, index);
    assert Before(n, x, p, index) || Before(n, x, index, p);
    assert d[index] == NULL;
  }

  function Swap(d: seq<Handle>, p: nat, q: nat): seq<Handle>
    requires p < |d| && q < |d|
  {
    d[p := d[q]][q := d[p]]
  }

  /** Swapping it there moves the empty slot to where it was, and the scan starts anew. */
  lemma SwapKeepsFixing(d: seq<Handle>, g: nat, o: nat, p: nat)
    requires Fixing(d, g, o) && p < |d| && d[p] != NULL && Found(d, d[p], g)
    ensures Fixing(Swap(d, p, g), p, 1) && Handles(Swap(d, p, g)) == Handles(d)
  {
    var n, x, e := |d|, d[p], Swap(d, p, g);
    FoundAtHole(d, g, o, p, g);
    forall r, q | 0 <= r < n && e[r] != NULL && 0 <= q < n && Before(n, e[r], q, r) ensures q == p || e[q] != NULL {
      if r == g {
        assert Before(n, x, q, g) && d[q] != NULL;
      } else {
        assert e[r] == d[r];
      }
    }
    assert e[g] == x;
    forall y | y in Handles(d) ensures y in e {
      var r :| 0 <= r < n && d[r] == y;
      assert e[if r == p then g else r] == y;
    }
    forall y | y in Handles(e) ensures y in d {
      var r :| 0 <= r < n && e[r] == y;
      assert d[if r == g then p else r] == y;
    }
  }

  // ---- termination of the repair

  /** The probe distance of slot p. */
  ghost function Reach(d: seq<Handle>, p: nat): nat
    requires p < |d|
  {
    if d[p] == NULL then 0 else Dist(|d|, Home(|d|, d[p]), p)
  }

  ghost function TotalReach(d: seq<Handle>, k: nat): nat
    requires k <= |d|
  {
    if k == 0 then 0 else TotalReach(d, k - 1) + Reach(d, k - 1)
  }

  lemma {:induction false} TotalAfterSwap(d: seq<Handle>, e: seq<Handle>, p: nat, q: nat, k: nat)
    requires |e| == |d| && k <= |d| && p < |d| && q < |d| && p != q
    requires forall r :: 0 <= r < |d| && r != p && r != q ==> e[r] == d[r]
    ensures TotalReach(e, k) + (if p < k then Reach(d, p) else 0) + (if q < k then Reach(d, q) else 0)
         == TotalReach(d, k) + (if p < k then Reach(e, p) else 0) + (if q < k then Reach(e, q) else 0)
  {
    if k > 0 {
      TotalAfterSwap(d, e, p, q, k - 1);
    }
  }

  /** Each swap strictly lowers the total probe distance. */
  lemma SwapLowersTotal(d: seq<Handle>, g: nat, o: nat, p: nat)
    requires Fixing(d, g, o) && p < |d| && d[p] != NULL && Found(d, d[p], g)
    ensures TotalReach(Swap(d, p, g), |d|) < TotalReach(d, |d|)
  {
    FoundAtHole(d, g, o, p, g);
    TotalAfterSwap(d, Swap(d, p, g), p, g, |d|);
  }

  // ---- sizes

  /** 2^k + 1 for a k of at least 2, by the halving that shrinking does. */
  predicate IsTableSize(n: nat) {
    n == 5 || (n > 5 && n % 2 == 1 && IsTableSize((n + 1) / 2))
  }

  lemma {:induction false} TableSizeIsPowerPlusOne(n: nat) returns (k: nat)
    requires IsTableSize(n)
    ensures k >= 2 && n == Pow2(k) + 1
  {
    if n == 5 {
      assert Pow2(2) == 2 * Pow2(1) == 2 * (2 * Pow2(0));
      return 2;
    }
    var half := (n + 1) / 2;
    var j := TableSizeIsPowerPlusOne(half);
    assert n == 2 * half - 1;
    return j + 1;
  }

  lemma GrownSize(n: nat)
    requires n == 0 || IsTableSize(n)
    ensures IsTableSize(if n > 1 then 2 * n - 1 else 5)
  {
    if n > 1 { assert (2 * n - 1 + 1) / 2 == n; }
  }

  // ---- the table

  class Table {
    var count: int
    var size: nat
    var data: array<Handle>

    ghost predicate Valid()
      reads this, data
    {
      && data.Length == size && (size == 0 || IsTableSize(size))
      && Probed(data[..]) && |Handles(data[..])| <= count
    }

    /** The handles that the table holds. */
    ghost function Set(): set<Handle>
      reads this, data
    {
      Handles(data[..])
    }

    constructor ()
      ensures Valid() && Set() == {} && count == 0 && fresh(data)
    {
      count, size := 0, 0;
      data := new Handle[0];
    }

    method FindHandleInTable(item: Handle) returns (index: int)
      requires data.Length == size
      ensures Found(data[..], item, index)
    {
      if size == 0 {
        return -1;
      }
      var start := item % size;
      index := start;
      while index < size
        invariant start <= index <= size
        invariant forall q :: start <= q < index ==> data[q] != NULL && data[q] != item
      {
        var element := data[index];
        if element == NULL || item == element {
          assert forall q :: 0 <= q < size && Before(size, item, q, index) ==> start <= q < index;
          return;
        }
        index := index + 1;
      }
      index := 0;
      while index < start
        invariant 0 <= index <= start
        invariant forall q :: 0 <= q < index ==> data[q] != NULL && data[q] != item
      {
        var element := data[index];
        if element == NULL || item == element {
          assert forall q :: 0 <= q < size && Before(size, item, q, index) ==> q < index || start <= q;
          return;
        }
        index := index + 1;
      }
      index := -1;
    }

    /** Find the slot of element and store it there: the lookup succeeds in a table with room. */
    method StoreFound(element: Handle)
      requires data.Length == size && Probed(data[..]) && |Set()| < size
      modifies data
      ensures Probed(data[..]) && Set() == if element == NULL then old(Set()) else old(Set()) + {element}
    {
      var index := FindHandleInTable(element);
      if index == -1 {
        FullCounts(data[..]);
      }
      if element == NULL {
        StoreNull(data[..], index);
        ghost var was := data[..];
        data[index] := element;
        assert data[..] == was[index := element];
      } else {
        Store(index, element);
      }
    }

    /** Every lookup in here finds a slot, since the handles are fewer than the new slots. */
    method GrowTableToSize(newSize: nat)
      requires data.Length == size && Probed(data[..]) && |Set()| < newSize
      modifies this`size, this`data
      ensures data.Length == size == newSize && fresh(data) && Probed(data[..]) && Set() == old(Set())
    {
      var oldData, oldSize := data, size;
      size := newSize;
      data := new Handle[newSize](_ => NULL);
      assert Handles(data[..]) == Handles(oldData[..0]);
      for i := 0 to oldSize
        invariant data.Length == size == newSize && fresh(data) && data != oldData
        invariant oldData[..] == old(data[..]) && oldData.Length == oldSize
        invariant Probed(data[..])
        invariant Handles(data[..]) == Handles(oldData[..i])
      {
        PartHasFewer(oldData[..], i);
        assert oldData[..i] == oldData[..][..i] && oldData[..i + 1] == oldData[..i] + [oldData[i]];
        StoreFound(oldData[i]);
        HandlesOfLonger(oldData[..i], oldData[i]);
      }
      assert oldData[..oldSize] == oldData[..];
    }

    /** The handles of two slots change places. */
    method SwapSlots(i: nat, j: nat)
      requires i < data.Length && j < data.Length
      modifies data
      ensures data[..] == Swap(old(data[..]), i, j)
    {
      var tmp := data[i];
      data[i] := data[j];
      data[j] := tmp;
    }

    method FixCollisionsInTable(index: nat)
      requires data.Length == size && Fixing(data[..], index, 1)
      modifies data
      ensures Probed(data[..]) && Set() == old(Set())
    {
      hide Fixing, Probed, TotalReach, Swap, Handles, Found;
      var oldIndex := index;
      ghost var g: nat, o: nat := index, 1;
      FixingBounds(data[..], g, o);
      while true
        invariant g < size && 1 <= o <= size
        invariant data.Length == size && Fixing(data[..], g, o) && Set() == old(Set())
        invariant oldIndex == if o == 1 then g else Around(size, g, o - 1)
        decreases TotalReach(data[..], size), size - o
      {
        oldIndex := oldIndex + 1;
        if oldIndex == size {
          oldIndex := 0;
        }
        assert oldIndex == Scanned(size, g, o);
        var element := data[oldIndex];
        if element == NULL {
          FixedIsProbed(data[..], g, o);
          break;
        }
        var newIndex := FindHandleInTable(element);
        if newIndex != oldIndex {
          FoundAtHole(data[..], g, o, oldIndex, newIndex);
          SwapKeepsFixing(data[..], g, o, oldIndex);
          SwapLowersTotal(data[..], g, o, oldIndex);
          SwapSlots(oldIndex, newIndex);
          g, o := oldIndex, 1;
        } else {
          ScanGoesOn(data[..], g, o);
          o := o + 1;
        }
      }
    }

    method Store(index: nat, item: Handle)
      requires Probed(data[..]) && item != NULL && Found(data[..], item, index)
      modifies data
      ensures Probed(data[..]) && Set() == old(Set()) + {item}
      ensures |Set()| <= |old(Set())| + 1
    {
      ghost var was := data[..];
      StoreKeepsProbed(was, item, index);
      data[index] := item;
      assert data[..] == was[index := item];
    }

    method AddHandleToTable(item: Handle)
      requires Valid()
      modifies this, data
      ensures Valid() && (data == old(data) || fresh(data))
      ensures Set() == if item == NULL then old(Set()) else old(Set()) + {item}
      ensures count == if item == NULL then old(count) else old(count) + 1
    {
      if item == NULL {
        return;
      }
      var index := FindHandleInTable(item);
      if index == -1 {
        FullCounts(data[..]);
        GrownSize(size);
        GrowTableToSize(if size > 1 then size * 2 - 1 else 5);
        index := FindHandleInTable(item);
        if index == -1 {
          FullCounts(data[..]);
        }
      }
      Store(index, item);
      count := count + 1;
    }

    method RemoveHandleFromTable(item: Handle)
      requires Valid()
      modifies this, data
      ensures Valid() && (data == old(data) || fresh(data))
      ensures Set() == old(Set()) - {item}
      ensures count == if item in old(Set()) then old(count) - 1 else old(count)
    {
      if item == NULL {
        return;
      }
      var index := FindHandleInTable(item);
      FoundDecidesMembership(data[..], item, index);
      if index == -1 {
        return;
      }
      if data[index] == NULL {
        return;
      }
      ClearingStartsFixing(data[..], index);
      ghost var was := data[..];
      data[index] := NULL;
      assert data[..] == was[index := NULL];
      count := count - 1;
      FixCollisionsInTable(index);
      if size > 5 && count * 4 < size {
        GrowTableToSize((size + 1) / 2);
      }
    }

    method IsHandleInTable(item: Handle) returns (b: bool)
      requires Valid()
      ensures b <==> item in Set()
    {
      if item == NULL {
        return false;
      }
      var index := FindHandleInTable(item);
      FoundDecidesMembership(data[..], item, index);
      if index == -1 {
        return false;
      }
      return data[index] == item;
    }
  }

  lemma HandlesOfLonger(d: seq<Handle>, x: Handle)
    ensures Handles(d + [x]) == if x == NULL then Handles(d) else Handles(d) + {x}
  {}

  lemma PartHasFewer(d: seq<Handle>, i: nat)
    requires i <= |d|
    ensures |Handles(d[..i])| <= |Handles(d)|
  {
    SubsetHasFewer(Handles(d[..i]), Handles(d));
  }

  lemma {:induction false} SubsetHasFewer(a: set<Handle>, b: set<Handle>)
    requires a <= b
    ensures |a| <= |b|
  {
    assert b == a + (b - a);
  }
}
