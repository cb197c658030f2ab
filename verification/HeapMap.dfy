/** The heap map of src/common/sqHeapMap.c for 64-bit images: a bit for every word of the address
    space, in pages that are allocated when a word of theirs is first put. */
module HeapMap {

  const ROOT: nat := 0x1_0000
  const DIRECTORY: nat := 0x8_0000
  const PAGE: nat := 0x10_0000

  /** The bytes of address space that a page covers, and a directory. */
  const PAGE_SPAN: nat := 0x400_0000
  const DIRECTORY_SPAN: nat := 0x2000_0000_0000

  /** What the tables cover: 2 to the 61. */
  const COVERED: nat := 0x2000_0000_0000_0000

  function DirectoryIndex(a: nat): nat { a / DIRECTORY_SPAN }
  function PageIndex(a: nat): nat { (a / PAGE_SPAN) % DIRECTORY }
  function ByteIndex(a: nat): nat { (a % PAGE_SPAN) / 64 }
  function BitIndex(a: nat): nat { (a / 8) % 8 }

  predicate IsAligned(a: nat) { a % 8 == 0 }

  /** The address of a bit. */
  function AddressOf(d: nat, p: nat, b: nat, k: nat): nat {
    d * DIRECTORY_SPAN + p * PAGE_SPAN + b * 64 + k * 8
  }

  /** A word's address is made of its indices, each within its table. */
  lemma IndicesMakeTheAddress(a: nat)
    requires IsAligned(a)
    ensures AddressOf(DirectoryIndex(a), PageIndex(a), ByteIndex(a), BitIndex(a)) == a
    ensures PageIndex(a) < DIRECTORY && ByteIndex(a) < PAGE && BitIndex(a) < 8
  {
    hide AddressOf;
    var q, r := a / PAGE_SPAN, a % PAGE_SPAN;
    DivDiv(a);
    WithinPage(r);
    BitOfRest(a);
    Assembled(a, q, q / DIRECTORY, q % DIRECTORY, r, r / 64, (r / 8) % 8);
  }

  lemma WithinPage(r: nat)
    requires r % 8 == 0
    ensures r == (r / 64) * 64 + ((r / 8) % 8) * 8
  {
    var w := r / 8;
    EighthOf(r, w, 0);
    EighthOf(w, w / 8, w % 8);
    QuotientIs(r, w / 8, w % 8 * 8);
  }

  lemma QuotientIs(x: nat, high: nat, low: nat)
    requires x == 64 * high + low && low < 64
    ensures x / 64 == high
  {}

  lemma BitOfRest(a: nat)
    ensures (a / 8) % 8 == ((a % PAGE_SPAN) / 8) % 8 && (a % PAGE_SPAN) % 8 == a % 8
  {
    var q, r := a / PAGE_SPAN, a % PAGE_SPAN;
    var w, m := r / 8, r % 8;
    EighthOf(a, q * 0x80_0000 + w, m);
    EighthOf(a / 8, q * 0x10_0000 + w / 8, w % 8);
  }

  lemma EighthOf(x: nat, high: nat, low: nat)
    requires x == 8 * high + low && low < 8
    ensures x / 8 == high && x % 8 == low
  {}

  lemma Assembled(a: nat, q: nat, d: nat, p: nat, r: nat, b: nat, k: nat)
    requires a == q * PAGE_SPAN + r && q == d * DIRECTORY + p && r == b * 64 + k * 8
    ensures AddressOf(d, p, b, k) == a
  {}

  lemma DivDiv(a: nat)
    ensures (a / PAGE_SPAN) / DIRECTORY == a / DIRECTORY_SPAN
  {}

  /** Two words never share a bit. */
  lemma IndicesAreInjective(a: nat, b: nat)
    requires IsAligned(a) && IsAligned(b)
    requires DirectoryIndex(a) == DirectoryIndex(b) && PageIndex(a) == PageIndex(b)
    requires ByteIndex(a) == ByteIndex(b) && BitIndex(a) == BitIndex(b)
    ensures a == b
  {
    hide *;
    IndicesMakeTheAddress(a);
    IndicesMakeTheAddress(b);
  }

  /** The root table covers the addresses below 2 to the 61, no other: not all of 64 bits. */
  lemma RootCoversExactly(a: nat)
    ensures DirectoryIndex(a) < ROOT <==> a < COVERED
  {}

  // ---- bits of a byte

  function Mask(k: nat): bv8
    requires k < 8
  {
    (1 as bv8) << k
  }

  function WithBit(x: bv8, k: nat, bit: bool): bv8
    requires k < 8
  {
    if bit then x | Mask(k) else x & (0xFF ^ Mask(k))
  }

  predicate HasBit(x: bv8, k: nat)
    requires k < 8
  {
    x & Mask(k) != 0
  }

  lemma BitsAreSeparate(x: bv8, k: nat, bit: bool, j: nat)
    requires k < 8 && j < 8
    ensures HasBit(WithBit(x, k, bit), j) == if j == k then bit else HasBit(x, j)
  {
    assert k in {0, 1, 2, 3, 4, 5, 6, 7} && j in {0, 1, 2, 3, 4, 5, 6, 7};
  }

  lemma NoBitOfZero(k: nat)
    requires k < 8
    ensures !HasBit(0, k)
  {}

  /** A word that the tables have a bit for. */
  predicate IsWord(a: nat) { IsAligned(a) && a < COVERED }

  /** OutsideRoot: the root index is outside its table, where C leaves open what the access does. */
  datatype Outcome = Done | Misaligned | OutsideRoot

  function OutcomeOf(a: nat): Outcome {
    if !IsAligned(a) then Misaligned else if a < COVERED then Done else OutsideRoot
  }

  type Page = array<bv8>
  type Directory = array<array?<bv8>>

  class Map {
    const mapPages: array<array?<array?<bv8>>>
    ghost var directories: set<Directory>
    ghost var pages: set<Page>

    /** Every directory and every page is in one entry only. */
    ghost predicate Valid()
      reads this, mapPages, directories, pages
    {
      && mapPages.Length == ROOT
      && (forall i: nat :: i < ROOT && mapPages[i] != null ==> mapPages[i] in directories)
      && (forall i: nat, j: nat :: i < j < ROOT && mapPages[i] != null ==> mapPages[i] != mapPages[j])
      && (forall d: Directory :: d in directories ==> d.Length == DIRECTORY)
      && (forall d: Directory, j: nat :: d in directories && j < DIRECTORY && d[j] != null ==> d[j] in pages)
      && (forall d: Directory, e: Directory, i: nat, j: nat ::
            d in directories && e in directories && i < DIRECTORY && j < DIRECTORY ==>
              (d != e || i != j) && d[i] != null ==> d[i] != e[j])
      && (forall p: Page :: p in pages ==> p.Length == PAGE)
    }

    ghost function PageAt(d: nat, p: nat): array?<bv8>
      requires Valid() && d < ROOT && p < DIRECTORY
      reads this, mapPages, directories, pages
      ensures PageAt(d, p) != null ==> PageAt(d, p) in pages
    {
      if mapPages[d] == null then null else mapPages[d][p]
    }

    ghost predicate Bit(d: nat, p: nat, b: nat, k: nat)
      requires Valid() && d < ROOT && p < DIRECTORY && b < PAGE && k < 8
      reads this, mapPages, directories, pages
    {
      PageAt(d, p) != null && HasBit(PageAt(d, p)[b], k)
    }

    ghost predicate IsSet(a: nat)
      requires Valid() && IsWord(a)
      reads this, mapPages, directories, pages
    {
      RootCoversExactly(a);
      IndicesMakeTheAddress(a);
      Bit(DirectoryIndex(a), PageIndex(a), ByteIndex(a), BitIndex(a))
    }

    /** The words that are set. */
    ghost function Contents(): iset<nat>
      requires Valid()
      reads this, mapPages, directories, pages
    {
      iset a: nat | IsWord(a) && IsSet(a)
    }

    constructor ()
      ensures Valid() && Contents() == iset{}
      ensures fresh(mapPages) && directories == {} && pages == {}
    {
      mapPages := new array?<array?<bv8>>[ROOT](_ => null);
      directories, pages := {}, {};
    }

    /** heapMapAtWord: non-zero when the word is set. */
    method AtWord(a: nat) returns (outcome: Outcome, bit: bv8)
      requires Valid()
      ensures outcome == OutcomeOf(a)
      ensures outcome.Done? ==> (bit != 0 <==> a in Contents())
    {
      hide DirectoryIndex, PageIndex, ByteIndex, BitIndex;
      if !IsAligned(a) {
        return Misaligned, 0;
      }
      RootCoversExactly(a);
      if DirectoryIndex(a) >= ROOT {
        return OutsideRoot, 0;
      }
      IndicesMakeTheAddress(a);
      outcome, bit := Done, 0;
      var directory := mapPages[DirectoryIndex(a)];
      if directory == null {
        return;
      }
      var page := directory[PageIndex(a)];
      if page != null {
        bit := page[ByteIndex(a)] & Mask(BitIndex(a));
      }
    }

    /** The directory of an entry of the root, a new one when there is none. */
    method DirectoryOf(d: nat) returns (directory: Directory)
      requires Valid() && d < ROOT
      modifies mapPages, `directories
      ensures Valid() && mapPages[d] == directory && directory in directories
      ensures directories - old(directories) <= {directory} && (directory in old(directories) || fresh(directory))
      ensures forall i: nat, p: nat :: i < ROOT && p < DIRECTORY ==> PageAt(i, p) == old(PageAt(i, p))
    {
      var found := mapPages[d];
      if found != null {
        return found;
      }
      directory := new array?<bv8>[DIRECTORY](_ => null);
      mapPages[d] := directory;
      directories := directories + {directory};
    }

    /** The page of an entry of a directory, a new one, all zeros, when there is none. */
    method PageOf(d: nat, directory: Directory, p: nat) returns (page: Page)
      requires Valid() && d < ROOT && mapPages[d] == directory && directory in directories && p < DIRECTORY
      modifies directory, `pages
      ensures Valid() && PageAt(d, p) == page && page in pages
      ensures pages - old(pages) <= {page} && (page in old(pages) || fresh(page))
      ensures forall i: nat, q: nat :: i < ROOT && q < DIRECTORY && (i != d || q != p) ==>
        PageAt(i, q) == old(PageAt(i, q))
      ensures old(PageAt(d, p)) != null ==> page == old(PageAt(d, p))
      ensures old(PageAt(d, p)) == null ==> fresh(page) && forall b: nat :: b < PAGE ==> page[b] == 0
    {
      var found := directory[p];
      if found != null {
        return found;
      }
      page := new bv8[PAGE](_ => 0);
      directory[p] := page;
      pages := pages + {page};
    }

    /** The page that has a word's bit; no bit changes. */
    method Reach(d: nat, p: nat) returns (page: Page)
      requires Valid() && d < ROOT && p < DIRECTORY
      modifies mapPages, directories, `directories, `pages
      ensures Valid() && PageAt(d, p) == page && page in pages
      ensures page in old(pages) || fresh(page)
      ensures forall i: nat, q: nat, c: nat, j: nat :: i < ROOT && q < DIRECTORY && c < PAGE && j < 8 ==>
        Bit(i, q, c, j) == old(Bit(i, q, c, j))
    {
      hide HasBit;
      forall j: nat | j < 8 ensures !HasBit(0, j) { NoBitOfZero(j); }
      var directory := DirectoryOf(d);
      page := PageOf(d, directory, p);
    }

    method PutBit(d: nat, p: nat, b: nat, k: nat, bit: bool)
      requires Valid() && d < ROOT && p < DIRECTORY && b < PAGE && k < 8
      modifies mapPages, directories, pages, `directories, `pages
      ensures Valid()
      ensures forall i: nat, q: nat, c: nat, j: nat :: i < ROOT && q < DIRECTORY && c < PAGE && j < 8 ==>
        Bit(i, q, c, j) == if i == d && q == p && c == b && j == k then bit else old(Bit(i, q, c, j))
    {
      hide HasBit, WithBit;
      var page := Reach(d, p);
      PagesAreApart(d, p);
      forall j: nat | j < 8 ensures HasBit(WithBit(page[b], k, bit), j) == if j == k then bit else HasBit(page[b], j) {
        BitsAreSeparate(page[b], k, bit, j);
      }
      page[b] := WithBit(page[b], k, bit);
    }

    lemma PagesAreApart(d: nat, p: nat)
      requires Valid() && d < ROOT && p < DIRECTORY && PageAt(d, p) != null
      ensures forall i: nat, q: nat :: i < ROOT && q < DIRECTORY && (i != d || q != p) ==> PageAt(i, q) != PageAt(d, p)
    {}

    /** heapMapAtWordPut: exactly that word is put in or taken out. */
    method AtWordPut(a: nat, bit: bool) returns (outcome: Outcome)
      requires Valid()
      modifies mapPages, directories, pages, `directories, `pages
      ensures Valid() && outcome == OutcomeOf(a)
      ensures Contents() == if !outcome.Done? then old(Contents())
                            else if bit then old(Contents()) + iset{a} else old(Contents()) - iset{a}
    {
      hide DirectoryIndex, PageIndex, ByteIndex, BitIndex, Valid, Bit;
      if !IsAligned(a) {
        return Misaligned;
      }
      RootCoversExactly(a);
      if DirectoryIndex(a) >= ROOT {
        return OutsideRoot;
      }
      IndicesMakeTheAddress(a);
      PutBit(DirectoryIndex(a), PageIndex(a), ByteIndex(a), BitIndex(a), bit);
      forall x: nat | IsWord(x) ensures IsSet(x) == if x == a then bit else old(IsSet(x)) {
        RootCoversExactly(x);
        IndicesMakeTheAddress(x);
        if x != a {
          IndicesDiffer(a, x);
        }
      }
      outcome := Done;
    }

    /** clearHeapMap: no word is set; no page is given back. */
    method Clear()
      requires Valid()
      modifies pages
      ensures Valid() && Contents() == iset{}
    {
      var i := 0;
      while i < ROOT
        invariant 0 <= i <= ROOT && Valid()
        invariant forall d: nat, p: nat :: d < ROOT && p < DIRECTORY ==> PageAt(d, p) == old(PageAt(d, p))
        invariant forall d: nat, p: nat, b: nat :: d < i && p < DIRECTORY && b < PAGE && PageAt(d, p) != null ==>
          PageAt(d, p)[b] == 0
      {
        var directory := mapPages[i];
        if directory != null {
          ClearDirectory(i);
        }
        i := i + 1;
      }
      forall x: nat | IsWord(x) ensures !IsSet(x) {
        RootCoversExactly(x);
        IndicesMakeTheAddress(x);
        NoBitOfZero(BitIndex(x));
      }
    }

    method ClearDirectory(i: nat)
      requires Valid() && i < ROOT && mapPages[i] != null
      modifies pages
      ensures Valid()
      ensures forall d: nat, p: nat :: d < ROOT && p < DIRECTORY ==> PageAt(d, p) == old(PageAt(d, p))
      ensures forall p: nat, b: nat :: p < DIRECTORY && b < PAGE && PageAt(i, p) != null ==> PageAt(i, p)[b] == 0
      ensures forall p: Page, b: nat :: p in pages && b < PAGE ==> p[b] == old(p[b]) || p[b] == 0
    {
      var directory := mapPages[i];
      var j := 0;
      while j < DIRECTORY
        invariant 0 <= j <= DIRECTORY && Valid()
        invariant forall d: nat, p: nat :: d < ROOT && p < DIRECTORY ==> PageAt(d, p) == old(PageAt(d, p))
        invariant forall p: nat, b: nat :: p < j && b < PAGE && PageAt(i, p) != null ==> PageAt(i, p)[b] == 0
        invariant forall p: Page, b: nat :: p in pages && b < PAGE ==> p[b] == old(p[b]) || p[b] == 0
      {
        var page := directory[j];
        if page != null {
          Fill(page);
        }
        j := j + 1;
      }
    }
  }

  /** memset of a page to zero. */
  method Fill(page: Page)
    requires page.Length == PAGE
    modifies page
    ensures forall b: nat :: b < PAGE ==> page[b] == 0
  {
    var b := 0;
    while b < PAGE
      invariant 0 <= b <= PAGE && forall c: nat :: c < b ==> page[c] == 0
    {
      page[b] := 0;
      b := b + 1;
    }
  }

  lemma IndicesDiffer(a: nat, b: nat)
    requires IsAligned(a) && IsAligned(b) && a != b
    ensures DirectoryIndex(a) != DirectoryIndex(b) || PageIndex(a) != PageIndex(b) ||
            ByteIndex(a) != ByteIndex(b) || BitIndex(a) != BitIndex(b)
  {
    hide *;
    if DirectoryIndex(a) == DirectoryIndex(b) && PageIndex(a) == PageIndex(b) && ByteIndex(a) == ByteIndex(b) &&
      BitIndex(a) == BitIndex(b)
    {
      IndicesAreInjective(a, b);
      assert false;
    }
  }
}
