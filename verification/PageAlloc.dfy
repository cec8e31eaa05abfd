/** The bitmap page allocator (page_alloc.rs) refines a set of page numbers. */
module PageAlloc {
  import opened Bits

  const PAGE_SIZE := 4096
  const MAX_PAGES := 32768
  const BITMAP_WORDS := 512
  const ALL_ONES := 0xFFFF_FFFF_FFFF_FFFF

  datatype AllocError = OutOfMemory | DoubleFree | InvalidAddress | NotAligned

  datatype Result<+T> = Ok(value: T) | Err(error: AllocError)

  /** The region that pages are allocated from, between the linker symbols `_end` and
      `_heap_end`; user pages lie in it. */
  datatype Heap = Heap(start: nat, end: nat) {
    predicate Contains(pa: nat) { start <= pa < end }
  }

  /** A page is in the heap if all of its bytes are. */
  lemma HeapPage(heap: Heap, p: nat)
    requires heap.start % PAGE_SIZE == 0 && heap.end % PAGE_SIZE == 0 && p % PAGE_SIZE == 0
    ensures heap.Contains(p) <==> heap.start <= p && p + PAGE_SIZE <= heap.end
  {
  }

  lemma WordSize()
    ensures Pow2(64) == 0x1_0000_0000_0000_0000
  {
    assert Pow2(8) == 256;
    assert Pow2(16) == 0x1_0000 by { assert Pow2(12) == 16 * Pow2(8); }
    assert Pow2(32) == 0x1_0000_0000 by {
      assert Pow2(20) == 16 * Pow2(16); assert Pow2(24) == 16 * Pow2(20); assert Pow2(28) == 16 * Pow2(24);
      assert Pow2(32) == 16 * Pow2(28);
    }
    assert Pow2(64) == 0x1_0000_0000_0000_0000 by {
      assert Pow2(36) == 16 * Pow2(32); assert Pow2(40) == 16 * Pow2(36); assert Pow2(44) == 16 * Pow2(40);
      assert Pow2(48) == 16 * Pow2(44); assert Pow2(52) == 16 * Pow2(48); assert Pow2(56) == 16 * Pow2(52);
      assert Pow2(60) == 16 * Pow2(56); assert Pow2(64) == 16 * Pow2(60);
    }
  }

  ghost predicate PageBit(bitmap: seq<nat>, p: nat)
    requires p < 64 * |bitmap|
  {
    Bit(bitmap[p / 64], p % 64)
  }

  /** The pages below `n` whose bit is set. */
  ghost function PagesBelow(bitmap: seq<nat>, n: nat): set<nat>
    requires n <= 64 * |bitmap|
  {
    set p | 0 <= p < n && PageBit(bitmap, p)
  }

  ghost function CountPages(bitmap: seq<nat>, n: nat): nat
    requires n <= 64 * |bitmap|
  {
    if n == 0 then 0 else CountPages(bitmap, n - 1) + (if PageBit(bitmap, n - 1) then 1 else 0)
  }

  lemma {:induction false} CountIsCardinality(bitmap: seq<nat>, n: nat)
    requires n <= 64 * |bitmap|
    ensures |PagesBelow(bitmap, n)| == CountPages(bitmap, n)
  {
    if n == 0 {
      assert PagesBelow(bitmap, 0) == {};
    } else {
      CountIsCardinality(bitmap, n - 1);
      var rest := PagesBelow(bitmap, n - 1);
      if PageBit(bitmap, n - 1) {
        assert PagesBelow(bitmap, n) == rest + {n - 1};
      } else {
        assert PagesBelow(bitmap, n) == rest;
      }
    }
  }

  lemma {:induction false} WordAdds(bitmap: seq<nat>, k: nat, j: nat)
    requires k < |bitmap| && j <= 64
    ensures CountPages(bitmap, 64 * k + j) == CountPages(bitmap, 64 * k) + CountBits(bitmap[k], j)
    decreases j
  {
    if j > 0 {
      WordAdds(bitmap, k, j - 1);
      var p := 64 * k + j - 1;
      assert p / 64 == k && p % 64 == j - 1;
    }
  }

  /** One more word adds its `count_ones`. */
  lemma WordCount(bitmap: seq<nat>, k: nat)
    requires k < |bitmap| && bitmap[k] < Pow2(64)
    ensures CountPages(bitmap, 64 * (k + 1)) == CountPages(bitmap, 64 * k) + CountOnes(bitmap[k])
  {
    hide Pow2, CountBits, CountPages, CountOnes;
    WordAdds(bitmap, k, 64);
    CountOnesCounts(bitmap[k], 64);
  }

  /** No set bits between `n` and `m`: the counts agree. */
  lemma {:induction false} CountStops(bitmap: seq<nat>, n: nat, m: nat)
    requires n <= m <= 64 * |bitmap| && forall p :: n <= p < m ==> !PageBit(bitmap, p)
    ensures CountPages(bitmap, m) == CountPages(bitmap, n)
    decreases m - n
  {
    if n < m { CountStops(bitmap, n, m - 1); }
  }

  class BitmapAllocator {
    const bitmap: array<nat>
    const baseAddr: nat
    const totalPages: nat

    ghost predicate Valid()
      reads this, bitmap
    {
      && bitmap.Length == BITMAP_WORDS
      && baseAddr % PAGE_SIZE == 0 && 0 < totalPages <= MAX_PAGES
      && (forall k :: 0 <= k < BITMAP_WORDS ==> bitmap[k] < Pow2(64))
      && (forall p :: totalPages <= p < MAX_PAGES ==> !PageBit(bitmap[..], p))
    }

    /** The numbers of the allocated pages. */
    ghost function Pages(): set<nat>
      requires Valid()
      reads this, bitmap
    {
      PagesBelow(bitmap[..], totalPages)
    }

    constructor (base: nat, numPages: nat)
      requires base % PAGE_SIZE == 0 && 0 < numPages <= MAX_PAGES
      ensures Valid() && fresh(bitmap) && Pages() == {} && baseAddr == base && totalPages == numPages
    {
      bitmap := new nat[BITMAP_WORDS](_ => 0);
      baseAddr := base;
      totalPages := numPages;
      new;
      forall p | 0 <= p < MAX_PAGES ensures !PageBit(bitmap[..], p) { ZeroHasNoBits(p % 64); }
    }

    method SetPage(p: nat)
      requires Valid() && p < totalPages && p !in Pages()
      modifies bitmap
      ensures Valid() && Pages() == old(Pages()) + {p}
    {
      hide Bit, Pow2, SetBit;
      var k, j := p / 64, p % 64;
      bitmap[k] := SetBit(bitmap[k], j);
      BitsFit(old(bitmap[k]), j, 64);
      forall q | 0 <= q < MAX_PAGES ensures PageBit(bitmap[..], q) <==> q == p || old(PageBit(bitmap[..], q)) {
        SetBitBits(old(bitmap[k]), j, q % 64);
        assert q == q / 64 * 64 + q % 64;
      }
    }

    method ClearPage(p: nat)
      requires Valid() && p < totalPages
      modifies bitmap
      ensures Valid() && Pages() == old(Pages()) - {p}
    {
      hide Bit, Pow2, ClearBit;
      var k, j := p / 64, p % 64;
      bitmap[k] := ClearBit(bitmap[k], j);
      BitsFit(old(bitmap[k]), j, 64);
      forall q | 0 <= q < MAX_PAGES ensures PageBit(bitmap[..], q) <==> q != p && old(PageBit(bitmap[..], q)) {
        ClearBitBits(old(bitmap[k]), j, q % 64);
        assert q == q / 64 * 64 + q % 64;
      }
    }

    /** The lowest free page, or an error exactly when no page is free. */
    method Alloc() returns (r: Result<nat>)
      requires Valid()
      modifies bitmap
      ensures Valid()
      ensures r.Err? <==> forall p :: 0 <= p < totalPages ==> p in old(Pages())
      ensures r.Err? ==> r.error == OutOfMemory && Pages() == old(Pages())
      ensures r.Ok? ==> exists p ::
                && 0 <= p < totalPages && r.value == baseAddr + p * PAGE_SIZE
                && p !in old(Pages()) && (forall q :: 0 <= q < p ==> q in old(Pages()))
                && Pages() == old(Pages()) + {p}
    {
      hide Bit, Pow2, LowestClear;
      var words := (totalPages + 63) / 64;
      var i := 0;
      while i < words
        invariant 0 <= i <= words
        invariant bitmap[..] == old(bitmap[..])
        invariant forall q :: 0 <= q < 64 * i ==> PageBit(bitmap[..], q)
      {
        var word := bitmap[i];
        WordSize();
        LowestClearIsLowest(word, 64);
        if word == ALL_ONES {
          forall q | 64 * i <= q < 64 * (i + 1) ensures PageBit(bitmap[..], q) { assert q / 64 == i && q % 64 < 64; }
          i := i + 1;
          continue;
        }
        var bit := LowestClear(word);
        var page := i * 64 + bit;
        forall q | 64 * i <= q < page ensures PageBit(bitmap[..], q) { assert q / 64 == i && q % 64 == q - 64 * i; }
        assert page / 64 == i && page % 64 == bit;
        assert !PageBit(bitmap[..], page);
        if page >= totalPages {
          return Err(OutOfMemory);
        }
        assert page !in old(Pages());
        assert forall q :: 0 <= q < page ==> q in old(Pages());
        SetPage(page);
        return Ok(baseAddr + page * PAGE_SIZE);
      }
      return Err(OutOfMemory);
    }

    /** The page number of an address that the allocator manages. */
    function PageOf(addr: nat): Result<nat> {
      if addr % PAGE_SIZE != 0 then Err(NotAligned)
      else if addr < baseAddr then Err(InvalidAddress)
      else if (addr - baseAddr) / PAGE_SIZE >= totalPages then Err(InvalidAddress)
      else Ok((addr - baseAddr) / PAGE_SIZE)
    }

    /** Frees an allocated page; every error leaves the set as it was. */
    method Free(addr: nat) returns (r: Result<()>)
      requires Valid()
      modifies bitmap
      ensures Valid()
      ensures PageOf(addr).Err? ==> r == Err(PageOf(addr).error)
      ensures PageOf(addr).Ok? ==> (r == Ok(()) <==> PageOf(addr).value in old(Pages()))
      ensures r.Err? ==> Pages() == old(Pages())
      ensures r.Ok? ==> Pages() == old(Pages()) - {PageOf(addr).value}
      ensures PageOf(addr).Ok? && r.Err? ==> r.error == DoubleFree
    {
      if addr % PAGE_SIZE != 0 { return Err(NotAligned); }
      if addr < baseAddr { return Err(InvalidAddress); }
      var page := (addr - baseAddr) / PAGE_SIZE;
      if page >= totalPages { return Err(InvalidAddress); }
      if !Bit(bitmap[page / 64], page % 64) { return Err(DoubleFree); }
      ClearPage(page);
      return Ok(());
    }

    method MarkAllocated(addr: nat) returns (r: Result<()>)
      requires Valid()
      modifies bitmap
      ensures Valid()
      ensures PageOf(addr).Err? ==> r == Err(PageOf(addr).error)
      ensures PageOf(addr).Ok? ==> (r == Ok(()) <==> PageOf(addr).value !in old(Pages()))
      ensures r.Err? ==> Pages() == old(Pages())
      ensures r.Ok? ==> Pages() == old(Pages()) + {PageOf(addr).value}
    {
      if addr % PAGE_SIZE != 0 { return Err(NotAligned); }
      if addr < baseAddr { return Err(InvalidAddress); }
      var page := (addr - baseAddr) / PAGE_SIZE;
      if page >= totalPages { return Err(InvalidAddress); }
      if Bit(bitmap[page / 64], page % 64) { return Err(DoubleFree); }
      SetPage(page);
      return Ok(());
    }

    method IsAllocated(addr: nat) returns (b: bool)
      requires Valid()
      ensures b <==> PageOf(addr).Ok? && PageOf(addr).value in Pages()
    {
      if addr % PAGE_SIZE != 0 || addr < baseAddr { return false; }
      var page := (addr - baseAddr) / PAGE_SIZE;
      if page >= totalPages { return false; }
      b := Bit(bitmap[page / 64], page % 64);
    }

    /** The sum of the population counts is the size of the set. */
    method AllocatedCount() returns (count: nat)
      requires Valid()
      ensures count == |Pages()| <= totalPages
    {
      hide Bit, Pow2, CountOnes, CountBits;
      var words := (totalPages + 63) / 64;
      count := 0;
      var i := 0;
      while i < words
        invariant 0 <= i <= words && count == CountPages(bitmap[..], 64 * i)
      {
        WordCount(bitmap[..], i);
        count := count + CountOnes(bitmap[i]);
        i := i + 1;
      }
      CountStops(bitmap[..], totalPages, 64 * words);
      CountIsCardinality(bitmap[..], totalPages);
      CountBounded(bitmap[..], totalPages);
    }

    /** Conservation: allocated and free pages make up the total. */
    method FreeCount() returns (count: nat)
      requires Valid()
      ensures count + |Pages()| == totalPages
    {
      var inUse := AllocatedCount();
      count := totalPages - inUse;
    }
  }

  lemma {:induction false} CountBounded(bitmap: seq<nat>, n: nat)
    requires n <= 64 * |bitmap|
    ensures CountPages(bitmap, n) <= n
  {
    if n > 0 { CountBounded(bitmap, n - 1); }
  }
}
