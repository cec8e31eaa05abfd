/** kvm.rs on one flat memory: mapping and unmapping refine updates of partial maps, one
    per address space. Running out of pages, where the source panics, is an error result. */
module Kvm {
  import opened Words
  import opened PageAlloc
  import opened PageTable
  import opened PageTree
  import opened AddressSpaces
  import opened MemoryRuns

  /** Leaf permissions: valid, and some of R, W, X. */
  predicate MapFlags(flags: nat) { flags < 1024 && flags % 2 == 1 && LeafFlags(flags) }

  function PageDown(a: nat): nat { a - a % PAGE_SIZE }

  /** The end of a range rounded up; the addition wraps. */
  function RoundUp(a: U64): (r: nat)
    ensures r % PAGE_SIZE == 0
  {
    PageDown((a + PAGE_SIZE - 1) % U64_LIMIT)
  }

  /** The number of pages that `map_range` visits. */
  function RangePages(start: U64, end: U64): (n: nat)
    ensures PageDown(start) + n * PAGE_SIZE <= U64_LIMIT
    ensures n > 0 ==> PageDown(start) + n * PAGE_SIZE == RoundUp(end)
    ensures n == 0 <==> RoundUp(end) <= PageDown(start)
  {
    if PageDown(start) < RoundUp(end) then (RoundUp(end) - PageDown(start)) / PAGE_SIZE else 0
  }

  /** The first `n` pages of an identity mapping from `start`, one update after another. */
  ghost function MapFold(tr: map<nat, Walked>, start: nat, n: nat, flags: nat): map<nat, Walked>
    requires start + n * PAGE_SIZE <= U64_LIMIT
  {
    if n == 0 then tr
    else var a := start + (n - 1) * PAGE_SIZE; MapFold(tr, start, n - 1, flags)[VPage(a) := Walked(a, flags)]
  }

  lemma FoldNothing(views: Views, root: U64, start: nat, flags: nat)
    requires root in views && start <= U64_LIMIT
    ensures views == views[root := MapFold(views[root], start, 0, flags)]
  {
  }

  lemma FoldStep(views: Views, root: U64, start: nat, n: nat, flags: nat)
    requires root in views && start % PAGE_SIZE == 0 && start + (n + 1) * PAGE_SIZE <= U64_LIMIT
    ensures var a := start + n * PAGE_SIZE;
            && PageDown(a) == a
            && Mapped(views[root := MapFold(views[root], start, n, flags)], root, VPage(a), Walked(PageDown(a), flags))
               == views[root := MapFold(views[root], start, n + 1, flags)]
  {
    hide VPage;
  }

  /** Below 2^39 pages do not collide: the range is mapped to itself, the rest is as before. */
  lemma {:induction false} FoldIsIdentity(tr: map<nat, Walked>, start: nat, n: nat, flags: nat, v: nat)
    requires start % PAGE_SIZE == 0 && start + n * PAGE_SIZE <= VPAGES * PAGE_SIZE && v < VPAGES
    ensures var inside := start <= v * PAGE_SIZE < start + n * PAGE_SIZE;
            var after := MapFold(tr, start, n, flags);
            && (v in after <==> inside || v in tr)
            && (v in after ==> after[v] == if inside then Walked(v * PAGE_SIZE, flags) else tr[v])
    decreases n
  {
    if n > 0 {
      FoldIsIdentity(tr, start, n - 1, flags, v);
      var a := start + (n - 1) * PAGE_SIZE;
      assert VPage(a) * PAGE_SIZE == a;
    }
  }

  /** The addresses of pages counted from `base`. */
  ghost function Addresses(base: nat, pages: set<nat>): set<U64> {
    set n | n in pages && base + n * PAGE_SIZE < U64_LIMIT :: base + n * PAGE_SIZE
  }

  lemma AddressOf(base: nat, pages: set<nat>, a: U64)
    requires base % PAGE_SIZE == 0
    ensures a in Addresses(base, pages) <==> a >= base && a % PAGE_SIZE == 0 && (a - base) / PAGE_SIZE in pages
  {
    if a >= base && a % PAGE_SIZE == 0 {
      var n := (a - base) / PAGE_SIZE;
      assert a == base + n * PAGE_SIZE;
    }
  }

  lemma AddressesChange(base: nat, pages: set<nat>, n: nat)
    requires base + n * PAGE_SIZE < U64_LIMIT
    ensures var a: U64 := base + n * PAGE_SIZE;
            && Addresses(base, pages + {n}) == Addresses(base, pages) + {a}
            && Addresses(base, pages - {n}) == Addresses(base, pages) - {a}
            && (a in Addresses(base, pages) <==> n in pages)
  {
    var a: U64 := base + n * PAGE_SIZE;
    forall x | x in Addresses(base, pages) && x != a ensures x in Addresses(base, pages - {n}) {
      var k :| k in pages && x == base + k * PAGE_SIZE;
      assert k in pages - {n};
    }
    forall x | x in Addresses(base, pages) ensures x in Addresses(base, pages + {n}) {
      var k :| k in pages && x == base + k * PAGE_SIZE;
      assert k in pages + {n};
    }
    assert n in pages + {n};
  }

  class VirtualMemory {
    const mem: array<Byte>
    const allocator: BitmapAllocator
    const heap: Heap
    ghost var spaces: Spaces

    /** Pages outside the heap that processes may be given, such as that of the UART. */
    ghost const devices: set<U64>

    ghost predicate DevicesApart()
      reads this, allocator
    {
      forall d :: d in devices ==> allocator.PageOf(d).Err? && !heap.Contains(d)
    }

    ghost predicate Valid()
      reads this, mem, allocator, allocator.bitmap
    {
      && mem as object != allocator.bitmap as object
      && mem.Length == U64_LIMIT && allocator.Valid()
      && allocator.baseAddr + allocator.totalPages * PAGE_SIZE <= U64_LIMIT
      && DevicesApart() && Forest(mem[..], spaces) && OwnedBy(spaces, Used())
    }

    /** The addresses of the pages that cannot be allocated: those that are, and devices. */
    ghost function Used(): set<U64>
      requires allocator.Valid() && allocator.baseAddr + allocator.totalPages * PAGE_SIZE <= U64_LIMIT
      reads this, allocator, allocator.bitmap
    {
      Addresses(allocator.baseAddr, allocator.Pages()) + devices
    }

    /** The partial map of every address space. */
    ghost function View(): Views
      requires Valid()
      reads this, mem, allocator, allocator.bitmap
    {
      ViewsOf(mem[..], spaces)
    }

    constructor (memory: array<Byte>, pages: BitmapAllocator, region: Heap, ghost others: set<U64>)
      requires memory as object != pages.bitmap as object && memory.Length == U64_LIMIT
      requires pages.Valid() && pages.baseAddr + pages.totalPages * PAGE_SIZE <= U64_LIMIT
      requires forall d :: d in others ==> pages.PageOf(d).Err? && !region.Contains(d)
      ensures Valid() && View() == map[] && mem == memory && allocator == pages
      ensures heap == region && devices == others
    {
      mem, allocator, heap, devices := memory, pages, region, others;
      spaces := map[];
    }

    /** The state that the runs of memory calls speak of. */
    ghost function Snapshot(): VmState
      requires Valid()
      reads this, mem, allocator, allocator.bitmap
    {
      VmState(mem[..], spaces, Used())
    }

    // ---------- Raw memory ----------

    method ReadPte(table: U64, index: nat) returns (e: U64)
      requires mem.Length == U64_LIMIT && IsPage(table) && index < PT_ENTRIES
      ensures e == Entry(mem[..], table, index)
    {
      var a := table + index * 8;
      Widths();
      assert mem[..][a..a + 8] == mem[a..a + 8];
      e := FromBytes(mem[a..a + 8]);
    }

    method WritePte(table: U64, index: nat, e: U64)
      requires mem.Length == U64_LIMIT && IsPage(table) && index < PT_ENTRIES
      modifies mem
      ensures mem[..] == WriteWord(old(mem[..]), table + index * 8, e)
    {
      var a := table + index * 8;
      var bytes := ToBytes(e, 8);
      var i := 0;
      while i < 8
        invariant 0 <= i <= 8
        invariant mem[..] == old(mem[..])[..a] + bytes[..i] + old(mem[..])[a + i..]
      {
        mem[a + i] := bytes[i];
        i := i + 1;
      }
    }

    /** `zero_page`. */
    method ClearPage(p: U64)
      requires mem.Length == U64_LIMIT && IsPage(p)
      modifies mem
      ensures mem[..] == ZeroPage(old(mem[..]), p)
    {
      var i := 0;
      while i < PAGE_SIZE
        invariant 0 <= i <= PAGE_SIZE
        invariant mem[..] == old(mem[..])[..p] + seq(i, _ => 0) + old(mem[..])[p + i..]
      {
        mem[p + i] := 0;
        i := i + 1;
      }
    }

    /** A page that nobody used, now zero; an error exactly when none is left. */
    method AllocZeroedPage() returns (r: Result<U64>)
      requires Valid()
      modifies mem, allocator.bitmap
      ensures r.Err? <==> forall n :: 0 <= n < allocator.totalPages ==> n in old(allocator.Pages())
      ensures r.Err? ==> Valid() && mem[..] == old(mem[..]) && Used() == old(Used())
      ensures r.Ok? ==> IsPage(r.value) && r.value !in old(Used())
      ensures r.Ok? ==> mem[..] == ZeroPage(old(mem[..]), r.value)
      ensures r.Ok? ==> allocator.Valid() && Used() == old(Used()) + {r.value}
    {
      hide Forest, OwnedBy, PagesBelow, Addresses, ZeroPage;
      var a := allocator.Alloc();
      assert mem[..] == old(mem[..]);
      if a.Err? { return Err(a.error); }
      ghost var n :| 0 <= n < allocator.totalPages && a.value == allocator.baseAddr + n * PAGE_SIZE
                     && n !in old(allocator.Pages()) && allocator.Pages() == old(allocator.Pages()) + {n};
      AddedAddress(old(allocator.Pages()), n);
      ClearPage(a.value);
      return Ok(a.value);
    }

    lemma AddedAddress(before: set<nat>, n: nat)
      requires allocator.Valid() && allocator.baseAddr + allocator.totalPages * PAGE_SIZE <= U64_LIMIT
      requires n < allocator.totalPages && n !in before && allocator.Pages() == before + {n} && DevicesApart()
      ensures var page := allocator.baseAddr + n * PAGE_SIZE;
              var all := Addresses(allocator.baseAddr, before) + devices;
              IsPage(page) && page !in all && Used() == all + {page}
    {
      hide PagesBelow, Addresses;
      assert allocator.PageOf(allocator.baseAddr + n * PAGE_SIZE) == Ok(n);
      AddressesChange(allocator.baseAddr, before, n);
    }

    /** The table that an upper-level entry leads to, installed if the entry is invalid.
        The source asserts that a valid entry is a branch. */
    method WalkOrCreate(table: U64, index: nat) returns (r: Result<U64>)
      requires Valid() && IsPage(table) && index < PT_ENTRIES
      requires IsValid(Entry(mem[..], table, index)) ==> IsBranch(Entry(mem[..], table, index))
      modifies mem, allocator.bitmap
      ensures var e := old(Entry(mem[..], table, index));
              && (IsValid(e) ==> r == Ok(PhysAddr(e)))
              && (IsValid(e) || r.Err? ==> Valid() && mem[..] == old(mem[..]) && Used() == old(Used()))
              && (!IsValid(e) && r.Ok? ==> IsPage(r.value) && r.value !in old(Used()))
              && (!IsValid(e) && r.Ok? ==>
                    && mem[..] == WriteWord(ZeroPage(old(mem[..]), r.value), table + index * 8, BranchPte(r.value))
                    && allocator.Valid() && Used() == old(Used()) + {r.value})
    {
      var e := ReadPte(table, index);
      if IsValid(e) { return Ok(PhysAddr(e)); }
      r := AllocZeroedPage();
      if r.Ok? { WritePte(table, index, BranchPte(r.value)); }
    }

    /** `walk_or_create` on the root: the table of VPN[2]. The branch assertion holds, and
        no translation changes. */
    method MidTable(root: U64, ghost va: U64, i: nat) returns (r: Result<U64>)
      requires Valid() && root in spaces && VaParts(va).0 == i
      modifies this`spaces, mem, allocator.bitmap
      ensures Valid() && View() == old(View())
      ensures StepOn(old(mem[..]), old(spaces), old(Used()), mem[..], spaces, Used(), root)
      ensures r.Ok? ==> i in spaces[root].mid && r.value == spaces[root].mid[i]
    {
      hide Entry, WriteWord, ZeroPage, ViewsOf, NewPte, BranchPte, IsBranch, PhysAddr, VaParts, VPage, Forest;
      hide OwnedBy, StepOn, PagesBelow, Addresses;
      WayDown(mem[..], spaces, root, va);
      NoStep(mem[..], spaces, Used(), root);
      r := WalkOrCreate(root, i);
      if r.Ok? && i !in spaces[root].mid {
        ghost var n, after := AddMid(old(mem[..]), spaces, old(Used()), root, i, r.value);
        spaces := after;
        StepKeepsForest(old(mem[..]), old(spaces), old(Used()), mem[..], spaces, Used(), root);
      }
    }

    /** `walk_or_create` on a middle table: the last-level table. */
    method LastTable(ghost root: U64, ghost va: U64, table: U64, j: nat) returns (r: Result<U64>)
      requires Valid() && root in spaces && VaParts(va).1 == j
      requires VaParts(va).0 in spaces[root].mid && spaces[root].mid[VaParts(va).0] == table
      modifies this`spaces, mem, allocator.bitmap
      ensures Valid() && View() == old(View())
      ensures StepOn(old(mem[..]), old(spaces), old(Used()), mem[..], spaces, Used(), root)
      ensures r.Ok? ==> (VaParts(va).0, j) in spaces[root].last && r.value == spaces[root].last[(VaParts(va).0, j)]
    {
      hide Entry, WriteWord, ZeroPage, ViewsOf, NewPte, BranchPte, IsBranch, PhysAddr, VaParts, VPage, Forest;
      hide OwnedBy, StepOn, PagesBelow, Addresses;
      ghost var i := VaParts(va).0;
      WayDown(mem[..], spaces, root, va);
      NoStep(mem[..], spaces, Used(), root);
      r := WalkOrCreate(table, j);
      if r.Ok? && (i, j) !in spaces[root].last {
        ghost var n, after := AddLast(old(mem[..]), spaces, old(Used()), root, i, j, r.value);
        spaces := after;
        StepKeepsForest(old(mem[..]), old(spaces), old(Used()), mem[..], spaces, Used(), root);
      }
    }

    /** Maps one page: an update of the partial map of `root`; every other page and every
        other address space translates as before. Only table pages are written, and tables
        grow by pages that were not in use. */
    method MapPage(root: U64, va: U64, pa: U64, flags: nat) returns (ok: bool)
      requires Valid() && root in spaces && MapFlags(flags)
      modifies this`spaces, mem, allocator.bitmap
      ensures Valid()
      ensures View() == if ok then Mapped(old(View()), root, VPage(va), Walked(PageDown(pa), flags)) else old(View())
      ensures StepOn(old(mem[..]), old(spaces), old(Used()), mem[..], spaces, Used(), root)
    {
      hide Entry, WriteWord, ZeroPage, ViewsOf, NewPte, BranchPte, IsBranch, IsLeaf, PhysAddr, VaParts, VPage;
      hide Forest, OwnedBy, StepOn, PagesBelow, Addresses, Mapped;
      var (vpn2, vpn1, vpn0, _) := VaParts(va);
      var level1 := MidTable(root, va, vpn2);
      StepKeepsForest(old(mem[..]), old(spaces), old(Used()), mem[..], spaces, Used(), root);
      if level1.Err? { return false; }
      ghost var m1, s1, u1 := mem[..], spaces, Used();
      var level0 := LastTable(root, va, level1.value, vpn1);
      StepKeepsForest(m1, s1, u1, mem[..], spaces, Used(), root);
      TwoSteps(old(mem[..]), old(spaces), old(Used()), m1, s1, u1, mem[..], spaces, Used(), root);
      if level0.Err? { return false; }
      ghost var before := mem[..];
      PteRoundTrip(pa, flags);
      SetEntry(root, va, level0.value, NewPte(pa, flags));
      TwoSteps(old(mem[..]), old(spaces), old(Used()), before, spaces, Used(), mem[..], spaces, Used(), root);
      ok := true;
    }

    /** Writes a last-level entry: one update, or one removal, of the partial map. */
    method SetEntry(ghost root: U64, va: U64, table: U64, e: U64)
      requires Valid() && root in spaces && (!IsValid(e) || IsLeaf(e))
      requires var (i, j, _, _) := VaParts(va); (i, j) in spaces[root].last && spaces[root].last[(i, j)] == table
      modifies mem
      ensures Valid() && root in old(View()) && Used() == old(Used())
      ensures View() == if IsValid(e) then Mapped(old(View()), root, VPage(va), Walked(PhysAddr(e), e % 1024))
                        else Unmapped(old(View()), root, VPage(va))
      ensures StepOn(old(mem[..]), spaces, old(Used()), mem[..], spaces, Used(), root)
    {
      hide Entry, WriteWord, ViewsOf, IsLeaf, IsValid, PhysAddr, VaParts, VPage, Forest, OwnedBy, StepOn, PagesBelow;
      hide Addresses, Mapped, Unmapped;
      WayDown(mem[..], spaces, root, va);
      WritePte(table, VaParts(va).2, e);
      ghost var n := PutLeaf(old(mem[..]), spaces, Used(), root, va, e);
      StepKeepsForest(old(mem[..]), spaces, Used(), mem[..], spaces, Used(), root);
    }

    /** The last-level table that holds the valid entry of an address, if there is one. */
    method FindEntry(root: U64, va: U64) returns (found: bool, table: U64)
      requires Valid() && root in spaces
      ensures root in View() && (found <==> VPage(va) in View()[root])
      ensures var (i, j, _, _) := VaParts(va);
              found ==> (i, j) in spaces[root].last && spaces[root].last[(i, j)] == table
    {
      hide Entry, ViewsOf, IsBranch, IsLeaf, PhysAddr, VaParts, VPage, Forest, OwnedBy, PagesBelow, Addresses;
      var (vpn2, vpn1, vpn0, _) := VaParts(va);
      WayDown(mem[..], spaces, root, va);
      found, table := false, 0;
      var l2 := ReadPte(root, vpn2);
      if !IsValid(l2) || !IsBranch(l2) { return; }
      var l1 := ReadPte(PhysAddr(l2), vpn1);
      if !IsValid(l1) || !IsBranch(l1) { return; }
      table := PhysAddr(l1);
      var l0 := ReadPte(table, vpn0);
      found := IsValid(l0) && IsLeaf(l0);
    }

    /** Removes one page from the partial map, and says whether it was there. */
    method UnmapPage(root: U64, va: U64) returns (found: bool)
      requires Valid() && root in spaces
      modifies mem
      ensures Valid() && root in old(View())
      ensures found <==> VPage(va) in old(View())[root]
      ensures View() == Unmapped(old(View()), root, VPage(va))
      ensures StepOn(old(mem[..]), spaces, old(Used()), mem[..], spaces, Used(), root) && Used() == old(Used())
    {
      hide ViewsOf, VaParts, VPage, Forest, OwnedBy, StepOn, PagesBelow, Addresses, Unmapped;
      NoStep(mem[..], spaces, Used(), root);
      var table;
      found, table := FindEntry(root, va);
      UnmappedAbsent(View(), root, VPage(va));
      if found { SetEntry(root, va, table, 0); }
    }

    /** A zeroed page that is not a table of anyone. */
    method NewPage() returns (r: Result<U64>)
      requires Valid()
      modifies mem, allocator.bitmap
      ensures Valid() && View() == old(View())
      ensures r.Err? <==> forall n :: 0 <= n < allocator.totalPages ==> n in old(allocator.Pages())
      ensures r.Err? ==> mem[..] == old(mem[..]) && Used() == old(Used())
      ensures r.Ok? ==> IsPage(r.value) && r.value !in old(Used()) && Used() == old(Used()) + {r.value}
      ensures r.Ok? ==> mem[..] == ZeroPage(old(mem[..]), r.value)
    {
      hide ZeroPage, ViewsOf, Forest, OwnedBy, PagesBelow, Addresses;
      r := AllocZeroedPage();
      if r.Ok? { FreshPage(old(mem[..]), spaces, old(Used()), r.value); }
    }

    /** The root of a new address space, which maps nothing. */
    method NewSpace() returns (r: Result<U64>)
      requires Valid()
      modifies this`spaces, mem, allocator.bitmap
      ensures Valid() && View() == if r.Ok? then old(View())[r.value := map[]] else old(View())
      ensures r.Ok? ==> r.value !in old(spaces) && r.value !in old(Used()) && Used() == old(Used()) + {r.value}
      ensures r.Ok? ==> spaces == old(spaces)[r.value := Tree(r.value, map[], map[])]
      ensures r.Ok? ==> ChangedOnly(old(mem[..]), mem[..], {r.value})
      ensures r.Err? ==> spaces == old(spaces)
    {
      hide ZeroPage, ViewsOf, Forest, OwnedBy, PagesBelow, Addresses, ChangedOnly;
      r := AllocZeroedPage();
      if r.Ok? {
        AddRoot(old(mem[..]), spaces, old(Used()), r.value);
        ZeroChanges(old(mem[..]), r.value);
        FreshRoot(old(mem[..]), spaces, old(Used()), r.value);
        spaces := spaces[r.value := Tree(r.value, map[], map[])];
      }
    }

    /** Identity-maps the pages that meet [start, end): a fold of single updates. */
    method MapRange(root: U64, start: U64, end: U64, flags: nat) returns (ok: bool)
      requires Valid() && root in spaces && MapFlags(flags)
      modifies this`spaces, mem, allocator.bitmap
      ensures Valid() && root in old(View())
      ensures StepOn(old(mem[..]), old(spaces), old(Used()), mem[..], spaces, Used(), root)
      ensures exists n: nat ::
                && (ok ==> n == RangePages(start, end)) && n <= RangePages(start, end)
                && View() == old(View())[root := MapFold(old(View())[root], PageDown(start), n, flags)]
    {
      hide ViewsOf, VPage, Forest, OwnedBy, StepOn, PagesBelow, Addresses, MapFlags, MapFold, Mapped, RangePages;
      var endAligned := RoundUp(end);
      var addr := PageDown(start);
      ghost var n, pages, view := 0, RangePages(start, end), View();
      NoStep(mem[..], spaces, Used(), root);
      FoldNothing(view, root, addr, flags);
      while addr < endAligned
        invariant Valid() && root in spaces && root in view
        invariant n <= pages && addr == PageDown(start) + n * PAGE_SIZE
        invariant StepOn(old(mem[..]), old(spaces), old(Used()), mem[..], spaces, Used(), root)
        invariant View() == view[root := MapFold(view[root], PageDown(start), n, flags)]
        decreases endAligned - addr
      {
        ghost var before, s, used := mem[..], spaces, Used();
        ok := MapPage(root, addr, addr, flags);
        StepKeepsForest(before, s, used, mem[..], spaces, Used(), root);
        TwoSteps(old(mem[..]), old(spaces), old(Used()), before, s, used, mem[..], spaces, Used(), root);
        if !ok { return false; }
        FoldStep(view, root, PageDown(start), n, flags);
        n := n + 1;
        addr := addr + PAGE_SIZE;
      }
      ok := true;
    }

    // ---------- System calls ----------

    method SysMap(satp: U64, phys: U64, virt: U64, flags: U64) returns (r: CallResult)
      requires Valid() && SatpToRoot(satp) in spaces
      modifies this`spaces, mem, allocator.bitmap
      ensures Valid() && SatpToRoot(satp) in old(View())
      ensures r == Refused <==> !MapAllowed(heap, old(Snapshot()), phys, virt, flags)
      ensures View() == if r == Done
              then Mapped(old(View()), SatpToRoot(satp), VPage(virt), Walked(phys, MapFlagsOf(flags)))
                        else old(View())
      ensures r == Refused ==> mem[..] == old(mem[..])
      ensures StepOn(old(mem[..]), old(spaces), old(Used()), mem[..], spaces, Used(), SatpToRoot(satp))
      ensures VmStep(heap, old(Snapshot()), Map(satp, phys, virt, flags), r, Snapshot())
    {
      hide ViewsOf, VPage, Forest, OwnedBy, StepOn, PagesBelow, Addresses, SatpToRoot, Mapped;
      var root := SatpToRoot(satp);
      NoStep(mem[..], spaces, Used(), root);
      if phys % PAGE_SIZE != 0 || virt % PAGE_SIZE != 0 { return Refused; }
      if !IsUserVa(virt) { return Refused; }
      var taken := allocator.IsAllocated(phys);
      UsedPage(phys);
      if !taken { return Refused; }
      if !heap.Contains(phys) { return Refused; }
      if flags > 1 { return Refused; }
      var ok := MapPage(root, virt, phys, MapFlagsOf(flags));
      r := if ok then Done else OutOfPages;
    }

    method SysUnmap(satp: U64, virt: U64) returns (r: CallResult)
      requires Valid() && SatpToRoot(satp) in spaces
      modifies mem
      ensures Valid() && SatpToRoot(satp) in old(View()) && Used() == old(Used())
      ensures r == Done <==> virt % PAGE_SIZE == 0 && IsUserVa(virt) && VPage(virt) in old(View())[SatpToRoot(satp)]
      ensures r == Done || (r == Refused && View() == old(View()))
      ensures r == Done ==> View() == Unmapped(old(View()), SatpToRoot(satp), VPage(virt))
      ensures StepOn(old(mem[..]), spaces, old(Used()), mem[..], spaces, Used(), SatpToRoot(satp))
      ensures VmStep(heap, old(Snapshot()), Unmap(satp, virt), r, Snapshot())
    {
      hide ViewsOf, VPage, Forest, OwnedBy, StepOn, PagesBelow, Addresses, SatpToRoot;
      var root := SatpToRoot(satp);
      NoStep(mem[..], spaces, Used(), root);
      if virt % PAGE_SIZE != 0 { return Refused; }
      if !IsUserVa(virt) { return Refused; }
      UnmappedAbsent(View(), root, VPage(virt));
      var found := UnmapPage(root, virt);
      r := if found then Done else Refused;
    }

    /** Zeroes and frees a page. The tables stay in order exactly when it was not one of
        them; the call does not check. */
    method SysFreePages(phys: U64, count: U64) returns (r: CallResult)
      requires Valid()
      modifies mem, allocator.bitmap
      ensures r == Done <==> count == 1 && phys % PAGE_SIZE == 0 && phys in old(Used()) && phys !in devices
      ensures r == Done || (r == Refused && Valid() && View() == old(View()) && Used() == old(Used()))
      ensures r == Done ==> (Valid() <==> phys !in Tables(spaces))
      ensures r == Done && phys !in Tables(spaces) ==> View() == old(View()) && Used() == old(Used()) - {phys}
      ensures allocator.Valid() && VmStep(heap, old(Snapshot()), Free(phys), r, VmState(mem[..], spaces, Used()))
    {
      hide ViewsOf, Forest, OwnedBy, PagesBelow, Addresses, ZeroPage;
      if count != 1 { return Refused; }
      if phys % PAGE_SIZE != 0 { return Refused; }
      var taken := allocator.IsAllocated(phys);
      UsedPage(phys);
      if !taken { return Refused; }
      assert IsPage(phys);
      ClearPage(phys);
      var freed := allocator.Free(phys);
      assert mem[..] == ZeroPage(old(mem[..]), phys);
      AddressesChange(allocator.baseAddr, old(allocator.Pages()), allocator.PageOf(phys).value);
      assert Used() == old(Used()) - {phys};
      FreedPage(old(mem[..]), spaces, old(Used()), phys);
      r := Done;
    }

    /** `sys_alloc_pages`: a zeroed page. */
    method SysAllocPages(count: U64) returns (r: CallResult, page: U64)
      requires Valid()
      modifies mem, allocator.bitmap
      ensures Valid() && View() == old(View())
      ensures r == Done ==> count == 1 && page !in old(Used()) && Used() == old(Used()) + {page}
      ensures r == Refused <==> count != 1 || forall n :: 0 <= n < allocator.totalPages ==> n in old(allocator.Pages())
      ensures VmStep(heap, old(Snapshot()), Alloc, r, Snapshot())
    {
      hide ViewsOf, Forest, OwnedBy, PagesBelow, Addresses, ZeroPage;
      page := 0;
      if count != 1 { return Refused, page; }
      var p := NewPage();
      if p.Err? { return Refused, page; }
      r, page := Done, p.value;
      assert Snapshot() == VmState(ZeroPage(old(mem[..]), page), spaces, old(Used()) + {page});
    }

    /** What the hardware does when a user program stores a byte. With the tables out of
        reach it changes no translation. */
    method UserStore(satp: U64, va: U64, byte: Byte) returns (r: CallResult)
      requires Valid() && SatpToRoot(satp) in spaces
      modifies mem
      ensures VmStep(heap, old(Snapshot()), Store(satp, va, byte), r, VmState(mem[..], spaces, Used()))
      ensures r == Refused ==> mem[..] == old(mem[..])
      ensures old(Guarded(Snapshot())) ==> Valid() && View() == old(View()) && Guarded(Snapshot())
    {
      hide ViewsOf, Forest, OwnedBy, PagesBelow, Addresses, Walk, SatpToRoot, Guarded, Has;
      ghost var s := Snapshot();
      var root := SatpToRoot(satp);
      RootIsPage(mem[..], spaces, root);
      var w := WalkLevels(mem[..], root, va);
      if w == None || !Has(w.value.flags, FLAG_U) || !Has(w.value.flags, FLAG_W) { return Refused; }
      mem[w.value.phys] := byte;
      r := Done;
      if Guarded(s) { StoreKeepsGuarded(heap, s, satp, va, byte, r, VmState(mem[..], spaces, Used())); }
    }

    lemma UsedPage(phys: U64)
      requires Valid()
      ensures phys in Used() && phys !in devices
              <==> allocator.PageOf(phys).Ok? && allocator.PageOf(phys).value in allocator.Pages()
      ensures phys in Used() && phys !in devices ==> IsPage(phys)
      ensures phys in devices ==> !heap.Contains(phys)
    {
      hide Forest, OwnedBy, Addresses;
      AddressOf(allocator.baseAddr, allocator.Pages(), phys);
    }

    /** One call, other than the loading of a program, or one store of a user program. Unless
        it maps or frees a table or frees a page that is still mapped, the tables stay in
        order and out of reach, and no translation outside the user range changes. */
    method Handle(c: VmCall) returns (r: CallResult)
      requires Valid() && Guarded(Snapshot()) && Harmless(Snapshot(), c) && !c.Spawn?
      requires c.Map? || c.Unmap? || c.Store? ==> SatpToRoot(c.satp) in spaces
      modifies this`spaces, mem, allocator.bitmap
      ensures Valid() && Guarded(Snapshot()) && KernelHalves(View()) == KernelHalves(old(View()))
      ensures VmStep(heap, old(Snapshot()), c, r, Snapshot())
    {
      hide ViewsOf, Forest, OwnedBy, StepOn, PagesBelow, SatpToRoot, Guarded, KernelHalves, Harmless, VmStep, Tables;
      hide Addresses;
      ghost var s := Snapshot();
      match c {
        case Map(satp, phys, virt, flags) => r := SysMap(satp, phys, virt, flags);
        case Unmap(satp, virt) => r := SysUnmap(satp, virt);
        case Alloc => var page; r, page := SysAllocPages(1);
        case Free(phys) =>
          HarmlessFree(s, phys);
          r := SysFreePages(phys, 1);
        case Store(satp, va, byte) => r := UserStore(satp, va, byte);
      }
      CallKeepsAll(heap, s, c, r, Snapshot());
    }

    /** Any run of map and unmap calls of any processes, with allocations in between, and
        whatever pages they map, leaves every translation outside the user range alone, in
        every address space. */
    method Serve(calls: seq<VmCall>)
      requires Valid()
      requires forall k :: 0 <= k < |calls| ==> calls[k].Alloc? || calls[k].Map? || calls[k].Unmap?
      requires forall k :: 0 <= k < |calls| && !calls[k].Alloc? ==> SatpToRoot(calls[k].satp) in spaces
      modifies this`spaces, mem, allocator.bitmap
      ensures Valid() && KernelHalves(View()) == KernelHalves(old(View()))
    {
      hide ViewsOf, VPage, Forest, OwnedBy, StepOn, PagesBelow, Addresses, SatpToRoot, Mapped, Unmapped, KernelHalves;
      var k := 0;
      while k < |calls|
        invariant 0 <= k <= |calls| && Valid() && spaces.Keys == old(spaces.Keys)
        invariant KernelHalves(View()) == KernelHalves(old(View()))
      {
        ghost var before, s, used, view := mem[..], spaces, Used(), View();
        match calls[k] {
          case Map(satp, phys, virt, flags) =>
            var r := SysMap(satp, phys, virt, flags);
            StepKeepsForest(before, s, used, mem[..], spaces, Used(), SatpToRoot(satp));
            if r == Done {
              MapKeepsKernelHalf(view, SatpToRoot(satp), virt, Walked(phys, MapFlagsOf(flags)));
            } else if r == OutOfPages {
              return;
            }
          case Unmap(satp, virt) =>
            var r := SysUnmap(satp, virt);
            if r == Done { MapKeepsKernelHalf(view, SatpToRoot(satp), virt, Walked(0, 0)); }
          case Alloc =>
            var r := NewPage();
        }
        k := k + 1;
      }
    }
  }
}
