/** Runs of the memory system calls together with the stores of user programs, over all
    address spaces: what keeps the page tables out of reach, and what follows from it. */
module MemoryRuns {
  import opened Words
  import opened PageAlloc
  import opened PageTable
  import opened PageTree
  import opened AddressSpaces

  const USER_VA_START := 0x5000_0000
  const USER_VA_END := 0x8000_0000

  predicate IsUserVa(va: nat) { USER_VA_START <= va < USER_VA_END }

  /** Memory, page tables and the addresses of the pages that cannot be allocated: those that
      are, and those of devices. */
  datatype VmState = VmState(m: seq<Byte>, spaces: Spaces, used: set<U64>)

  /** The tables are in order and allocated. */
  ghost predicate VmOk(s: VmState) {
    |s.m| == U64_LIMIT && Forest(s.m, s.spaces) && OwnedBy(s.spaces, s.used)
  }

  /** The partial map of every address space. */
  ghost function Seen(s: VmState): Views
    requires VmOk(s)
  {
    ViewsOf(s.m, s.spaces)
  }

  datatype CallResult = Done | Refused | OutOfPages

  /** The memory calls of processes, named by their satp, a store that a user program makes to
      an address of its own, and the loading of a program under the new root `root`. */
  datatype VmCall =
    | Map(satp: U64, phys: U64, virt: U64, flags: U64)
    | Unmap(satp: U64, virt: U64)
    | Alloc
    | Free(phys: U64)
    | Store(satp: U64, va: U64, byte: Byte)
    | Spawn(root: U64)

  /** What `sys_map` accepts. */
  ghost predicate MapAllowed(heap: Heap, s: VmState, phys: U64, virt: U64, flags: U64) {
    && phys % PAGE_SIZE == 0 && virt % PAGE_SIZE == 0 && IsUserVa(virt)
    && phys in s.used && heap.Contains(phys) && flags <= 1
  }

  function MapFlagsOf(flags: U64): nat { if flags == 0 then USER_RW else USER_RX }

  /** The byte that a store of a user program changes: it needs a writable user page. */
  function StoreTarget(m: seq<Byte>, root: U64, va: U64): Option<U64>
    requires |m| == U64_LIMIT && IsPage(root)
  {
    match Walk(m, root, va)
    case None => None
    case Some(w) => if Has(w.flags, FLAG_U) && Has(w.flags, FLAG_W) then Some(w.phys) else None
  }

  /** Pages that are in use and no tables stay so, with their bytes. */
  ghost predicate DataKept(s: VmState, t: VmState) {
    && |s.m| == |t.m| == U64_LIMIT
    && forall q: U64 :: q in s.used && q !in Tables(s.spaces) ==>
         && q in t.used && q !in Tables(t.spaces)
         && (IsPage(q) ==> t.m[q..q + PAGE_SIZE] == s.m[q..q + PAGE_SIZE])
  }

  /** From `s` to `t` data pages are kept, and of the address spaces only `root` changed, or
      came into being. */
  ghost predicate Evolves(s: VmState, t: VmState, root: U64) {
    && VmOk(s) && VmOk(t) && DataKept(s, t) && s.spaces.Keys <= t.spaces.Keys && root in t.spaces
    && root in Seen(t) && Seen(t) == Seen(s)[root := Seen(t)[root]]
  }

  /** A new address space, whose user translations lead to data pages. */
  ghost predicate NewSpace(s: VmState, t: VmState, root: U64) {
    && Evolves(s, t, root) && root !in Seen(s)
    && forall v :: v in Seen(t)[root] ==> Safe(t, Seen(t)[root][v])
  }

  /** One call, from `s` to `t` with result `r`. */
  ghost predicate VmStep(heap: Heap, s: VmState, c: VmCall, r: CallResult, t: VmState)
    requires VmOk(s)
  {
    match c
    case Map(satp, phys, virt, flags) =>
      var root := SatpToRoot(satp);
      && StepOn(s.m, s.spaces, s.used, t.m, t.spaces, t.used, root) && VmOk(t) && root in Seen(s)
      && (r == Refused <==> !MapAllowed(heap, s, phys, virt, flags))
      && Seen(t) == if r == Done then Mapped(Seen(s), root, VPage(virt), Walked(phys, MapFlagsOf(flags))) else Seen(s)
    case Unmap(satp, virt) =>
      var root := SatpToRoot(satp);
      && t.spaces == s.spaces && t.used == s.used && VmOk(t) && root in Seen(s)
      && (r == Done <==> virt % PAGE_SIZE == 0 && IsUserVa(virt) && VPage(virt) in Seen(s)[root])
      && Seen(t) == if r == Done then Unmapped(Seen(s), root, VPage(virt)) else Seen(s)
    case Alloc =>
      if r == Done then
        exists p: U64 ::
          p !in s.used && IsPage(p) && t == VmState(ZeroPage(s.m, p), s.spaces, s.used + {p})
      else t == s
    case Free(phys) =>
      if r == Done then phys in s.used && IsPage(phys) && t == VmState(ZeroPage(s.m, phys), s.spaces, s.used - {phys})
      else t == s
    case Store(satp, va, byte) =>
      var root := SatpToRoot(satp);
      && root in s.spaces
      && var target := StoreTarget(s.m, root, va);
         && (r == Done <==> target.Some?)
         && t == if r == Done then s.(m := s.m[target.value := byte]) else s
    case Spawn(root) => if r == Done then NewSpace(s, t, root) else t == s
  }

  // ---------- Tables out of reach ----------

  /** No page table can be reached from user mode: every user translation leads to an
      allocated page that is not a table. */
  ghost predicate Guarded(s: VmState)
    requires VmOk(s)
  {
    forall r, v {:trigger Seen(s)[r][v]} :: r in Seen(s) && v in Seen(s)[r] ==> Safe(s, Seen(s)[r][v])
  }

  ghost predicate Safe(s: VmState, w: Walked) {
    Has(w.flags, FLAG_U) ==> w.phys in s.used && w.phys !in Tables(s.spaces)
  }

  /** Some user translation leads to the page. */
  ghost predicate UserMapped(s: VmState, p: U64)
    requires VmOk(s)
  {
    exists r, v :: r in Seen(s) && v in Seen(s)[r] && Has(Seen(s)[r][v].flags, FLAG_U) && Seen(s)[r][v].phys == p
  }

  /** Mapping or freeing no table, and freeing no page that is still mapped. */
  ghost predicate Harmless(s: VmState, c: VmCall)
    requires VmOk(s)
  {
    match c
    case Map(_, phys, _, _) => phys !in Tables(s.spaces)
    case Free(phys) => phys !in Tables(s.spaces) && !UserMapped(s, phys)
    case _ => true
  }

  /** The heap check does not keep tables from being mapped: tables are allocated pages of
      the heap like any other, and the call accepts them. */
  lemma TablesCanBeMapped(heap: Heap, s: VmState, root: U64)
    requires VmOk(s) && root in s.spaces && heap.Contains(root)
    ensures root in Tables(s.spaces) && MapAllowed(heap, s, root, USER_VA_START, 0)
    ensures forall satp: U64, flags: U64 :: !Harmless(s, Map(satp, root, USER_VA_START, flags))
  {
    RootIsPage(s.m, s.spaces, root);
  }

  // ---------- One step ----------

  lemma UserFlags(flags: U64)
    ensures Has(MapFlagsOf(flags), FLAG_U)
  {
  }

  /** What the flag argument of `sys_map` means: 0 for a page to write, 1 for one to execute,
      and neither gives both. */
  lemma MapPermissions(flags: U64)
    requires flags <= 1
    ensures var f := MapFlagsOf(flags);
            && Has(f, FLAG_V) && Has(f, FLAG_R) && Has(f, FLAG_U)
            && (Has(f, FLAG_W) <==> flags == 0) && (Has(f, FLAG_X) <==> flags == 1)
  {
  }

  /** Tables only take in pages that were not in use. */
  lemma GrownTables(s: VmState, t: VmState, root: U64)
    requires StepOn(s.m, s.spaces, s.used, t.m, t.spaces, t.used, root)
    ensures Tables(s.spaces) <= Tables(t.spaces) && s.used <= t.used
    ensures forall p :: p in s.used && p in Tables(t.spaces) ==> p in Tables(s.spaces)
  {
    hide Forest, OwnedBy, TablePages, ChangedOnly;
    forall p | p in Tables(s.spaces) ensures p in Tables(t.spaces) {
      var r, q :| r in s.spaces && q in TablePages(s.spaces[r]) && q == p;
      assert r in t.spaces && p in TablePages(t.spaces[r]);
    }
    forall p | p in s.used && p in Tables(t.spaces) ensures p in Tables(s.spaces) {
      var r, q :| r in t.spaces && q in TablePages(t.spaces[r]) && q == p;
      assert r in s.spaces && p in TablePages(s.spaces[r]);
    }
  }

  /** `sys_map` keeps the tables out of reach if and only if it did not map one. */
  lemma MapKeepsGuarded(heap: Heap, s: VmState, satp: U64, phys: U64, virt: U64, flags: U64, r: CallResult, t: VmState)
    requires VmOk(s) && Guarded(s) && VmStep(heap, s, Map(satp, phys, virt, flags), r, t)
    ensures VmOk(t)
    ensures r == Done ==> (Guarded(t) <==> phys !in Tables(s.spaces))
    ensures r != Done ==> Guarded(t)
  {
    hide VmOk, StepOn, Seen, Tables, MapFlagsOf, SatpToRoot, VPage, Has;
    var root := SatpToRoot(satp);
    GrownTables(s, t, root);
    UserFlags(flags);
    var w := Walked(phys, MapFlagsOf(flags));
    forall q, v | q in Seen(t) && v in Seen(t)[q] && !(r == Done && q == root && v == VPage(virt))
      ensures Safe(t, Seen(t)[q][v])
    {
      assert Seen(t)[q][v] == Seen(s)[q][v];
    }
    if r == Done {
      assert Seen(t)[root][VPage(virt)] == w;
      assert Safe(t, w) <==> phys !in Tables(s.spaces);
    }
  }

  lemma UnmapKeepsGuarded(heap: Heap, s: VmState, satp: U64, virt: U64, r: CallResult, t: VmState)
    requires VmOk(s) && Guarded(s) && VmStep(heap, s, Unmap(satp, virt), r, t)
    ensures VmOk(t) && Guarded(t)
  {
    hide VmOk, Seen, Tables, SatpToRoot, VPage, Has;
    forall q, v | q in Seen(t) && v in Seen(t)[q] ensures Safe(t, Seen(t)[q][v]) {
      assert Seen(t)[q][v] == Seen(s)[q][v];
    }
  }

  lemma AllocKeepsGuarded(heap: Heap, s: VmState, r: CallResult, t: VmState)
    requires VmOk(s) && Guarded(s) && VmStep(heap, s, Alloc, r, t)
    ensures VmOk(t) && Guarded(t) && Seen(t) == Seen(s)
  {
    hide Forest, OwnedBy, ViewsOf, Tables, Has, ZeroPage;
    if r == Done {
      var p :| p !in s.used && IsPage(p) && t == VmState(ZeroPage(s.m, p), s.spaces, s.used + {p});
      FreshPage(s.m, s.spaces, s.used, p);
      forall q, v | q in Seen(t) && v in Seen(t)[q] ensures Safe(t, Seen(t)[q][v]) {
        assert Safe(s, Seen(s)[q][v]);
      }
    }
  }

  /** Freeing keeps the tables in order and out of reach if and only if the page was no
      table and no user translation led to it. */
  lemma FreeKeepsGuarded(heap: Heap, s: VmState, phys: U64, r: CallResult, t: VmState)
    requires VmOk(s) && Guarded(s) && VmStep(heap, s, Free(phys), r, t)
    ensures r == Done ==> ((VmOk(t) && Guarded(t)) <==> Harmless(s, Free(phys)))
    ensures r == Done && VmOk(t) ==> Seen(t) == Seen(s)
    ensures r != Done ==> t == s
  {
    hide Forest, OwnedBy, ViewsOf, Tables, Has, ZeroPage;
    if r == Done {
      FreedPage(s.m, s.spaces, s.used, phys);
      if VmOk(t) {
        if UserMapped(s, phys) {
          var q, v :| q in Seen(s) && v in Seen(s)[q] && Has(Seen(s)[q][v].flags, FLAG_U) && Seen(s)[q][v].phys == phys;
          assert !Safe(t, Seen(t)[q][v]);
        } else {
          forall q, v | q in Seen(t) && v in Seen(t)[q] ensures Safe(t, Seen(t)[q][v]) {
            assert Safe(s, Seen(s)[q][v]);
          }
        }
      }
    }
  }

  /** What a walk finds is a page of the view, and an offset into it. */
  lemma WalkedPage(s: VmState, root: U64, va: U64)
    requires VmOk(s) && root in s.spaces
    ensures IsPage(root) && root in Seen(s)
    ensures var w := Walk(s.m, root, va);
            w.Some? ==> && VPage(va) in Seen(s)[root] && w.value.flags == Seen(s)[root][VPage(va)].flags
                        && w.value.phys - w.value.phys % PAGE_SIZE == Seen(s)[root][VPage(va)].phys
  {
    hide Walk, VPage, Forest, OwnedBy, Translations, ViewsOf;
    RootIsPage(s.m, s.spaces, root);
    SameView(s.m, s.spaces, root);
    WalkIsLookup(s.m, root, va);
    if VPage(va) in Translations(s.m, root) {
      MapsToPages(s.m, root, VPage(va));
      Offset(Translations(s.m, root)[VPage(va)].phys, va % 4096);
    }
  }

  lemma Offset(p: nat, o: nat)
    requires p % PAGE_SIZE == 0 && o < PAGE_SIZE
    ensures (p + o) % PAGE_SIZE == o
  {
  }

  lemma MapsToPages(m: seq<Byte>, root: U64, v: nat)
    requires |m| == U64_LIMIT && IsPage(root) && v in Translations(m, root)
    ensures Translations(m, root)[v].phys % PAGE_SIZE == 0
  {
    hide Entry, IsBranch, IsLeaf, PhysAddr;
    assert v < VPAGES && VaParts(v * 4096).3 == 0;
  }

  lemma StoreKeepsGuarded(heap: Heap, s: VmState, satp: U64, va: U64, byte: Byte, r: CallResult, t: VmState)
    requires VmOk(s) && Guarded(s) && VmStep(heap, s, Store(satp, va, byte), r, t)
    ensures VmOk(t) && Guarded(t) && Seen(t) == Seen(s)
  {
    hide Forest, OwnedBy, ViewsOf, SatpToRoot, Walk, VPage, Has;
    if r == Done {
      var root := SatpToRoot(satp);
      WalkedPage(s, root, va);
      var a := StoreTarget(s.m, root, va).value;
      var p := a - a % PAGE_SIZE;
      assert Safe(s, Seen(s)[root][VPage(va)]);
      assert ChangedOnly(s.m, t.m, {p});
      DataWrites(s.m, t.m, s.spaces, {p});
      forall q, v | q in Seen(t) && v in Seen(t)[q] ensures Safe(t, Seen(t)[q][v]) {
        assert Safe(s, Seen(s)[q][v]);
      }
    }
  }

  lemma SpawnKeepsGuarded(heap: Heap, s: VmState, root: U64, r: CallResult, t: VmState)
    requires VmOk(s) && Guarded(s) && VmStep(heap, s, Spawn(root), r, t)
    ensures VmOk(t) && Guarded(t)
    ensures r == Done ==> root !in Seen(s) && root in Seen(t) && Seen(t) == Seen(s)[root := Seen(t)[root]]
    ensures r != Done ==> t == s
  {
    hide Forest, OwnedBy, ViewsOf, Tables, Has;
    if r == Done {
      forall q, v | q in Seen(t) && v in Seen(t)[q] ensures Safe(t, Seen(t)[q][v]) {
        if q != root { assert Seen(t)[q][v] == Seen(s)[q][v] && Safe(s, Seen(s)[q][v]); }
      }
    }
  }

  // ---------- What a mapped table leads to ----------

  /** Two steps of one process undo a translation of the kernel: it maps its own root at the
      start of the user range, which is not refused, and stores a zero through it. Page `v`
      is any page outside the user range that was mapped. */
  lemma MappedTableLosesKernelPage(
      heap: Heap, s: VmState, satp: U64, v: nat, r: CallResult, t: VmState, r1: CallResult, u: VmState)
    requires VmOk(s) && SatpToRoot(satp) in s.spaces && heap.Contains(SatpToRoot(satp))
    requires SatpToRoot(satp) in Seen(s) && v in Seen(s)[SatpToRoot(satp)] && v < VPAGES && !IsUserVa(v * PAGE_SIZE)
    requires VmStep(heap, s, Map(satp, SatpToRoot(satp), USER_VA_START, 0), r, t)
    requires VmStep(heap, t, Store(satp, USER_VA_START + VaParts(v * PAGE_SIZE).0 * 8, 0), r1, u)
    ensures r == Done || r == OutOfPages
    ensures r == Done ==>
              && r1 == Done && IsPage(SatpToRoot(satp)) && |u.m| == U64_LIMIT
              && Walk(s.m, SatpToRoot(satp), v * PAGE_SIZE).Some?
              && Walk(u.m, SatpToRoot(satp), v * PAGE_SIZE) == None
  {
    hide Forest, OwnedBy, ViewsOf, SatpToRoot, VPage, Walk, StepOn, VaParts, StoreTarget, MapFlagsOf;
    var root := SatpToRoot(satp);
    TablesCanBeMapped(heap, s, root);
    if r == Done {
      SeenPageWalks(s, root, v);
      StoreReachesRoot(t, root, VaParts(v * PAGE_SIZE).0);
      ZeroByteInvalidates(t.m, root, v * PAGE_SIZE);
    }
  }

  lemma SeenPageWalks(s: VmState, root: U64, v: nat)
    requires VmOk(s) && root in s.spaces && root in Seen(s) && v in Seen(s)[root] && v < VPAGES
    ensures IsPage(root) && Walk(s.m, root, v * PAGE_SIZE).Some?
  {
    hide Forest, OwnedBy, ViewsOf, VPage, Translations, Walk;
    RootIsPage(s.m, s.spaces, root);
    SameView(s.m, s.spaces, root);
    PageItself(v);
    WalkIsLookup(s.m, root, v * PAGE_SIZE);
  }

  /** With the root mapped at the start of the user range, user mode writes its entries. */
  lemma StoreReachesRoot(t: VmState, root: U64, i: nat)
    requires VmOk(t) && root in t.spaces && root in Seen(t) && VPage(USER_VA_START) in Seen(t)[root]
    requires Seen(t)[root][VPage(USER_VA_START)] == Walked(root, MapFlagsOf(0)) && i < PT_ENTRIES
    ensures IsPage(root) && StoreTarget(t.m, root, USER_VA_START + i * 8) == Some(root + i * 8)
  {
    hide Forest, OwnedBy, ViewsOf, VPage, Translations, Walk, Has, MapFlagsOf;
    RootIsPage(t.m, t.spaces, root);
    SameView(t.m, t.spaces, root);
    InStartPage(i);
    WalkIsLookup(t.m, root, USER_VA_START + i * 8);
    WritableUser();
  }

  lemma PageItself(v: nat)
    requires v < VPAGES
    ensures VPage(v * PAGE_SIZE) == v
  {
    assert v * PAGE_SIZE / PAGE_SIZE == v;
  }

  lemma InStartPage(i: nat)
    requires i < PT_ENTRIES
    ensures VPage(USER_VA_START + i * 8) == VPage(USER_VA_START) && (USER_VA_START + i * 8) % PAGE_SIZE == i * 8
  {
  }

  lemma WritableUser()
    ensures Has(MapFlagsOf(0), FLAG_U) && Has(MapFlagsOf(0), FLAG_W)
  {
  }

  /** Bit 0 of the first byte of an entry says whether it is valid. */
  lemma ZeroByteInvalidates(m: seq<Byte>, root: U64, va: U64)
    requires |m| == U64_LIMIT && IsPage(root)
    ensures root + VaParts(va).0 * 8 < U64_LIMIT && Walk(m[root + VaParts(va).0 * 8 := 0], root, va) == None
  {
    hide VaParts, PhysAddr;
    var a := root + VaParts(va).0 * 8;
    var n := m[a := 0];
    var bytes := n[a..a + 8];
    assert bytes[0] == 0 && FromBytes(bytes) == bytes[0] + 256 * FromBytes(bytes[1..]);
  }

  // ---------- The kernel half ----------

  /** What an address space translates outside the user range. */
  ghost function KernelHalf(tr: map<nat, Walked>): map<nat, Walked> {
    map v | v in tr && !IsUserVa(v * PAGE_SIZE) :: tr[v]
  }

  ghost function KernelHalves(views: Views): Views {
    map r | r in views :: KernelHalf(views[r])
  }

  /** Every address space of `before` is still there, with its kernel half. */
  ghost predicate HalvesKept(before: Views, after: Views) {
    forall r :: r in before ==> r in after && KernelHalf(after[r]) == KernelHalf(before[r])
  }

  lemma SameHalves(before: Views, after: Views)
    requires KernelHalves(after) == KernelHalves(before)
    ensures HalvesKept(before, after) && after.Keys == before.Keys
  {
    hide KernelHalf;
    assert KernelHalves(after).Keys == after.Keys && KernelHalves(before).Keys == before.Keys;
    forall r | r in before ensures KernelHalf(after[r]) == KernelHalf(before[r]) {
      assert KernelHalves(after)[r] == KernelHalves(before)[r];
    }
  }

  lemma UserPageChanged(tr: map<nat, Walked>, v: nat, w: Walked)
    requires IsUserVa(v * PAGE_SIZE)
    ensures KernelHalf(tr[v := w]) == KernelHalf(tr) && KernelHalf(tr - {v}) == KernelHalf(tr)
  {
  }

  lemma MapKeepsKernelHalf(views: Views, root: U64, virt: U64, w: Walked)
    requires root in views && IsUserVa(virt) && virt % PAGE_SIZE == 0
    ensures KernelHalves(Mapped(views, root, VPage(virt), w)) == KernelHalves(views)
    ensures KernelHalves(Unmapped(views, root, VPage(virt))) == KernelHalves(views)
  {
    hide KernelHalf;
    var v := VPage(virt);
    assert v * PAGE_SIZE == virt;
    UserPageChanged(views[root], v, w);
  }

  // ---------- Runs ----------

  /** One harmless step keeps everything; a step that did nothing always does. */
  lemma StepKeepsAll(heap: Heap, s: VmState, c: VmCall, r: CallResult, t: VmState)
    requires VmOk(s) && Guarded(s) && VmStep(heap, s, c, r, t) && (r == Done ==> Harmless(s, c))
    ensures VmOk(t) && Guarded(t) && HalvesKept(Seen(s), Seen(t))
    ensures Seen(t).Keys == Seen(s).Keys + if c.Spawn? && r == Done then {c.root} else {}
  {
    hide VmOk, Guarded, Seen, Harmless, StepOn, Tables, KernelHalves, Mapped, Unmapped, SatpToRoot, VPage, UserMapped;
    hide HalvesKept, NewSpace;
    if c.Spawn? {
      SpawnKeepsGuarded(heap, s, c.root, r, t);
      AddedSpace(Seen(s), Seen(t), c.root);
    } else {
      CallKeepsAll(heap, s, c, r, t);
      SameHalves(Seen(s), Seen(t));
    }
  }

  lemma AddedSpace(before: Views, after: Views, root: U64)
    ensures root in after && after == before[root := after[root]] && root !in before ==> HalvesKept(before, after)
    ensures HalvesKept(before, before)
  {
    hide KernelHalf;
  }

  /** Any call but a spawn keeps the kernel halves as they are. */
  lemma CallKeepsAll(heap: Heap, s: VmState, c: VmCall, r: CallResult, t: VmState)
    requires VmOk(s) && Guarded(s) && VmStep(heap, s, c, r, t) && (r == Done ==> Harmless(s, c)) && !c.Spawn?
    ensures VmOk(t) && Guarded(t) && KernelHalves(Seen(t)) == KernelHalves(Seen(s))
  {
    hide VmOk, Guarded, Seen, Harmless, StepOn, Tables, KernelHalves, Mapped, Unmapped, SatpToRoot, VPage, UserMapped;
    match c
    case Map(satp, phys, virt, flags) =>
      MapKeepsGuarded(heap, s, satp, phys, virt, flags, r, t);
      HarmlessMap(s, satp, phys, virt, flags);
      if r == Done { MapKeepsKernelHalf(Seen(s), SatpToRoot(satp), virt, Walked(phys, MapFlagsOf(flags))); }
    case Unmap(satp, virt) =>
      UnmapKeepsGuarded(heap, s, satp, virt, r, t);
      if r == Done { MapKeepsKernelHalf(Seen(s), SatpToRoot(satp), virt, Walked(0, 0)); }
    case Alloc => AllocKeepsGuarded(heap, s, r, t);
    case Free(phys) => FreeKeepsGuarded(heap, s, phys, r, t);
    case Store(satp, va, byte) => StoreKeepsGuarded(heap, s, satp, va, byte, r, t);
  }

  lemma HarmlessMap(s: VmState, satp: U64, phys: U64, virt: U64, flags: U64)
    requires VmOk(s)
    ensures Harmless(s, Map(satp, phys, virt, flags)) <==> phys !in Tables(s.spaces)
  {
  }

  lemma HarmlessFree(s: VmState, phys: U64)
    requires VmOk(s) && Harmless(s, Free(phys))
    ensures phys !in Tables(s.spaces)
  {
  }

  /** States, calls and results that follow each other. */
  ghost predicate IsVmRun(heap: Heap, states: seq<VmState>, calls: seq<VmCall>, results: seq<CallResult>) {
    && |states| == |calls| + 1 == |results| + 1
    && forall k {:trigger calls[k]} :: 0 <= k < |calls| && VmOk(states[k]) ==>
         VmStep(heap, states[k], calls[k], results[k], states[k + 1])
  }

  ghost predicate AllHarmless(states: seq<VmState>, calls: seq<VmCall>, results: seq<CallResult>)
    requires |states| == |calls| + 1 == |results| + 1
  {
    forall k {:trigger calls[k]} :: 0 <= k < |calls| && VmOk(states[k]) && results[k] == Done ==>
        Harmless(states[k], calls[k])
  }

  /** The address spaces that `calls` create. */
  ghost function Spawned(calls: seq<VmCall>, results: seq<CallResult>): set<U64>
    requires |calls| == |results|
  {
    set k | 0 <= k < |calls| && calls[k].Spawn? && results[k] == Done :: calls[k].root
  }

  /** Over any run of map, unmap, alloc, free and spawn calls and user stores, in which no call
      maps or frees a table or frees a mapped page: the tables stay in order and out of reach;
      there are the address spaces of the start and those that were spawned; and in each of
      them no translation outside the user range changes, from any time `i` at which it is
      there to any later time `j`. */
  lemma {:induction false} RunKeepsKernelHalf(
      heap: Heap, states: seq<VmState>, calls: seq<VmCall>, results: seq<CallResult>, i: nat, j: nat)
    requires IsVmRun(heap, states, calls, results) && AllHarmless(states, calls, results) && i <= j < |states|
    requires VmOk(states[i]) && Guarded(states[i])
    ensures VmOk(states[j]) && Guarded(states[j]) && HalvesKept(Seen(states[i]), Seen(states[j]))
    ensures Seen(states[j]).Keys == Seen(states[i]).Keys + Spawned(calls[i..j], results[i..j])
    decreases j
  {
    hide VmOk, Guarded, Seen, Harmless, VmStep, KernelHalf;
    if i < j {
      RunKeepsKernelHalf(heap, states, calls, results, i, j - 1);
      var c := calls[j - 1];
      StepKeepsAll(heap, states[j - 1], c, results[j - 1], states[j]);
      SpawnedMore(calls[i..j], results[i..j], j - 1 - i);
      assert calls[i..j][..j - 1 - i] == calls[i..j - 1] && results[i..j][..j - 1 - i] == results[i..j - 1];
    }
  }

  lemma SpawnedMore(calls: seq<VmCall>, results: seq<CallResult>, n: nat)
    requires |calls| == |results| == n + 1
    ensures Spawned(calls, results)
            == Spawned(calls[..n], results[..n]) + if calls[n].Spawn? && results[n] == Done then {calls[n].root} else {}
  {
    forall r | r in Spawned(calls[..n], results[..n]) ensures r in Spawned(calls, results) {
      var k :| 0 <= k < n && calls[..n][k].Spawn? && results[..n][k] == Done && r == calls[..n][k].root;
      assert calls[k] == calls[..n][k];
    }
    forall r | r in Spawned(calls, results) && !(calls[n].Spawn? && results[n] == Done && r == calls[n].root)
      ensures r in Spawned(calls[..n], results[..n])
    {
      var k :| 0 <= k <= n && calls[k].Spawn? && results[k] == Done && r == calls[k].root;
      assert calls[..n][k] == calls[k];
    }
  }
}
