/** Loading an executable into a new address space (syscall.rs, lifecycle.rs): the pages
    read back through the new table are the image that the segments describe. */
module ElfLoader {
  import opened Words
  import opened PageAlloc
  import opened PageTable
  import opened PageTree
  import opened AddressSpaces
  import opened MemoryRuns
  import opened Kvm

  datatype LoadSegment = LoadSegment(fileOffset: U64, vaddr: U64, filesz: U64, memsz: U64, executable: bool)

  const STACK_VA := 0x7FFF_0000

  /** `pages_needed`, with its wrapping sums. Where nothing wraps, the pages from the start
      of the first one cover the segment and end within a page of it. */
  function PagesNeeded(memsz: U64, vaddr: U64): (n: nat)
    ensures vaddr + memsz + PAGE_SIZE <= U64_LIMIT ==>
              && PageDown(vaddr) + n * PAGE_SIZE <= U64_LIMIT
              && vaddr + memsz <= PageDown(vaddr) + n * PAGE_SIZE < vaddr + memsz + PAGE_SIZE
  {
    var bytes := (RoundUp((vaddr + memsz) % U64_LIMIT) - PageDown(vaddr)) % U64_LIMIT;
    assert vaddr + memsz + PAGE_SIZE <= U64_LIMIT ==> WholePages(memsz, vaddr, bytes) by {
      if vaddr + memsz + PAGE_SIZE <= U64_LIMIT { RoundsToPages(memsz, vaddr); }
    }
    bytes / PAGE_SIZE
  }

  predicate WholePages(memsz: U64, vaddr: U64, bytes: nat) {
    bytes == bytes / PAGE_SIZE * PAGE_SIZE && vaddr + memsz <= PageDown(vaddr) + bytes < vaddr + memsz + PAGE_SIZE
  }

  lemma RoundsToPages(memsz: U64, vaddr: U64)
    requires vaddr + memsz + PAGE_SIZE <= U64_LIMIT
    ensures WholePages(memsz, vaddr, (RoundUp((vaddr + memsz) % U64_LIMIT) - PageDown(vaddr)) % U64_LIMIT)
  {
    hide PageDown, WholePages;
    var end := vaddr + memsz;
    var from, to := vaddr / PAGE_SIZE, (end + PAGE_SIZE - 1) / PAGE_SIZE;
    NoWrap(end);
    NoWrap(end + PAGE_SIZE - 1);
    DownToPage(vaddr);
    DownToPage(end + PAGE_SIZE - 1);
    hide RoundUp;
    Between(from, to, vaddr, end);
    NoWrap((to - from) * PAGE_SIZE);
    assert WholePages(memsz, vaddr, (to - from) * PAGE_SIZE) by { WholePagesFrom(memsz, vaddr, to - from); }
  }

  lemma NoWrap(x: int)
    requires 0 <= x < U64_LIMIT
    ensures x % U64_LIMIT == x
  {
  }

  lemma DownToPage(a: nat)
    ensures PageDown(a) == a / PAGE_SIZE * PAGE_SIZE
  {
  }

  lemma WholePagesFrom(memsz: U64, vaddr: U64, n: nat)
    requires n * PAGE_SIZE / PAGE_SIZE == n
    requires vaddr + memsz <= PageDown(vaddr) + n * PAGE_SIZE < vaddr + memsz + PAGE_SIZE
    ensures WholePages(memsz, vaddr, n * PAGE_SIZE)
  {
  }

  lemma Between(from: nat, to: nat, vaddr: nat, end: nat)
    requires from == vaddr / PAGE_SIZE && to == (end + PAGE_SIZE - 1) / PAGE_SIZE && vaddr <= end
    ensures from <= to && end <= to * PAGE_SIZE < end + PAGE_SIZE
    ensures (to - from) * PAGE_SIZE / PAGE_SIZE == to - from
  {
  }

  /** What a pointer into the file reads at each offset: the bytes of the file and, since the
      loader does not check again, whatever lies beyond. */
  datatype File = File(data: seq<Byte>, beyond: U64 -> Byte)

  function ByteAt(file: File, i: U64): Byte { if i < |file.data| then file.data[i] else file.beyond(i) }

  /** The check of `parse` on the file range of a segment, with its wrapping sum. */
  predicate ParseAccepts(seg: LoadSegment, file: File) { (seg.fileOffset + seg.filesz) % U64_LIMIT <= |file.data| }

  /** The check does its work if and only if the sum does not wrap: then, and only then, all
      bytes of an accepted segment lie in the file. */
  lemma AcceptedInFileIff(seg: LoadSegment, file: File)
    requires ParseAccepts(seg, file) && |file.data| < U64_LIMIT
    ensures seg.fileOffset + seg.filesz < U64_LIMIT
            <==> forall k: nat {:trigger FileOffset(seg, k)} :: k < seg.filesz ==> FileOffset(seg, k) < |file.data|
    ensures seg.fileOffset + seg.filesz < U64_LIMIT <==> seg.fileOffset + seg.filesz <= |file.data|
  {
    if seg.fileOffset + seg.filesz >= U64_LIMIT {
      var k: nat := U64_LIMIT - 1 - seg.fileOffset;
      assert k < seg.filesz && FileOffset(seg, k) == U64_LIMIT - 1;
    }
  }

  /** Where byte `k` of the segment is read. */
  function FileOffset(seg: LoadSegment, k: nat): U64 { (seg.fileOffset + k) % U64_LIMIT }

  /** What flags let a process do with a page of a segment: read it, and either execute or
      write it. */
  predicate Permits(flags: nat, executable: bool) {
    && Has(flags, FLAG_V) && Has(flags, FLAG_R) && Has(flags, FLAG_U)
    && (Has(flags, FLAG_X) <==> executable) && (Has(flags, FLAG_W) <==> !executable)
  }

  lemma SegmentPermits(seg: LoadSegment)
    ensures Permits(SegmentFlags(seg), seg.executable)
  {
  }

  function SegmentFlags(seg: LoadSegment): nat { if seg.executable then USER_RX else USER_RW }

  /** The loader copies the byte at `a` from the file: nothing is copied if the end of the
      segment's data wraps, nor into the last page of the address space, whose end does. */
  predicate Copied(seg: LoadSegment, a: U64) {
    && seg.vaddr + seg.filesz < U64_LIMIT && seg.vaddr <= a < seg.vaddr + seg.filesz
    && PageDown(a) + PAGE_SIZE < U64_LIMIT
  }

  /** The byte that the segment puts at `a`: from the file, or zero. */
  function ImageByte(seg: LoadSegment, file: File, a: U64): Byte {
    if Copied(seg, a) then ByteAt(file, FileOffset(seg, a - seg.vaddr)) else 0
  }

  /** Physical page `p` holds what the segment puts at the page `va`. */
  ghost predicate PageHolds(m: seq<Byte>, p: U64, seg: LoadSegment, file: File, va: U64)
    requires |m| == U64_LIMIT && IsPage(p) && IsPage(va)
  {
    forall a :: p <= a < p + PAGE_SIZE ==> m[a] == ImageByte(seg, file, va + (a - p))
  }

  // ---------- What loading leaves alone ----------

  lemma Stays(s: VmState, root: U64)
    requires VmOk(s) && root in s.spaces
    ensures Evolves(s, s, root)
  {
    hide Forest, OwnedBy, Tables;
  }

  lemma EvolvesTwice(s: VmState, t: VmState, u: VmState, root: U64)
    requires Evolves(s, t, root) && Evolves(t, u, root)
    ensures Evolves(s, u, root)
  {
    hide VmOk, Tables, Seen;
  }

  lemma EvolvesFacts(s: VmState, t: VmState, root: U64)
    requires Evolves(s, t, root)
    ensures VmOk(s) && VmOk(t) && root in t.spaces && root in Seen(t) && |t.m| == |s.m| == U64_LIMIT
    ensures s.spaces.Keys <= t.spaces.Keys
  {
    hide Tables, Seen, Forest, OwnedBy;
  }

  lemma PageUnchanged(m: seq<Byte>, n: seq<Byte>, pages: set<U64>, q: U64)
    requires ChangedOnly(m, n, pages) && IsPage(q) && q !in pages
    ensures n[q..q + PAGE_SIZE] == m[q..q + PAGE_SIZE]
  {
    forall a | q <= a < q + PAGE_SIZE ensures n[a] == m[a] { assert a - a % PAGE_SIZE == q; }
  }

  /** Mapping pages is such a change. */
  lemma StepEvolves(s: VmState, t: VmState, root: U64, tr: map<nat, Walked>)
    requires StepOn(s.m, s.spaces, s.used, t.m, t.spaces, t.used, root)
    requires VmOk(s) && VmOk(t) && Seen(t) == Seen(s)[root := tr]
    ensures Evolves(s, t, root) && Seen(t)[root] == tr
  {
    hide Forest, OwnedBy, ViewsOf, Tables, TablePages;
    GrownTables(s, t, root);
    forall q: U64 | q in s.used && q !in Tables(s.spaces) && IsPage(q)
      ensures t.m[q..q + PAGE_SIZE] == s.m[q..q + PAGE_SIZE]
    {
      TableIsListed(t.spaces, root, q);
      PageUnchanged(s.m, t.m, TablePages(t.spaces[root]), q);
    }
  }

  lemma TableIsListed(spaces: Spaces, root: U64, q: U64)
    requires root in spaces
    ensures q in TablePages(spaces[root]) ==> q in Tables(spaces)
  {
  }

  /** So is taking a page that nobody used, for data. */
  lemma FreshData(s: VmState, n: seq<Byte>, p: U64, root: U64)
    requires VmOk(s) && IsPage(p) && p !in s.used && ChangedOnly(s.m, n, {p}) && root in s.spaces
    ensures var t := VmState(n, s.spaces, s.used + {p});
            Evolves(s, t, root) && p !in Tables(s.spaces) && Seen(t) == Seen(s)
  {
    hide TablePages, TreeOk, ViewsOf;
    DataWrites(s.m, n, s.spaces, {p});
    forall q: U64 | q in s.used && IsPage(q) ensures n[q..q + PAGE_SIZE] == s.m[q..q + PAGE_SIZE] {
      PageUnchanged(s.m, n, {p}, q);
    }
  }

  lemma KeptPage(s: VmState, t: VmState, root: U64, q: U64)
    requires Evolves(s, t, root) && q in s.used && q !in Tables(s.spaces) && IsPage(q)
    ensures |s.m| == |t.m| == U64_LIMIT
    ensures q in t.used && q !in Tables(t.spaces) && t.m[q..q + PAGE_SIZE] == s.m[q..q + PAGE_SIZE]
  {
    hide Tables, VmOk, Seen;
  }

  // ---------- One page ----------

  /** The bytes [copyStart, copyEnd) of the page `va` come from the file. */
  function CopyStart(seg: LoadSegment, va: U64): nat { if seg.vaddr > va then seg.vaddr else va }
  function CopyEnd(seg: LoadSegment, va: U64): nat {
    var segEnd, pageEnd := (seg.vaddr + seg.filesz) % U64_LIMIT, (va + PAGE_SIZE) % U64_LIMIT;
    if segEnd < pageEnd then segEnd else pageEnd
  }

  lemma CopiedPart(seg: LoadSegment, va: U64, a: U64)
    requires IsPage(va) && va <= a < va + PAGE_SIZE
    ensures Copied(seg, a) <==> CopyStart(seg, va) <= a < CopyEnd(seg, va)
  {
    assert PageDown(a) == va;
  }

  lemma CopyFits(seg: LoadSegment, va: U64)
    requires IsPage(va) && CopyStart(seg, va) < CopyEnd(seg, va)
    ensures va <= CopyStart(seg, va) < CopyEnd(seg, va) <= va + PAGE_SIZE
  {
  }

  /** The bytes of the segment from `k` on. */
  function FileBytes(seg: LoadSegment, file: File, k: nat, len: nat): (s: seq<Byte>)
    ensures |s| == len
  {
    seq<Byte>(len, b requires 0 <= b < len => ByteAt(file, FileOffset(seg, k + b)))
  }

  ghost function Fill(m: seq<Byte>, p: U64, seg: LoadSegment, file: File, va: U64): seq<Byte>
    requires |m| == U64_LIMIT && IsPage(p) && IsPage(va)
  {
    var start, end := CopyStart(seg, va), CopyEnd(seg, va);
    if start < end then
      CopyFits(seg, va);
      m[..p + (start - va)] + FileBytes(seg, file, start - seg.vaddr, end - start) + m[p + (end - va)..]
    else m
  }

  lemma FillHolds(m: seq<Byte>, p: U64, seg: LoadSegment, file: File, va: U64)
    requires |m| == U64_LIMIT && IsPage(p) && IsPage(va)
    ensures var n := Fill(ZeroPage(m, p), p, seg, file, va);
            ChangedOnly(m, n, {p}) && PageHolds(n, p, seg, file, va)
  {
    hide Copied, CopyStart, CopyEnd, ByteAt, FileOffset;
    var z := ZeroPage(m, p);
    ZeroChanges(m, p);
    var n := Fill(z, p, seg, file, va);
    if CopyStart(seg, va) < CopyEnd(seg, va) { CopyFits(seg, va); }
    forall a | 0 <= a < U64_LIMIT && a - a % PAGE_SIZE != p ensures n[a] == z[a] {
      assert a < p || a >= p + PAGE_SIZE;
    }
    forall a | p <= a < p + PAGE_SIZE ensures n[a] == ImageByte(seg, file, va + (a - p)) {
      CopiedPart(seg, va, va + (a - p));
      assert z[a] == 0;
    }
  }

  lemma HoldsElsewhere(m: seq<Byte>, n: seq<Byte>, p: U64, seg: LoadSegment, file: File, va: U64)
    requires |m| == U64_LIMIT && |n| == U64_LIMIT && IsPage(p) && IsPage(va)
    requires n[p..p + PAGE_SIZE] == m[p..p + PAGE_SIZE] && PageHolds(m, p, seg, file, va)
    ensures PageHolds(n, p, seg, file, va)
  {
    forall a | p <= a < p + PAGE_SIZE ensures n[a] == m[a] {
      assert n[p..p + PAGE_SIZE][a - p] == m[p..p + PAGE_SIZE][a - p];
    }
  }

  /** An allocated page, not a table, that holds the segment's bytes of the page `va`. */
  ghost predicate HoldsPage(s: VmState, p: U64, seg: LoadSegment, file: File, va: U64) {
    && |s.m| == U64_LIMIT && IsPage(p) && IsPage(va)
    && p in s.used && p !in Tables(s.spaces) && PageHolds(s.m, p, seg, file, va)
  }

  lemma PageStays(s: VmState, t: VmState, root: U64, p: U64, seg: LoadSegment, file: File, va: U64)
    requires Evolves(s, t, root) && HoldsPage(s, p, seg, file, va)
    ensures HoldsPage(t, p, seg, file, va)
  {
    hide Evolves, Tables, PageHolds;
    KeptPage(s, t, root, p);
    HoldsElsewhere(s.m, t.m, p, seg, file, va);
  }

  /** A page of the image: fresh, zeroed, filled from the file and mapped. */
  method LoadPage(vm: VirtualMemory, root: U64, seg: LoadSegment, file: File, va: U64) returns (r: Result<U64>)
    requires vm.Valid() && root in vm.spaces && IsPage(va)
    modifies vm`spaces, vm.mem, vm.allocator.bitmap
    ensures vm.Valid() && Evolves(old(vm.Snapshot()), vm.Snapshot(), root)
    ensures r.Ok? ==> HoldsPage(vm.Snapshot(), r.value, seg, file, va) && root in old(vm.View())
    ensures r.Ok? ==> vm.View() == Mapped(old(vm.View()), root, VPage(va), Walked(r.value, SegmentFlags(seg)))
  {
    hide Forest, OwnedBy, ViewsOf, StepOn, Evolves, Tables, VPage, PagesBelow, Addresses, HoldsPage, SegmentFlags;
    ghost var s0 := vm.Snapshot();
    r := FilledPage(vm, root, seg, file, va);
    if r.Err? { return; }
    ghost var s := vm.Snapshot();
    SegmentFlagsMap(seg);
    assert IsPage(r.value) by { HeldIsPage(s, r.value, seg, file, va); }
    var ok := vm.MapPage(root, va, r.value, SegmentFlags(seg));
    StepEvolves(s, vm.Snapshot(), root, vm.View()[root]);
    EvolvesTwice(s0, s, vm.Snapshot(), root);
    if !ok { return Err(OutOfMemory); }
    PageStays(s, vm.Snapshot(), root, r.value, seg, file, va);
  }

  lemma SegmentFlagsMap(seg: LoadSegment)
    ensures MapFlags(SegmentFlags(seg)) && Has(SegmentFlags(seg), FLAG_U)
  {
  }

  lemma HeldIsPage(s: VmState, p: U64, seg: LoadSegment, file: File, va: U64)
    requires HoldsPage(s, p, seg, file, va)
    ensures IsPage(p) && PageDown(p) == p
  {
  }

  method FilledPage(vm: VirtualMemory, ghost root: U64, seg: LoadSegment, file: File, va: U64)
        returns (r: Result<U64>)
    requires vm.Valid() && root in vm.spaces && IsPage(va)
    modifies vm.mem, vm.allocator.bitmap
    ensures vm.Valid() && vm.View() == old(vm.View()) && Evolves(old(vm.Snapshot()), vm.Snapshot(), root)
    ensures r.Ok? ==> HoldsPage(vm.Snapshot(), r.value, seg, file, va)
  {
    hide Forest, OwnedBy, ViewsOf, Evolves, Tables, ChangedOnly, PagesBelow, Addresses, ZeroPage, PageHolds, FileBytes;
    ghost var s0 := vm.Snapshot();
    Stays(s0, root);
    r := vm.NewPage();
    if r.Err? { return; }
    var page := r.value;
    var copyStart, copyEnd := CopyStart(seg, va), CopyEnd(seg, va);
    if copyStart < copyEnd {
      CopyFits(seg, va);
      CopyFile(vm.mem, page, copyStart - va, seg, file, copyStart - seg.vaddr, copyEnd - copyStart);
    }
    assert vm.mem[..] == Fill(ZeroPage(s0.m, page), page, seg, file, va);
    FillHolds(s0.m, page, seg, file, va);
    FreshData(s0, vm.mem[..], page, root);
    EvolvesFacts(s0, VmState(vm.mem[..], vm.spaces, vm.Used()), root);
  }

  method CopyFile(mem: array<Byte>, page: U64, at: nat, seg: LoadSegment, file: File, from: nat, len: nat)
    requires mem.Length == U64_LIMIT && IsPage(page) && at + len <= PAGE_SIZE
    modifies mem
    ensures mem[..] == old(mem[..])[..page + at] + FileBytes(seg, file, from, len) + old(mem[..])[page + at + len..]
  {
    hide ByteAt, FileOffset;
    var dst := page + at;
    for b := 0 to len
      invariant mem[..dst] == old(mem[..dst]) && mem[dst..dst + b] == FileBytes(seg, file, from, b)
      invariant mem[dst + b..] == old(mem[dst + b..])
    {
      mem[dst + b] := ByteAt(file, FileOffset(seg, from + b));
      assert mem[dst..dst + b + 1] == mem[dst..dst + b] + [ByteAt(file, FileOffset(seg, from + b))];
    }
    assert mem[..] == mem[..dst] + mem[dst..dst + len] + mem[dst + len..];
  }

  // ---------- Segments ----------

  /** Of the pages `v0` to `v0 + n`, loaded in order, the last one that a table shows as
      page `u`. */
  function Shown(v0: nat, n: nat, u: nat): (r: Option<nat>)
    ensures r.Some? ==> v0 <= r.value < v0 + n && r.value % VPAGES == u
  {
    if n == 0 then None
    else if (v0 + n - 1) % VPAGES == u then Some(v0 + n - 1)
    else Shown(v0, n - 1, u)
  }

  lemma {:induction false} ShownIsLast(v0: nat, n: nat, v: nat)
    requires v0 <= v < v0 + n
    ensures Shown(v0, n, v % VPAGES).Some? && v <= Shown(v0, n, v % VPAGES).value
  {
    if v < v0 + n - 1 { ShownIsLast(v0, n - 1, v); }
  }

  /** At most 2^27 pages do not hide each other. */
  lemma ShownIsOnly(v0: nat, n: nat, v: nat)
    requires v0 <= v < v0 + n && n <= VPAGES
    ensures Shown(v0, n, v % VPAGES) == Some(v)
  {
    ShownIsLast(v0, n, v);
    var w := Shown(v0, n, v % VPAGES).value;
    assert w - v < VPAGES;
  }

  ghost predicate SameAt(tr: map<nat, Walked>, ts: map<nat, Walked>, u: nat) {
    (u in ts <==> u in tr) && (u in ts ==> ts[u] == tr[u])
  }

  /** The address of page `v`; addresses wrap. */
  function PageAddress(v: nat): (va: U64)
    ensures IsPage(va)
  {
    PageAddressIs(v);
    v * PAGE_SIZE % U64_LIMIT
  }

  lemma PageAddressIs(v: nat)
    ensures v * PAGE_SIZE % U64_LIMIT == v % 0x10_0000_0000_0000 * PAGE_SIZE
  {
    var q, rest := v / 0x10_0000_0000_0000, v % 0x10_0000_0000_0000;
    assert v * PAGE_SIZE == rest * PAGE_SIZE + q * U64_LIMIT;
    WrapsAround(rest * PAGE_SIZE, q);
  }

  lemma WrapsAround(x: nat, q: nat)
    requires x < U64_LIMIT
    ensures (x + q * U64_LIMIT) % U64_LIMIT == x
  {
  }

  /** Page `u` of an address space shows page `v` of the segment. */
  ghost predicate PageIn(s: VmState, tr: map<nat, Walked>, seg: LoadSegment, file: File, u: nat, v: nat) {
    u in tr && tr[u].flags == SegmentFlags(seg) && HoldsPage(s, tr[u].phys, seg, file, PageAddress(v))
  }

  ghost predicate PageLoaded(first: map<nat, Walked>, s: VmState, tr: map<nat, Walked>, seg: LoadSegment,
                             file: File, n: nat, u: nat)
  {
    match Shown(FirstPage(seg), n, u)
    case None => SameAt(first, tr, u)
    case Some(v) => PageIn(s, tr, seg, file, u, v)
  }

  /** The first `n` pages of the segment are in, and nothing else has changed. */
  ghost predicate PagesIn(first: map<nat, Walked>, s: VmState, tr: map<nat, Walked>, seg: LoadSegment,
                          file: File, n: nat)
  {
    forall u: nat :: PageLoaded(first, s, tr, seg, file, n, u)
  }

  lemma OnePageMore(s: VmState, tr: map<nat, Walked>, t: VmState, root: U64, seg: LoadSegment, file: File,
                    first: map<nat, Walked>, n: nat, p: U64)
    requires Evolves(s, t, root) && PagesIn(first, s, tr, seg, file, n)
    requires HoldsPage(t, p, seg, file, PageAddress(FirstPage(seg) + n))
    ensures var ts := tr[(FirstPage(seg) + n) % VPAGES := Walked(p, SegmentFlags(seg))];
            PagesIn(first, t, ts, seg, file, n + 1)
  {
    hide Evolves, HoldsPage, FirstPage;
    var at: nat, more := (FirstPage(seg) + n) % VPAGES, n + 1;
    var ts: map<nat, Walked> := tr[at := Walked(p, SegmentFlags(seg))];
    forall u: nat ensures PageLoaded(first, t, ts, seg, file, more, u) {
      assert PageLoaded(first, s, tr, seg, file, n, u);
      var shown := Shown(FirstPage(seg), n, u);
      if u != at && shown.Some? { PageStays(s, t, root, tr[u].phys, seg, file, PageAddress(shown.value)); }
    }
  }

  function FirstPage(seg: LoadSegment): nat { PageDown(seg.vaddr) / PAGE_SIZE }

  method LoadSegmentPages(vm: VirtualMemory, root: U64, seg: LoadSegment, file: File) returns (ok: bool)
    requires vm.Valid() && root in vm.spaces
    modifies vm`spaces, vm.mem, vm.allocator.bitmap
    ensures vm.Valid() && Evolves(old(vm.Snapshot()), vm.Snapshot(), root)
    ensures ok ==>
              && root in old(vm.View()) && root in vm.View()
              && PagesIn(old(vm.View())[root], vm.Snapshot(), vm.View()[root], seg, file,
                         PagesNeeded(seg.memsz, seg.vaddr))
  {
    hide Forest, OwnedBy, ViewsOf, Evolves, Tables, VPage, PagesBelow, Addresses, PagesIn, HoldsPage;
    hide PagesNeeded, PageDown, FirstPage, PageAddress;
    ghost var s0 := vm.Snapshot();
    Stays(s0, root);
    EvolvesFacts(s0, s0, root);
    var numPages := PagesNeeded(seg.memsz, seg.vaddr);
    var baseVa := PageDown(seg.vaddr);
    ghost var first := vm.View()[root];
    NothingYet(s0, first, seg, file);
    for p := 0 to numPages
      invariant vm.Valid() && Evolves(s0, vm.Snapshot(), root) && root in vm.spaces && root in vm.View()
      invariant PagesIn(first, vm.Snapshot(), vm.View()[root], seg, file, p)
    {
      ghost var s, tr := vm.Snapshot(), vm.View()[root];
      PageAt(seg, p);
      var r := LoadPage(vm, root, seg, file, (baseVa + p * PAGE_SIZE) % U64_LIMIT);
      EvolvesTwice(s0, s, vm.Snapshot(), root);
      EvolvesFacts(s0, vm.Snapshot(), root);
      if r.Err? { return false; }
      OnePageMore(s, tr, vm.Snapshot(), root, seg, file, first, p, r.value);
    }
    ok := true;
  }

  /** The address of page `p` of the segment. */
  lemma PageAt(seg: LoadSegment, p: nat)
    ensures (PageDown(seg.vaddr) + p * PAGE_SIZE) % U64_LIMIT == PageAddress(FirstPage(seg) + p)
    ensures VPage(PageAddress(FirstPage(seg) + p)) == (FirstPage(seg) + p) % VPAGES
  {
    assert PageDown(seg.vaddr) == FirstPage(seg) * PAGE_SIZE;
    PageNumber(FirstPage(seg) + p);
  }

  lemma PageNumber(v: nat)
    ensures VPage(PageAddress(v)) == v % VPAGES
  {
    hide PageAddress;
    assert PageAddress(v) == v % 0x10_0000_0000_0000 * PAGE_SIZE by { PageAddressUnfolds(v); }
    var rest: nat := v % 0x10_0000_0000_0000;
    assert rest * PAGE_SIZE / PAGE_SIZE == rest;
  }

  lemma PageAddressUnfolds(v: nat)
    ensures PageAddress(v) == v % 0x10_0000_0000_0000 * PAGE_SIZE
  {
    PageAddressIs(v);
  }

  lemma NothingYet(s: VmState, tr: map<nat, Walked>, seg: LoadSegment, file: File)
    ensures PagesIn(tr, s, tr, seg, file, 0)
  {
  }

  // ---------- The whole image ----------

  datatype Region = Region(start: U64, end: U64, flags: nat)

  /** One zeroed, writable page: what the loader adds for the stack. */
  const STACK := LoadSegment(0, STACK_VA, 0, PAGE_SIZE, false)

  /** The page of the segment that its loading leaves at page `u`. */
  function PageOf(seg: LoadSegment, u: nat): Option<nat> {
    Shown(FirstPage(seg), PagesNeeded(seg.memsz, seg.vaddr), u)
  }

  predicate Covered(seg: LoadSegment, u: nat) { PageOf(seg, u).Some? }

  /** A segment of at most 2^27 pages shows the page of each of its addresses. */
  lemma CoversItsAddresses(seg: LoadSegment, a: U64)
    requires seg.vaddr + seg.memsz + PAGE_SIZE <= U64_LIMIT && seg.vaddr <= a < seg.vaddr + seg.memsz
    requires PagesNeeded(seg.memsz, seg.vaddr) <= VPAGES
    ensures PageOf(seg, VPage(a)) == Some(a / PAGE_SIZE)
  {
    hide PagesNeeded;
    assert PageDown(seg.vaddr) == FirstPage(seg) * PAGE_SIZE;
    ShownIsOnly(FirstPage(seg), PagesNeeded(seg.memsz, seg.vaddr), a / PAGE_SIZE);
  }

  /** A page of a segment. */
  datatype Origin = Origin(seg: LoadSegment, page: nat)

  /** What a table shows as page `u`: the last segment that covers it, since segments are
      loaded in order. */
  ghost function Top(segs: seq<LoadSegment>, u: nat): Option<Origin> {
    if segs == [] then None
    else
      var n := |segs| - 1;
      match PageOf(segs[n], u)
      case Some(v) => Some(Origin(segs[n], v))
      case None => Top(segs[..n], u)
  }

  /** With page-disjoint segments, the one that covers a page is the last one. */
  lemma {:induction false} DisjointTop(segs: seq<LoadSegment>, i: nat, u: nat)
    requires i < |segs| && Covered(segs[i], u)
    requires forall j :: 0 <= j < |segs| && j != i ==> !Covered(segs[j], u)
    ensures Top(segs, u) == Some(Origin(segs[i], PageOf(segs[i], u).value))
    decreases |segs|
  {
    if i < |segs| - 1 { DisjointTop(segs[..|segs| - 1], i, u); }
  }

  /** The kernel mappings that every address space starts with. */
  ghost function KernelMap(regions: seq<Region>): map<nat, Walked> {
    if regions == [] then map[]
    else
      var n := |regions| - 1;
      var last := regions[n];
      MapFold(KernelMap(regions[..n]), PageDown(last.start), RangePages(last.start, last.end), last.flags)
  }

  ghost predicate PageAsLoaded(s: VmState, tr: map<nat, Walked>, base: map<nat, Walked>,
                               segs: seq<LoadSegment>, file: File, u: nat)
  {
    match Top(segs, u)
    case None => SameAt(base, tr, u)
    case Some(o) => PageIn(s, tr, o.seg, file, u, o.page)
  }

  ghost predicate ImageIn(s: VmState, tr: map<nat, Walked>, base: map<nat, Walked>, segs: seq<LoadSegment>,
        file: File) {
    forall u: nat :: PageAsLoaded(s, tr, base, segs, file, u)
  }

  /** One more segment hides what it covers and leaves the rest of the image. */
  lemma OneSegmentMore(s: VmState, tr: map<nat, Walked>, t: VmState, ts: map<nat, Walked>, root: U64,
                       base: map<nat, Walked>, segs: seq<LoadSegment>, seg: LoadSegment, file: File)
    requires Evolves(s, t, root) && ImageIn(s, tr, base, segs, file)
    requires PagesIn(tr, t, ts, seg, file, PagesNeeded(seg.memsz, seg.vaddr))
    ensures ImageIn(t, ts, base, segs + [seg], file)
  {
    hide Evolves, HoldsPage, FirstPage, PagesNeeded, Shown;
    var all := segs + [seg];
    assert all[..|all| - 1] == segs;
    forall u: nat ensures PageAsLoaded(t, ts, base, all, file, u) {
      assert PageLoaded(tr, t, ts, seg, file, PagesNeeded(seg.memsz, seg.vaddr), u);
      if !Covered(seg, u) {
        assert PageAsLoaded(s, tr, base, segs, file, u);
        var top := Top(segs, u);
        if top.Some? { PageStays(s, t, root, tr[u].phys, top.value.seg, file, PageAddress(top.value.page)); }
      }
    }
  }

  method LoadSegments(vm: VirtualMemory, root: U64, segs: seq<LoadSegment>, file: File) returns (ok: bool)
    requires vm.Valid() && root in vm.spaces
    modifies vm`spaces, vm.mem, vm.allocator.bitmap
    ensures vm.Valid() && Evolves(old(vm.Snapshot()), vm.Snapshot(), root)
    ensures ok ==> root in old(vm.View()) && root in vm.View()
                   && ImageIn(vm.Snapshot(), vm.View()[root], old(vm.View())[root], segs + [STACK], file)
  {
    hide Forest, OwnedBy, ViewsOf, Evolves, Tables, PagesBelow, Addresses, ImageIn, PagesIn, PagesNeeded;
    ghost var s0 := vm.Snapshot();
    Stays(s0, root);
    EvolvesFacts(s0, s0, root);
    ghost var base := vm.View()[root];
    NoSegments(s0, base, file);
    for i := 0 to |segs|
      invariant vm.Valid() && Evolves(s0, vm.Snapshot(), root) && root in vm.spaces && root in vm.View()
      invariant ImageIn(vm.Snapshot(), vm.View()[root], base, segs[..i], file)
    {
      ok := LoadOne(vm, s0, root, base, segs[..i], segs[i], file);
      if !ok { return; }
      assert segs[..i + 1] == segs[..i] + [segs[i]];
    }
    assert segs[..|segs|] == segs;
    ok := LoadOne(vm, s0, root, base, segs, STACK, file);
  }

  /** One segment more, on top of what has been loaded since `s0`. */
  method LoadOne(vm: VirtualMemory, ghost s0: VmState, root: U64, ghost base: map<nat, Walked>,
                 ghost before: seq<LoadSegment>, seg: LoadSegment, file: File) returns (ok: bool)
    requires vm.Valid() && Evolves(s0, vm.Snapshot(), root) && root in vm.spaces && root in vm.View()
    requires ImageIn(vm.Snapshot(), vm.View()[root], base, before, file)
    modifies vm`spaces, vm.mem, vm.allocator.bitmap
    ensures vm.Valid() && Evolves(s0, vm.Snapshot(), root) && root in vm.spaces && root in vm.View()
    ensures ok ==> ImageIn(vm.Snapshot(), vm.View()[root], base, before + [seg], file)
  {
    hide Forest, OwnedBy, ViewsOf, Evolves, Tables, PagesBelow, Addresses, ImageIn, PagesIn, PagesNeeded;
    ghost var s, tr := vm.Snapshot(), vm.View()[root];
    ok := LoadSegmentPages(vm, root, seg, file);
    EvolvesTwice(s0, s, vm.Snapshot(), root);
    EvolvesFacts(s0, vm.Snapshot(), root);
    if ok { OneSegmentMore(s, tr, vm.Snapshot(), vm.View()[root], root, base, before, seg, file); }
  }

  lemma NoSegments(s: VmState, base: map<nat, Walked>, file: File)
    ensures ImageIn(s, base, base, [], file)
  {
  }

  method MapKernelRegions(vm: VirtualMemory, root: U64, regions: seq<Region>) returns (ok: bool)
    requires vm.Valid() && root in vm.spaces && root in vm.View() && vm.View()[root] == map[]
    requires forall k :: 0 <= k < |regions| ==> MapFlags(regions[k].flags)
    modifies vm`spaces, vm.mem, vm.allocator.bitmap
    ensures vm.Valid() && Evolves(old(vm.Snapshot()), vm.Snapshot(), root)
    ensures ok ==> root in vm.View() && vm.View()[root] == KernelMap(regions)
  {
    hide Forest, OwnedBy, ViewsOf, Evolves, Tables, PagesBelow, Addresses, MapFold, RangePages, StepOn, MapFlags;
    ghost var s0 := vm.Snapshot();
    Stays(s0, root);
    for k := 0 to |regions|
      invariant vm.Valid() && Evolves(s0, vm.Snapshot(), root) && root in vm.spaces && root in vm.View()
      invariant vm.View()[root] == KernelMap(regions[..k])
    {
      ghost var s := vm.Snapshot();
      assert regions[..k + 1][..k] == regions[..k];
      ok := vm.MapRange(root, regions[k].start, regions[k].end, regions[k].flags);
      StepEvolves(s, vm.Snapshot(), root, vm.View()[root]);
      EvolvesTwice(s0, s, vm.Snapshot(), root);
      EvolvesFacts(s0, vm.Snapshot(), root);
      if !ok { return; }
    }
    assert regions[..|regions|] == regions;
    ok := true;
  }

  /** The root of the new address space. */
  method StartSpace(vm: VirtualMemory) returns (r: Result<U64>)
    requires vm.Valid()
    modifies vm`spaces, vm.mem, vm.allocator.bitmap
    ensures vm.Valid()
    ensures r.Ok? ==> Evolves(old(vm.Snapshot()), vm.Snapshot(), r.value) && r.value !in old(vm.View())
    ensures r.Ok? ==> r.value in vm.spaces && r.value in vm.View() && vm.View()[r.value] == map[]
  {
    hide Forest, OwnedBy, ViewsOf, PagesBelow, Addresses, ChangedOnly, Tables;
    ghost var s0 := vm.Snapshot();
    r := vm.NewSpace();
    if r.Ok? { RootEvolves(s0, vm.Snapshot(), r.value); }
  }

  lemma RootEvolves(s: VmState, t: VmState, p: U64)
    requires VmOk(s) && VmOk(t) && p !in s.used && p !in s.spaces && Seen(t) == Seen(s)[p := map[]]
    requires t.spaces == s.spaces[p := Tree(p, map[], map[])] && t.used == s.used + {p} && ChangedOnly(s.m, t.m, {p})
    ensures Evolves(s, t, p) && p !in Seen(s)
  {
    hide Forest, OwnedBy, ViewsOf;
    assert TablePages(Tree(p, map[], map[])) == {p};
    forall q: U64 | q in s.used && q !in Tables(s.spaces)
      ensures q !in Tables(t.spaces) && (IsPage(q) ==> t.m[q..q + PAGE_SIZE] == s.m[q..q + PAGE_SIZE])
    {
      NewTables(s.spaces, p, q);
      if IsPage(q) { PageUnchanged(s.m, t.m, {p}, q); }
    }
  }

  lemma NewTables(spaces: Spaces, p: U64, q: U64)
    requires p !in spaces && q != p
    ensures q in Tables(spaces[p := Tree(p, map[], map[])]) <==> q in Tables(spaces)
  {
    hide TablePages;
    var after := spaces[p := Tree(p, map[], map[])];
    assert TablePages(after[p]) == {p} by { OnePage(p); }
    if q in Tables(spaces) {
      var r, x :| r in spaces && x in TablePages(spaces[r]) && x == q;
      assert r in after && q in TablePages(after[r]);
    }
    if q in Tables(after) {
      var r, x :| r in after && x in TablePages(after[r]) && x == q;
      assert r in spaces && q in TablePages(spaces[r]);
    }
  }

  lemma OnePage(p: U64)
    ensures TablePages(Tree(p, map[], map[])) == {p}
  {
  }

  // ---------- What the process sees ----------

  /** What a process sees at address `a`: its image, or the kernel mapping below it. */
  ghost predicate Shows(m: seq<Byte>, root: U64, regions: seq<Region>, segs: seq<LoadSegment>, file: File, a: U64)
    requires |m| == U64_LIMIT && IsPage(root)
  {
    var u, base := VPage(a), KernelMap(regions);
    match Top(segs, u)
    case Some(o) =>
      && Walk(m, root, a).Some? && Walk(m, root, a).value.flags == SegmentFlags(o.seg)
      && m[Walk(m, root, a).value.phys] == ImageByte(o.seg, file, PageAddress(o.page) + a % PAGE_SIZE)
    case None =>
      match Walk(m, root, a)
      case None => u !in base
      case Some(w) => u in base && w.flags == base[u].flags && w.phys == base[u].phys + a % PAGE_SIZE
  }

  ghost predicate ShowsAll(m: seq<Byte>, root: U64, regions: seq<Region>, segs: seq<LoadSegment>, file: File)
    requires |m| == U64_LIMIT && IsPage(root)
  {
    forall a: U64 :: Shows(m, root, regions, segs, file, a)
  }

  lemma ReadBack(s: VmState, root: U64, regions: seq<Region>, segs: seq<LoadSegment>, file: File, a: U64)
    requires VmOk(s) && root in s.spaces && IsPage(root) && root in Seen(s)
    requires ImageIn(s, Seen(s)[root], KernelMap(regions), segs, file)
    ensures Shows(s.m, root, regions, segs, file, a)
  {
    hide Walk, Top, KernelMap, Tables, ViewsOf, Translations, Forest, OwnedBy, VPage, ImageByte, PageAddress;
    var tr, u := Seen(s)[root], VPage(a);
    SameView(s.m, s.spaces, root);
    WalkIsLookup(s.m, root, a);
    assert PageAsLoaded(s, tr, KernelMap(regions), segs, file, u);
    if Top(segs, u).Some? {
      var o, phys := Top(segs, u).value, tr[u].phys + a % PAGE_SIZE;
      assert s.m[phys] == ImageByte(o.seg, file, PageAddress(o.page) + (phys - tr[u].phys));
    }
  }

  lemma ReadAllBack(s: VmState, root: U64, regions: seq<Region>, segs: seq<LoadSegment>, file: File)
    requires VmOk(s) && root in s.spaces && IsPage(root) && root in Seen(s)
    requires ImageIn(s, Seen(s)[root], KernelMap(regions), segs, file)
    ensures ShowsAll(s.m, root, regions, segs, file)
  {
    hide Shows, ImageIn, Seen, KernelMap, Forest, OwnedBy;
    forall a: U64 ensures Shows(s.m, root, regions, segs, file, a) {
      ReadBack(s, root, regions, segs, file, a);
    }
  }

  /** Where no sum of the loader wraps, every byte of a segment whose pages no other segment,
      and not the stack, shares: the file's byte, or zero beyond the file's part, with the
      segment's permissions. */
  lemma SegmentReadsBack(
      m: seq<Byte>, root: U64, regions: seq<Region>, segs: seq<LoadSegment>, file: File, i: nat, a: U64)
    requires |m| == U64_LIMIT && IsPage(root) && ShowsAll(m, root, regions, segs, file)
    requires i < |segs| && segs[i].vaddr <= a < segs[i].vaddr + segs[i].memsz
    requires segs[i].vaddr + segs[i].memsz + PAGE_SIZE <= U64_LIMIT && segs[i].vaddr + segs[i].filesz < U64_LIMIT
    requires segs[i].fileOffset + segs[i].filesz <= |file.data| < U64_LIMIT
    requires PagesNeeded(segs[i].memsz, segs[i].vaddr) <= VPAGES
    requires forall j, u: nat :: 0 <= j < |segs| && j != i && Covered(segs[i], u) ==> !Covered(segs[j], u)
    ensures var w := Walk(m, root, a);
            && w.Some? && w.value.flags == SegmentFlags(segs[i]) && Permits(w.value.flags, segs[i].executable)
            && (StoreTarget(m, root, a).Some? <==> !segs[i].executable)
            && m[w.value.phys] == if a < segs[i].vaddr + segs[i].filesz
                then file.data[segs[i].fileOffset + (a - segs[i].vaddr)] else 0
  {
    hide Walk, Top, KernelMap, PageOf, VPage, PagesNeeded, PageAddress, ImageByte, SegmentFlags, Has;
    SegmentPermits(segs[i]);
    assert Shows(m, root, regions, segs, file, a);
    CoversItsAddresses(segs[i], a);
    var u := VPage(a);
    assert Covered(segs[i], u);
    forall j | 0 <= j < |segs| && j != i ensures !Covered(segs[j], u) { }
    DisjointTop(segs, i, u);
    AddressOfByte(a);
    PlainByte(segs[i], file, a);
  }

  /** The stack of the new process: one page of zeros that it can read and write and not
      execute, unless a segment was loaded over it. */
  lemma StackReadsBack(
      m: seq<Byte>, root: U64, regions: seq<Region>, segs: seq<LoadSegment>, file: File, a: U64)
    requires |m| == U64_LIMIT && IsPage(root) && ShowsAll(m, root, regions, segs + [STACK], file)
    requires STACK_VA <= a < STACK_VA + PAGE_SIZE && |file.data| < U64_LIMIT
    requires forall j :: 0 <= j < |segs| ==> !Covered(segs[j], VPage(STACK_VA))
    ensures var w := Walk(m, root, a);
            w.Some? && Permits(w.value.flags, false) && StoreTarget(m, root, a).Some? && m[w.value.phys] == 0
  {
    hide Walk, Top, KernelMap, PageOf, PagesNeeded, PageAddress, ImageByte, Permits, Has, SegmentFlags;
    var all := segs + [STACK];
    StackPages();
    forall j, u: nat | 0 <= j < |all| && j != |segs| && Covered(STACK, u) ensures !Covered(all[j], u) {
      StackCovers(u);
    }
    SegmentReadsBack(m, root, regions, all, file, |segs|, a);
  }

  lemma StackPages()
    ensures PagesNeeded(STACK.memsz, STACK.vaddr) == 1
  {
    RoundsToPages(STACK.memsz, STACK.vaddr);
  }

  lemma StackCovers(u: nat)
    requires Covered(STACK, u)
    ensures u == VPage(STACK_VA)
  {
    hide PagesNeeded;
    StackPages();
    assert PageDown(STACK.vaddr) == STACK_VA;
  }

  lemma AddressOfByte(a: U64)
    ensures PageAddress(a / PAGE_SIZE) + a % PAGE_SIZE == a
  {
    NoWrap(a / PAGE_SIZE * PAGE_SIZE);
  }

  lemma PlainByte(seg: LoadSegment, file: File, a: U64)
    requires seg.vaddr <= a && a + PAGE_SIZE < U64_LIMIT && seg.vaddr + seg.filesz < U64_LIMIT
    requires seg.fileOffset + seg.filesz <= |file.data| < U64_LIMIT
    ensures ImageByte(seg, file, a) == if a < seg.vaddr + seg.filesz
            then file.data[seg.fileOffset + (a - seg.vaddr)] else 0
  {
    if a < seg.vaddr + seg.filesz { NoWrap(seg.fileOffset + (a - seg.vaddr)); }
  }

  // ---------- Tables stay out of reach ----------

  ghost predicate NoUserFlags(regions: seq<Region>) {
    forall k :: 0 <= k < |regions| ==> !Has(regions[k].flags, FLAG_U)
  }

  lemma {:induction false} FoldFlags(tr: map<nat, Walked>, start: nat, n: nat, flags: nat)
    requires start + n * PAGE_SIZE <= U64_LIMIT
    ensures forall v :: v in MapFold(tr, start, n, flags) ==>
              MapFold(tr, start, n, flags)[v].flags == flags || (v in tr && MapFold(tr, start, n, flags)[v] == tr[v])
    decreases n
  {
    if n > 0 { FoldFlags(tr, start, n - 1, flags); }
  }

  lemma {:induction false} KernelMapFlags(regions: seq<Region>)
    requires NoUserFlags(regions)
    ensures forall v :: v in KernelMap(regions) ==> !Has(KernelMap(regions)[v].flags, FLAG_U)
    decreases |regions|
  {
    hide MapFold, RangePages, Has;
    if regions != [] {
      var n := |regions| - 1;
      KernelMapFlags(regions[..n]);
      FoldFlags(KernelMap(regions[..n]), PageDown(regions[n].start),
                RangePages(regions[n].start, regions[n].end), regions[n].flags);
    }
  }

  /** Loading makes an address space whose user translations lead to no table. */
  lemma LoadedIsNewSpace(s: VmState, t: VmState, root: U64, regions: seq<Region>, segs: seq<LoadSegment>, file: File)
    requires Evolves(s, t, root) && VmOk(s) && VmOk(t) && root in Seen(t) && root !in Seen(s) && NoUserFlags(regions)
    requires ImageIn(t, Seen(t)[root], KernelMap(regions), segs, file)
    ensures NewSpace(s, t, root)
  {
    hide Tables, VmOk, Seen, KernelMap, Top, PageHolds, Has, Evolves;
    KernelMapFlags(regions);
    forall v | v in Seen(t)[root] ensures Safe(t, Seen(t)[root][v]) {
      assert PageAsLoaded(t, Seen(t)[root], KernelMap(regions), segs, file, v);
    }
  }

  // ---------- The kernel half of the new space ----------

  /** No page that the segment is loaded to lies outside the user range. */
  ghost predicate InUserRange(seg: LoadSegment) {
    forall u: nat :: Covered(seg, u) ==> IsUserVa(u * PAGE_SIZE)
  }

  ghost predicate AllInUserRange(segs: seq<LoadSegment>) {
    forall i :: 0 <= i < |segs| ==> InUserRange(segs[i])
  }

  /** For a segment that does not wrap and ends below 2^39, the test is on its addresses. */
  lemma InUserRangeIff(seg: LoadSegment)
    requires 0 < seg.memsz && seg.vaddr + seg.memsz <= VPAGES * PAGE_SIZE
    ensures InUserRange(seg) <==> USER_VA_START <= seg.vaddr && seg.vaddr + seg.memsz <= USER_VA_END
  {
    hide PageOf, PagesNeeded;
    var last: U64 := seg.vaddr + seg.memsz - 1;
    var n := PagesNeeded(seg.memsz, seg.vaddr);
    assert n <= VPAGES;
    CoversItsAddresses(seg, seg.vaddr);
    CoversItsAddresses(seg, last);
    assert VPage(seg.vaddr) == seg.vaddr / PAGE_SIZE && VPage(last) == last / PAGE_SIZE;
    if InUserRange(seg) {
      assert Covered(seg, seg.vaddr / PAGE_SIZE) && Covered(seg, last / PAGE_SIZE);
    }
    if USER_VA_START <= seg.vaddr && last < USER_VA_END {
      forall u: nat | Covered(seg, u) ensures IsUserVa(u * PAGE_SIZE) { CoveredBetween(seg, u); }
    }
  }

  lemma CoveredBetween(seg: LoadSegment, u: nat)
    requires seg.vaddr + seg.memsz <= VPAGES * PAGE_SIZE && Covered(seg, u)
    ensures seg.vaddr / PAGE_SIZE <= u && u * PAGE_SIZE < seg.vaddr + seg.memsz
  {
    hide PagesNeeded, Shown;
    var v := PageOf(seg, u).value;
    assert PageDown(seg.vaddr) == FirstPage(seg) * PAGE_SIZE;
    assert v < VPAGES;
  }

  lemma {:induction false} TopIsInRange(segs: seq<LoadSegment>, u: nat)
    ensures Top(segs, u).Some? <==> exists i :: 0 <= i < |segs| && Covered(segs[i], u)
    decreases |segs|
  {
    hide PageOf;
    if segs != [] {
      var n := |segs| - 1;
      TopIsInRange(segs[..n], u);
      if Top(segs, u).Some? && !Covered(segs[n], u) {
        var i :| 0 <= i < n && Covered(segs[..n][i], u);
        assert Covered(segs[i], u);
      }
      if i :| 0 <= i < |segs| && Covered(segs[i], u) {
        if i < n { assert Covered(segs[..n][i], u); }
      }
    }
  }

  /** Nothing checks where segments lie. The new space has the kernel's translations outside
      the user range, and no others there, if and only if all of them lie inside. */
  lemma KernelHalfIff(t: VmState, tr: map<nat, Walked>, regions: seq<Region>, segs: seq<LoadSegment>, file: File)
    requires ImageIn(t, tr, KernelMap(regions), segs, file) && NoUserFlags(regions)
    ensures KernelHalf(tr) == KernelHalf(KernelMap(regions)) <==> AllInUserRange(segs)
  {
    hide KernelMap, Top, HoldsPage, Has, PageOf, NoUserFlags;
    var base := KernelMap(regions);
    KernelMapFlags(regions);
    if AllInUserRange(segs) {
      forall v: nat | !IsUserVa(v * PAGE_SIZE) ensures SameAt(base, tr, v) {
        assert PageAsLoaded(t, tr, base, segs, file, v);
        TopIsInRange(segs, v);
      }
      assert KernelHalf(tr) == KernelHalf(base);
    } else {
      var i :| 0 <= i < |segs| && !InUserRange(segs[i]);
      var u: nat :| Covered(segs[i], u) && !IsUserVa(u * PAGE_SIZE);
      TopIsInRange(segs, u);
      assert PageAsLoaded(t, tr, base, segs, file, u);
      UserFlagsOf(Top(segs, u).value.seg);
      assert u in KernelHalf(tr);
      assert u in KernelHalf(base) ==> KernelHalf(base)[u] != KernelHalf(tr)[u];
    }
  }

  lemma UserFlagsOf(seg: LoadSegment)
    ensures Has(SegmentFlags(seg), FLAG_U)
  {
  }

  lemma StackInUserRange(segs: seq<LoadSegment>)
    ensures AllInUserRange(segs + [STACK]) <==> AllInUserRange(segs)
  {
    hide InUserRange;
    var all := segs + [STACK];
    assert InUserRange(STACK) by { InUserRangeIff(STACK); }
    forall i | 0 <= i < |segs| ensures all[i] == segs[i] { }
    if AllInUserRange(all) { forall i | 0 <= i < |segs| ensures InUserRange(segs[i]) { assert InUserRange(all[i]); } }
  }

  /** A new address space with the kernel regions, the segments and the stack. No other
      address space changes; every address shows the last segment loaded over it; the step is
      one of those that runs are made of; and the kernel half is the kernel's exactly if no
      segment reaches into it. */
  method LoadElf(vm: VirtualMemory, regions: seq<Region>, segs: seq<LoadSegment>, file: File)
        returns (r: Result<U64>)
    requires vm.Valid()
    requires forall k :: 0 <= k < |regions| ==> MapFlags(regions[k].flags)
    modifies vm`spaces, vm.mem, vm.allocator.bitmap
    ensures vm.Valid()
    ensures r.Ok? ==> IsPage(r.value) && r.value !in old(vm.View()) && r.value in vm.View()
    ensures r.Ok? ==> vm.View() == old(vm.View())[r.value := vm.View()[r.value]]
    ensures r.Ok? ==> ShowsAll(vm.mem[..], r.value, regions, segs + [STACK], file)
    ensures r.Ok? && NoUserFlags(regions) ==>
              VmStep(vm.heap, old(vm.Snapshot()), Spawn(r.value), Done, vm.Snapshot())
    ensures r.Ok? && NoUserFlags(regions) && Guarded(old(vm.Snapshot())) ==> Guarded(vm.Snapshot())
    ensures r.Ok? && NoUserFlags(regions) ==>
              (KernelHalf(vm.View()[r.value]) == KernelHalf(KernelMap(regions)) <==> AllInUserRange(segs))
  {
    hide Forest, OwnedBy, ViewsOf, Tables, PagesBelow, Addresses, ImageIn, KernelMap, MapFlags, Evolves, NoUserFlags;
    hide NewSpace, KernelHalf, AllInUserRange, Shows, Guarded;
    ghost var s0 := vm.Snapshot();
    r := StartSpace(vm);
    if r.Err? { return; }
    ghost var s1 := vm.Snapshot();
    var ok := MapKernelRegions(vm, r.value, regions);
    if !ok { return Err(OutOfMemory); }
    ghost var s2 := vm.Snapshot();
    EvolvesTwice(s0, s1, s2, r.value);
    EvolvesFacts(s0, s2, r.value);
    ok := LoadSegments(vm, r.value, segs, file);
    if !ok { return Err(OutOfMemory); }
    EvolvesTwice(s0, s2, vm.Snapshot(), r.value);
    Loaded(s0, vm.Snapshot(), r.value, regions, segs, file);
    if Guarded(s0) && NoUserFlags(regions) { SpawnKeepsGuarded(vm.heap, s0, r.value, Done, vm.Snapshot()); }
  }

  lemma Loaded(s: VmState, t: VmState, root: U64, regions: seq<Region>, segs: seq<LoadSegment>, file: File)
    requires Evolves(s, t, root) && VmOk(s) && VmOk(t) && root in Seen(t) && root !in Seen(s)
    requires ImageIn(t, Seen(t)[root], KernelMap(regions), segs + [STACK], file)
    ensures IsPage(root) && Seen(t) == Seen(s)[root := Seen(t)[root]]
    ensures ShowsAll(t.m, root, regions, segs + [STACK], file)
    ensures NoUserFlags(regions) ==> NewSpace(s, t, root)
    ensures NoUserFlags(regions) ==>
              (KernelHalf(Seen(t)[root]) == KernelHalf(KernelMap(regions)) <==> AllInUserRange(segs))
  {
    hide ShowsAll, ImageIn, KernelMap, NoUserFlags, DataKept, Forest, OwnedBy, ViewsOf, NewSpace, KernelHalf;
    hide AllInUserRange;
    RootIsPage(t.m, t.spaces, root);
    ReadAllBack(t, root, regions, segs + [STACK], file);
    if NoUserFlags(regions) {
      LoadedIsNewSpace(s, t, root, regions, segs + [STACK], file);
      KernelHalfIff(t, Seen(t)[root], regions, segs + [STACK], file);
      StackInUserRange(segs);
    }
  }
}
