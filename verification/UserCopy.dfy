/** Copies between the kernel and user memory (kvm.rs): one pass that validates every page,
    one that copies. Together they are a byte-by-byte copy or nothing. */
module UserCopy {
  import opened Words
  import opened PageAlloc
  import opened PageTable
  import opened MemoryRuns

  const USER_VA_MAX := 0x8000_0000
  const MAX_COPY_CHUNKS := 32

  /** The physical address of one user byte, if the process may access it. */
  function Translate(m: seq<Byte>, heap: Heap, root: U64, va: U64, write: bool): Option<U64>
    requires |m| == U64_LIMIT && IsPage(root)
  {
    if va >= USER_VA_MAX then None
    else
      var w := Walk(m, root, va);
      if w.Some? && Accessible(w.value, heap, write) then Some(w.value.phys) else None
  }

  /** A user page (writable for writes) in the heap. */
  predicate Accessible(w: Walked, heap: Heap, write: bool) {
    Has(w.flags, FLAG_U) && (write ==> Has(w.flags, FLAG_W)) && heap.Contains(w.phys - w.phys % PAGE_SIZE)
  }

  predicate InHeap(heap: Heap, pa: U64) { heap.Contains(pa - pa % PAGE_SIZE) }

  /** The kernel writes where the process itself could, at the same byte, as far as that is a
      heap page below the kernel half, and nowhere else. */
  lemma WritesWhereTheUserCould(m: seq<Byte>, heap: Heap, root: U64, va: U64, pa: U64)
    requires |m| == U64_LIMIT && IsPage(root)
    ensures Translate(m, heap, root, va, true) == Some(pa)
            <==> va < 0x8000_0000 && StoreTarget(m, root, va) == Some(pa) && InHeap(heap, pa)
  {
    hide Walk;
  }

  /** And it reads where the process could. */
  lemma ReadsWhereTheUserCould(m: seq<Byte>, heap: Heap, root: U64, va: U64, pa: U64)
    requires |m| == U64_LIMIT && IsPage(root)
    ensures Translate(m, heap, root, va, false) == Some(pa)
            <==> && va < 0x8000_0000 && InHeap(heap, pa)
                 && Walk(m, root, va).Some? && Walk(m, root, va).value.phys == pa
                 && Has(Walk(m, root, va).value.flags, FLAG_U)
  {
    hide Walk;
  }

  method TranslateUser(mem: array<Byte>, heap: Heap, satp: U64, va: U64) returns (r: Option<U64>)
    requires mem.Length == U64_LIMIT
    ensures r == Translate(mem[..], heap, SatpToRoot(satp), va, false)
  {
    hide Walk, SatpToRoot;
    if va >= USER_VA_MAX { return None; }
    var w := WalkLevels(mem[..], SatpToRoot(satp), va);
    if w == None { return None; }
    if !Has(w.value.flags, FLAG_U) { return None; }
    if !heap.Contains(w.value.phys - w.value.phys % PAGE_SIZE) { return None; }
    return Some(w.value.phys);
  }

  /** Byte `k` of a user buffer at `va`; addresses wrap. */
  function ByteAddr(va: U64, k: nat): U64 { (va + k) % U64_LIMIT }

  function PagesTouched(va: U64, total: nat): nat { (va % PAGE_SIZE + total + PAGE_SIZE - 1) / PAGE_SIZE }

  ghost predicate AllBytes(m: seq<Byte>, heap: Heap, root: U64, va: U64, n: nat, write: bool)
    requires |m| == U64_LIMIT && IsPage(root)
  {
    forall k: nat :: k < n ==> Translate(m, heap, root, ByteAddr(va, k), write).Some?
  }

  /** When a copy succeeds: no byte, or at most 32 pages and every byte accessible. */
  ghost predicate CopyOk(m: seq<Byte>, heap: Heap, root: U64, va: U64, total: nat, write: bool)
    requires |m| == U64_LIMIT && IsPage(root)
  {
    total == 0 || (PagesTouched(va, total) <= MAX_COPY_CHUNKS && AllBytes(m, heap, root, va, total, write))
  }

  /** Accessible bytes share a page with their neighbours. */
  lemma SamePage(m: seq<Byte>, heap: Heap, root: U64, va: U64, k: nat, write: bool)
    requires |m| == U64_LIMIT && IsPage(root) && va < USER_VA_MAX && va % PAGE_SIZE + k < PAGE_SIZE
    ensures match Translate(m, heap, root, va, write)
            case None => Translate(m, heap, root, va + k, write) == None
            case Some(pa) => Translate(m, heap, root, va + k, write) == Some(pa + k)
                             && pa % PAGE_SIZE == va % PAGE_SIZE && pa + k < U64_LIMIT
  {
    hide Walk;
    assert va / PAGE_SIZE == (va + k) / PAGE_SIZE && (va + k) % PAGE_SIZE == va % PAGE_SIZE + k;
    WalkWithinPage(m, root, va, va + k);
    WalkOffset(m, root, va);
  }

  lemma WalkOffset(m: seq<Byte>, root: U64, va: U64)
    requires |m| == U64_LIMIT && IsPage(root)
    ensures Walk(m, root, va).Some? ==> Walk(m, root, va).value.phys % PAGE_SIZE == va % PAGE_SIZE
  {
    hide Entry, IsBranch, IsLeaf, PhysAddr;
  }

  // ---------- The validating pass ----------

  datatype Chunk = Chunk(pa: U64, len: nat)

  function Length(chunks: seq<Chunk>): nat {
    if chunks == [] then 0 else Length(chunks[..|chunks| - 1]) + chunks[|chunks| - 1].len
  }

  /** The physical address of byte `k` of the buffer. */
  function Phys(m: seq<Byte>, heap: Heap, root: U64, va: U64, k: nat, write: bool): U64
    requires |m| == U64_LIMIT && IsPage(root)
  {
    match Translate(m, heap, root, ByteAddr(va, k), write) case None => 0 case Some(pa) => pa
  }

  /** Chunk `c` holds consecutive bytes of the buffer, at the addresses they translate to. */
  ghost predicate ChunkOk(m: seq<Byte>, heap: Heap, root: U64, va: U64, done: nat, chunk: Chunk, write: bool)
    requires |m| == U64_LIMIT && IsPage(root)
  {
    && chunk.pa + chunk.len <= U64_LIMIT
    && forall k: nat :: done <= k < done + chunk.len ==> Phys(m, heap, root, va, k, write) == chunk.pa + (k - done)
  }

  ghost predicate Covers(m: seq<Byte>, heap: Heap, root: U64, va: U64, chunks: seq<Chunk>, write: bool)
    requires |m| == U64_LIMIT && IsPage(root)
  {
    forall c :: 0 <= c < |chunks| ==> ChunkOk(m, heap, root, va, Length(chunks[..c]), chunks[c], write)
  }

  method WalkUserRange(mem: array<Byte>, heap: Heap, satp: U64, va: U64, total: nat, write: bool)
    returns (r: Option<seq<Chunk>>)
    requires mem.Length == U64_LIMIT && total > 0
    ensures r.Some? <==> CopyOk(mem[..], heap, SatpToRoot(satp), va, total, write)
    ensures r.Some? ==> Length(r.value) == total && Covers(mem[..], heap, SatpToRoot(satp), va, r.value, write)
  {
    hide Walk, SatpToRoot, PagesTouched, AllBytes, Covers, Length, Translate, Has;
    var root := SatpToRoot(satp);
    var chunks: seq<Chunk> := [];
    var done := 0;
    NoChunks(mem[..], heap, root, va, write);
    while done < total
      invariant done <= total && Length(chunks) == done && |chunks| <= MAX_COPY_CHUNKS
      invariant done == 0 || va + done <= USER_VA_MAX
      invariant 0 < done < total ==> (va + done) % PAGE_SIZE == 0
      invariant |chunks| == if done == 0 then 0 else PagesTouched(va, done)
      invariant AllBytes(mem[..], heap, root, va, done, write)
      invariant Covers(mem[..], heap, root, va, chunks, write)
    {
      if |chunks| == MAX_COPY_CHUNKS {
        MorePages(va, done, total);
        return None;
      }
      var at := (va + done) % U64_LIMIT;
      Inaccessible(mem[..], heap, root, va, done, total, write);
      if at >= USER_VA_MAX { return None; }
      var left := PAGE_SIZE - at % PAGE_SIZE;
      var len := if left < total - done then left else total - done;
      var w := WalkLevels(mem[..], root, at);
      if w == None { return None; }
      if !Has(w.value.flags, FLAG_U) { return None; }
      if write && !Has(w.value.flags, FLAG_W) { return None; }
      if !heap.Contains(w.value.phys - w.value.phys % PAGE_SIZE) { return None; }
      var chunk := Chunk(w.value.phys, len);
      NextChunk(mem[..], heap, root, va, chunks, chunk, write);
      NextPage(va, done, len);
      chunks := chunks + [chunk];
      done := done + len;
    }
    return Some(chunks);
  }

  lemma NoChunks(m: seq<Byte>, heap: Heap, root: U64, va: U64, write: bool)
    requires |m| == U64_LIMIT && IsPage(root)
    ensures Length([]) == 0 && AllBytes(m, heap, root, va, 0, write) && Covers(m, heap, root, va, [], write)
  {
  }

  lemma MorePages(va: U64, done: nat, total: nat)
    requires 0 < done < total && (va + done) % PAGE_SIZE == 0
    ensures PagesTouched(va, total) > PagesTouched(va, done)
  {
  }

  /** One byte out of reach fails the whole copy. */
  lemma Inaccessible(m: seq<Byte>, heap: Heap, root: U64, va: U64, done: nat, total: nat, write: bool)
    requires |m| == U64_LIMIT && IsPage(root) && done < total
    ensures var at := ByteAddr(va, done);
            && (at >= USER_VA_MAX || Walk(m, root, at) == None || !Accessible(Walk(m, root, at).value, heap, write) ==>
                  !CopyOk(m, heap, root, va, total, write))
            && (at < USER_VA_MAX && Walk(m, root, at).Some? && Accessible(Walk(m, root, at).value, heap, write) ==>
                  Translate(m, heap, root, at, write) == Some(Walk(m, root, at).value.phys))
  {
    hide Walk, PagesTouched, Accessible;
    assert Translate(m, heap, root, ByteAddr(va, done), write).None? ==> !AllBytes(m, heap, root, va, total, write);
  }

  lemma NextPage(va: U64, done: nat, len: nat)
    requires va + done < USER_VA_MAX && 0 < len <= PAGE_SIZE - (va + done) % PAGE_SIZE
    requires done == 0 || (va + done) % PAGE_SIZE == 0
    ensures PagesTouched(va, done + len) == (if done == 0 then 0 else PagesTouched(va, done)) + 1
    ensures va + done + len <= USER_VA_MAX
  {
  }

  /** A validated page makes all its bytes accessible, at consecutive addresses. */
  lemma ChunkBytes(m: seq<Byte>, heap: Heap, root: U64, va: U64, done: nat, chunk: Chunk, write: bool)
    requires |m| == U64_LIMIT && IsPage(root) && AllBytes(m, heap, root, va, done, write)
    requires va + done < USER_VA_MAX && 0 < chunk.len <= PAGE_SIZE - (va + done) % PAGE_SIZE
    requires Translate(m, heap, root, va + done, write) == Some(chunk.pa)
    ensures AllBytes(m, heap, root, va, done + chunk.len, write)
    ensures ChunkOk(m, heap, root, va, done, chunk, write)
  {
    hide Translate, Walk;
    forall k: nat | done <= k < done + chunk.len
      ensures Translate(m, heap, root, ByteAddr(va, k), write) == Some(chunk.pa + (k - done))
              && chunk.pa + (k - done) < U64_LIMIT
    {
      SamePage(m, heap, root, va + done, k - done, write);
      assert ByteAddr(va, k) == va + k;
    }
    assert Translate(m, heap, root, ByteAddr(va, done + chunk.len - 1), write) == Some(chunk.pa + chunk.len - 1);
  }

  lemma NextChunk(m: seq<Byte>, heap: Heap, root: U64, va: U64, chunks: seq<Chunk>, chunk: Chunk, write: bool)
    requires |m| == U64_LIMIT && IsPage(root)
    requires var done := Length(chunks);
             && AllBytes(m, heap, root, va, done, write) && Covers(m, heap, root, va, chunks, write)
             && va + done < USER_VA_MAX && 0 < chunk.len <= PAGE_SIZE - (va + done) % PAGE_SIZE
             && Translate(m, heap, root, va + done, write) == Some(chunk.pa)
    ensures Length(chunks + [chunk]) == Length(chunks) + chunk.len
    ensures AllBytes(m, heap, root, va, Length(chunks) + chunk.len, write)
    ensures Covers(m, heap, root, va, chunks + [chunk], write)
  {
    hide Translate, AllBytes, ChunkOk, Walk, IsPage;
    var done, more := Length(chunks), chunks + [chunk];
    assert more[..|more| - 1] == chunks;
    ChunkBytes(m, heap, root, va, done, chunk, write);
    forall c | 0 <= c < |more| ensures ChunkOk(m, heap, root, va, Length(more[..c]), more[c], write) {
      if c < |chunks| { assert more[..c] == chunks[..c]; } else { assert more[..c] == chunks; }
    }
  }

  // ---------- The copying passes ----------

  /** What a byte-at-a-time read through the translations of memory `m` gives. */
  function ReadThrough(m: seq<Byte>, heap: Heap, root: U64, va: U64, n: nat): (bytes: seq<Byte>)
    requires |m| == U64_LIMIT && IsPage(root)
    ensures |bytes| == n
  {
    seq(n, k requires 0 <= k < n => m[Phys(m, heap, root, va, k, false)])
  }

  /** A byte-at-a-time write, in order, through the translations of the memory `start`. */
  function WriteThrough(m: seq<Byte>, start: seq<Byte>, heap: Heap, root: U64, va: U64,
        bytes: seq<Byte>): (r: seq<Byte>)
    requires |m| == U64_LIMIT && |start| == U64_LIMIT && IsPage(root)
    ensures |r| == |m|
  {
    if bytes == [] then m
    else
      var n := |bytes| - 1;
      WriteThrough(m, start, heap, root, va, bytes[..n])[Phys(start, heap, root, va, n, true) := bytes[n]]
  }

  method CopyFromUser(mem: array<Byte>, heap: Heap, satp: U64, va: U64, dst: array<Byte>) returns (ok: bool)
    requires mem.Length == U64_LIMIT && mem != dst
    modifies dst
    ensures ok <==> CopyOk(mem[..], heap, SatpToRoot(satp), va, dst.Length, false)
    ensures dst[..] == if ok then ReadThrough(mem[..], heap, SatpToRoot(satp), va, dst.Length) else old(dst[..])
  {
    hide Walk, SatpToRoot, Translate, Phys, ReadThrough, CopyOk, ChunkOk, Length;
    CopyNothing(mem[..], heap, SatpToRoot(satp), va);
    var total := dst.Length;
    if total == 0 { return true; }
    ghost var root, start := SatpToRoot(satp), mem[..];
    var r := WalkUserRange(mem, heap, satp, va, total, false);
    if r == None { return false; }
    var chunks := r.value;
    var done := 0;
    for c := 0 to |chunks|
      invariant done == Length(chunks[..c])
      invariant done <= total && dst[..done] == ReadThrough(start, heap, root, va, done)
    {
      var chunk := chunks[c];
      TakeOne(chunks, c);
      assert ChunkOk(start, heap, root, va, done, chunk, false);
      ReadChunk(start, heap, root, va, done, chunk);
      CopyBytes(mem, chunk.pa, dst, done, chunk.len);
      done := done + chunk.len;
    }
    assert chunks[..|chunks|] == chunks;
    return true;
  }

  /** `copy_nonoverlapping`. */
  method CopyBytes(src: array<Byte>, from: nat, dst: array<Byte>, to: nat, len: nat)
    requires src != dst && from + len <= src.Length && to + len <= dst.Length
    modifies dst
    ensures dst[..to] == old(dst[..to]) && dst[to..to + len] == src[from..from + len]
    ensures dst[to + len..] == old(dst[to + len..])
  {
    for b := 0 to len
      invariant dst[..to] == old(dst[..to]) && dst[to..to + b] == src[from..from + b]
      invariant dst[to + b..] == old(dst[to + b..])
    {
      dst[to + b] := src[from + b];
      assert dst[to..to + b + 1] == dst[to..to + b] + [src[from + b]];
    }
  }

  lemma ReadChunk(m: seq<Byte>, heap: Heap, root: U64, va: U64, done: nat, chunk: Chunk)
    requires |m| == U64_LIMIT && IsPage(root) && ChunkOk(m, heap, root, va, done, chunk, false)
    ensures chunk.pa + chunk.len <= U64_LIMIT
    ensures ReadThrough(m, heap, root, va, done + chunk.len) ==
            ReadThrough(m, heap, root, va, done) + m[chunk.pa..chunk.pa + chunk.len]
  {
    hide Phys, Translate, Walk;
  }

  lemma CopyNothing(m: seq<Byte>, heap: Heap, root: U64, va: U64)
    requires |m| == U64_LIMIT && IsPage(root)
    ensures Length([]) == 0 && CopyOk(m, heap, root, va, 0, true)
    ensures CopyOk(m, heap, root, va, 0, false) && ReadThrough(m, heap, root, va, 0) == []
  {
  }

  lemma PhysOf(m: seq<Byte>, heap: Heap, root: U64, va: U64, done: nat, chunk: Chunk, b: nat)
    requires |m| == U64_LIMIT && IsPage(root) && ChunkOk(m, heap, root, va, done, chunk, true) && b < chunk.len
    ensures Phys(m, heap, root, va, done + b, true) == chunk.pa + b < U64_LIMIT
  {
    hide Phys;
  }

  lemma {:induction false} TakeOne(chunks: seq<Chunk>, c: nat)
    requires c < |chunks|
    ensures Length(chunks[..c + 1]) == Length(chunks[..c]) + chunks[c].len
    ensures Length(chunks[..c + 1]) <= Length(chunks)
    decreases |chunks|
  {
    assert chunks[..c + 1][..c] == chunks[..c];
    var rest := chunks[..|chunks| - 1];
    if c + 1 < |chunks| {
      TakeOne(rest, c);
      assert rest[..c + 1] == chunks[..c + 1];
    } else {
      assert chunks[..c + 1] == chunks;
    }
  }

  method CopyToUser(mem: array<Byte>, heap: Heap, satp: U64, va: U64, src: seq<Byte>) returns (ok: bool)
    requires mem.Length == U64_LIMIT
    modifies mem
    ensures ok <==> CopyOk(old(mem[..]), heap, SatpToRoot(satp), va, |src|, true)
    ensures mem[..] == if ok then WriteThrough(old(mem[..]), old(mem[..]), heap, SatpToRoot(satp), va, src)
            else old(mem[..])
  {
    hide Walk, SatpToRoot, Translate, Phys, CopyOk, ChunkOk, Length;
    CopyNothing(mem[..], heap, SatpToRoot(satp), va);
    var total := |src|;
    if total == 0 { return true; }
    ghost var root, start := SatpToRoot(satp), mem[..];
    var r := WalkUserRange(mem, heap, satp, va, total, true);
    if r == None { return false; }
    var chunks := r.value;
    var done := 0;
    for c := 0 to |chunks|
      invariant done == Length(chunks[..c])
      invariant done <= total && mem[..] == WriteThrough(start, start, heap, root, va, src[..done])
    {
      var chunk := chunks[c];
      TakeOne(chunks, c);
      assert ChunkOk(start, heap, root, va, done, chunk, true);
      for b := 0 to chunk.len
        invariant mem[..] == WriteThrough(start, start, heap, root, va, src[..done + b])
      {
        PhysOf(start, heap, root, va, done, chunk, b);
        assert src[..done + b + 1][..done + b] == src[..done + b];
        mem[chunk.pa + b] := src[done + b];
      }
      done := done + chunk.len;
    }
    assert chunks[..|chunks|] == chunks && src[..total] == src;
    return true;
  }

  // ---------- What a write through translations does ----------

  /** Bytes that no address of the buffer translates to stay as they are. */
  lemma {:induction false} OtherBytesKept(m: seq<Byte>, start: seq<Byte>, heap: Heap, root: U64, va: U64,
        bytes: seq<Byte>, a: U64)
    requires |m| == U64_LIMIT && |start| == U64_LIMIT && IsPage(root)
    requires forall k: nat :: k < |bytes| ==> Phys(start, heap, root, va, k, true) != a
    ensures WriteThrough(m, start, heap, root, va, bytes)[a] == m[a]
    decreases |bytes|
  {
    hide Phys;
    if bytes != [] { OtherBytesKept(m, start, heap, root, va, bytes[..|bytes| - 1], a); }
  }

  /** Where several bytes of the buffer share an address, the last one is there. */
  lemma {:induction false} LastByteWins(m: seq<Byte>, start: seq<Byte>, heap: Heap, root: U64, va: U64,
        bytes: seq<Byte>, k: nat)
    requires |m| == U64_LIMIT && |start| == U64_LIMIT && IsPage(root) && k < |bytes|
    requires forall j: nat :: k < j < |bytes| ==>
             Phys(start, heap, root, va, j, true) != Phys(start, heap, root, va, k, true)
    ensures WriteThrough(m, start, heap, root, va, bytes)[Phys(start, heap, root, va, k, true)] == bytes[k]
    decreases |bytes|
  {
    hide Phys;
    if k < |bytes| - 1 { LastByteWins(m, start, heap, root, va, bytes[..|bytes| - 1], k); }
  }
}
