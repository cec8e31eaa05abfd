/** The shape of a three-level table in flat memory, and what the writes of kvm.rs do to
    it: creating tables changes no translation, writing a leaf changes exactly one page. */
module PageTree {
  import opened Words
  import opened PageAlloc
  import opened PageTable

  /** The pages of one address space: the root, a middle table per VPN[2], a last-level
      table per pair of VPN[2] and VPN[1]. */
  datatype Tree = Tree(root: U64, mid: map<nat, U64>, last: map<(nat, nat), U64>)

  ghost predicate Disjoint(t: Tree) {
    && t.root !in t.mid.Values && t.root !in t.last.Values && t.mid.Values !! t.last.Values
    && (forall i, j {:trigger t.mid[i], t.mid[j]} :: i in t.mid && j in t.mid && t.mid[i] == t.mid[j] ==> i == j)
    && (forall i, j {:trigger t.last[i], t.last[j]} :: i in t.last && j in t.last && t.last[i] == t.last[j] ==> i == j)
  }

  ghost function TablePages(t: Tree): set<U64> { {t.root} + t.mid.Values + t.last.Values }

  ghost predicate InRange(t: Tree) {
    && (forall p :: p in TablePages(t) ==> IsPage(p))
    && (forall i :: i in t.mid ==> i < PT_ENTRIES)
    && (forall k :: k in t.last ==> k.0 in t.mid && k.1 < PT_ENTRIES)
  }

  lemma PagesAreTables(t: Tree)
    ensures t.root in TablePages(t)
    ensures forall i :: i in t.mid ==> t.mid[i] in TablePages(t)
    ensures forall k :: k in t.last ==> t.last[k] in TablePages(t)
  {
  }

  ghost predicate RootOk(m: seq<Byte>, t: Tree)
    requires |m| == U64_LIMIT && InRange(t)
  {
    PagesAreTables(t);
    forall i :: 0 <= i < PT_ENTRIES ==>
      if i in t.mid then Entry(m, t.root, i) == BranchPte(t.mid[i]) else !IsValid(Entry(m, t.root, i))
  }

  ghost predicate MidOk(m: seq<Byte>, t: Tree)
    requires |m| == U64_LIMIT && InRange(t)
  {
    PagesAreTables(t);
    forall i, j {:trigger Entry(m, t.mid[i], j)} :: i in t.mid && 0 <= j < PT_ENTRIES ==>
      if (i, j) in t.last then Entry(m, t.mid[i], j) == BranchPte(t.last[(i, j)]) else !IsValid(Entry(m, t.mid[i], j))
  }

  ghost predicate LastOk(m: seq<Byte>, t: Tree)
    requires |m| == U64_LIMIT && InRange(t)
  {
    PagesAreTables(t);
    forall k, j {:trigger Entry(m, t.last[k], j)} :: k in t.last && 0 <= j < PT_ENTRIES ==>
      !IsValid(Entry(m, t.last[k], j)) || IsLeaf(Entry(m, t.last[k], j))
  }

  /** Memory `m` holds the table `t`: tables are pages that nobody else uses, every entry
      of the upper levels is a branch to its own table or invalid, every entry of the last
      level is a leaf or invalid. */
  ghost predicate TreeOk(m: seq<Byte>, t: Tree) {
    |m| == U64_LIMIT && InRange(t) && Disjoint(t) && RootOk(m, t) && MidOk(m, t) && LastOk(m, t)
  }

  /** The branch assertion of `walk_or_create` holds: a valid entry of an upper level is a
      branch, and leads to the table it should. */
  lemma UpperEntriesBranch(m: seq<Byte>, t: Tree, i: nat, j: nat)
    requires TreeOk(m, t) && i < PT_ENTRIES && j < PT_ENTRIES
    ensures t.root in TablePages(t)
    ensures var e := Entry(m, t.root, i);
            && (IsValid(e) <==> i in t.mid)
            && (IsValid(e) ==> IsBranch(e) && PhysAddr(e) == t.mid[i])
    ensures i in t.mid ==> t.mid[i] in TablePages(t)
    ensures i in t.mid ==> (var e := Entry(m, t.mid[i], j);
              && (IsValid(e) <==> (i, j) in t.last)
              && (IsValid(e) ==> IsBranch(e) && PhysAddr(e) == t.last[(i, j)]))
  {
    hide IsBranch, IsLeaf, PhysAddr, NewPte, Entry, LeafFlags, LastOk, Disjoint;
    PagesAreTables(t);
    if i in t.mid { BranchRoundTrip(t.mid[i]); }
    if (i, j) in t.last { BranchRoundTrip(t.last[(i, j)]); }
  }

  lemma BranchRoundTrip(p: U64)
    requires IsPage(p)
    ensures var e := BranchPte(p); IsValid(e) && IsBranch(e) && PhysAddr(e) == p
  {
    PteRoundTrip(p, FLAG_V);
  }

  /** The last-level entry that translates the page with these indices. */
  ghost function LeafOf(m: seq<Byte>, t: Tree, i: nat, j: nat, k: nat): U64
    requires TreeOk(m, t) && k < PT_ENTRIES
  {
    PagesAreTables(t);
    if (i, j) in t.last then Entry(m, t.last[(i, j)], k) else 0
  }

  lemma LeafKinds(e: U64)
    ensures IsLeaf(e) ==> IsValid(e)
    ensures IsBranch(e) ==> IsValid(e)
  {
  }

  /** The walk reads exactly that entry. */
  lemma WalkReadsLeaf(m: seq<Byte>, t: Tree, va: U64)
    requires TreeOk(m, t)
    ensures t.root in TablePages(t) && IsPage(t.root)
    ensures var (i, j, k, offset) := VaParts(va);
            var e := LeafOf(m, t, i, j, k);
            Walk(m, t.root, va) == if IsValid(e) then Some(Walked(PhysAddr(e) + offset, e % 1024)) else None
  {
    hide IsBranch, IsLeaf, PhysAddr, NewPte, Entry, VaParts, RootOk, MidOk, Disjoint, BranchPte;
    PagesAreTables(t);
    var (i, j, k, offset) := VaParts(va);
    UpperEntriesBranch(m, t, i, j);
    LeafKinds(Entry(m, t.root, i));
    if i in t.mid { LeafKinds(Entry(m, t.mid[i], j)); }
    if (i, j) in t.last { LeafKinds(Entry(m, t.last[(i, j)], k)); }
  }

  // ---------- Writes ----------

  lemma EntryAfterWrite(m: seq<Byte>, q: nat, i: nat, w: U64, p: nat, j: nat)
    requires |m| == U64_LIMIT && IsPage(q) && IsPage(p) && i < PT_ENTRIES && j < PT_ENTRIES
    ensures Entry(WriteWord(m, q + i * 8, w), p, j) == if p == q && i == j then w else Entry(m, p, j)
  {
    hide ReadWord, WriteWord;
    SlotOf(q, i);
    SlotOf(p, j);
    ReadWritten(m, q + i * 8, w, p + j * 8);
  }

  /** An entry is an aligned word, whose address tells page and index. */
  lemma SlotOf(p: nat, j: nat)
    requires p % PAGE_SIZE == 0 && j < PT_ENTRIES
    ensures (p + j * 8) % 8 == 0 && (p + j * 8) / PAGE_SIZE * PAGE_SIZE == p && (p + j * 8) % PAGE_SIZE == j * 8
  {
    var k := p / PAGE_SIZE;
    assert p == PAGE_SIZE * k;
    assert p + j * 8 == 8 * (512 * k + j);
  }

  lemma PageOrApart(q: nat, p: nat, j: nat)
    requires q % PAGE_SIZE == 0 && p % PAGE_SIZE == 0 && j < PT_ENTRIES
    ensures q <= p + j * 8 < q + PAGE_SIZE <==> p == q
  {
    var x, y := q / PAGE_SIZE, p / PAGE_SIZE;
    assert q == PAGE_SIZE * x && p == PAGE_SIZE * y;
  }

  lemma EntryAfterZero(m: seq<Byte>, q: nat, p: nat, j: nat)
    requires |m| == U64_LIMIT && IsPage(q) && IsPage(p) && j < PT_ENTRIES
    ensures Entry(ZeroPage(m, q), p, j) == if p == q then 0 else Entry(m, p, j)
  {
    hide ReadWord, ZeroPage;
    SlotOf(p, j);
    PageOrApart(q, p, j);
    ReadZeroed(m, q, p + j * 8);
  }

  /** Two memories agree on a page, seen as 512 entries. */
  ghost predicate AgreeOn(m: seq<Byte>, n: seq<Byte>, p: nat)
    requires |m| == U64_LIMIT && |n| == U64_LIMIT && IsPage(p)
  {
    forall j :: 0 <= j < PT_ENTRIES ==> Entry(n, p, j) == Entry(m, p, j)
  }

  /** A tree whose pages are left alone keeps its shape and all its translations. */
  lemma Untouched(m: seq<Byte>, n: seq<Byte>, t: Tree)
    requires TreeOk(m, t) && |n| == U64_LIMIT && forall p :: p in TablePages(t) ==> AgreeOn(m, n, p)
    ensures TreeOk(n, t)
    ensures forall va: U64 :: Walk(n, t.root, va) == Walk(m, t.root, va)
  {
    hide Entry, IsLeaf, NewPte, VaParts, PhysAddr, Walk;
    PagesAreTables(t);
    assert AgreeOn(m, n, t.root);
    assert RootOk(n, t);
    forall i, j | i in t.mid && 0 <= j < PT_ENTRIES ensures Entry(n, t.mid[i], j) == Entry(m, t.mid[i], j) {
      assert AgreeOn(m, n, t.mid[i]);
    }
    assert MidOk(n, t);
    forall k, j | k in t.last && 0 <= j < PT_ENTRIES ensures Entry(n, t.last[k], j) == Entry(m, t.last[k], j) {
      assert AgreeOn(m, n, t.last[k]);
    }
    assert LastOk(n, t);
    forall va: U64 ensures Walk(n, t.root, va) == Walk(m, t.root, va) {
      WalkReadsLeaf(m, t, va);
      WalkReadsLeaf(n, t, va);
    }
  }

  lemma ValuesGrow<K, V>(m: map<K, V>, k: K, v: V)
    requires k !in m
    ensures m[k := v].Values == m.Values + {v}
  {
    forall w | w in m.Values + {v} ensures w in m[k := v].Values {
      if w in m.Values {
        var i :| i in m && m[i] == w;
        assert m[k := v][i] == w;
      } else {
        assert m[k := v][k] == w;
      }
    }
  }

  /** Installing a zeroed page as the table of VPN[2] == i: the tree grows, no
      translation changes. */
  lemma CreateMid(m: seq<Byte>, t: Tree, i: nat, p: U64) returns (u: Tree)
    requires TreeOk(m, t) && i < PT_ENTRIES && i !in t.mid && IsPage(p) && p !in TablePages(t)
    ensures u == t.(mid := t.mid[i := p])
    ensures t.root in TablePages(t) && IsPage(t.root)
    ensures TablePages(u) == TablePages(t) + {p}
    ensures TreeOk(WriteWord(ZeroPage(m, p), t.root + i * 8, BranchPte(p)), u)
    ensures SameLeaves(m, t, WriteWord(ZeroPage(m, p), t.root + i * 8, BranchPte(p)), u)
  {
    hide Entry, IsLeaf, NewPte, PhysAddr, ReadWord, WriteWord, ZeroPage;
    PagesAreTables(t);
    u := t.(mid := t.mid[i := p]);
    ValuesGrow(t.mid, i, p);
    PagesAreTables(u);
    var z := ZeroPage(m, p);
    var n := WriteWord(z, t.root + i * 8, BranchPte(p));
    forall q: U64, j | IsPage(q) && 0 <= j < PT_ENTRIES
      ensures Entry(n, q, j) == if q == t.root && j == i then BranchPte(p) else if q == p then 0 else Entry(m, q, j)
    {
      EntryAfterWrite(z, t.root, i, BranchPte(p), q, j);
      EntryAfterZero(m, p, q, j);
    }
    assert RootOk(n, u);
    assert MidOk(n, u) by {
      forall i', j | i' in u.mid && 0 <= j < PT_ENTRIES
        ensures if (i', j) in u.last then Entry(n, u.mid[i'], j) == BranchPte(u.last[(i', j)])
                else !IsValid(Entry(n, u.mid[i'], j))
      {
        if i' != i { assert Entry(n, t.mid[i'], j) == Entry(m, t.mid[i'], j); }
      }
    }
    assert LastOk(n, u);
    assert TreeOk(n, u);
  }

  /** The same one level down. */
  lemma CreateLast(m: seq<Byte>, t: Tree, i: nat, j: nat, p: U64) returns (u: Tree)
    requires TreeOk(m, t) && i in t.mid && j < PT_ENTRIES && (i, j) !in t.last && IsPage(p) && p !in TablePages(t)
    ensures u == t.(last := t.last[(i, j) := p])
    ensures t.mid[i] in TablePages(t) && IsPage(t.mid[i])
    ensures TablePages(u) == TablePages(t) + {p}
    ensures TreeOk(WriteWord(ZeroPage(m, p), t.mid[i] + j * 8, BranchPte(p)), u)
    ensures SameLeaves(m, t, WriteWord(ZeroPage(m, p), t.mid[i] + j * 8, BranchPte(p)), u)
  {
    hide Entry, IsLeaf, NewPte, PhysAddr, ReadWord, WriteWord, ZeroPage;
    PagesAreTables(t);
    u := t.(last := t.last[(i, j) := p]);
    ValuesGrow(t.last, (i, j), p);
    PagesAreTables(u);
    var z := ZeroPage(m, p);
    var n := WriteWord(z, t.mid[i] + j * 8, BranchPte(p));
    forall q: U64, k | IsPage(q) && 0 <= k < PT_ENTRIES
      ensures Entry(n, q, k) == if q == t.mid[i] && k == j then BranchPte(p) else if q == p then 0 else Entry(m, q, k)
    {
      EntryAfterWrite(z, t.mid[i], j, BranchPte(p), q, k);
      EntryAfterZero(m, p, q, k);
    }
    assert RootOk(n, u);
    assert MidOk(n, u);
    assert LastOk(n, u);
    assert TreeOk(n, u);
  }

  /** Writing a leaf or an invalid entry into a last-level table changes that one entry. */
  lemma SetLeaf(m: seq<Byte>, t: Tree, i: nat, j: nat, k: nat, e: U64)
    requires TreeOk(m, t) && (i, j) in t.last && k < PT_ENTRIES && (!IsValid(e) || IsLeaf(e))
    ensures t.last[(i, j)] in TablePages(t) && IsPage(t.last[(i, j)])
    ensures var n := WriteWord(m, t.last[(i, j)] + k * 8, e);
            && TreeOk(n, t)
            && forall a, b, c {:trigger LeafOf(n, t, a, b, c)} :: 0 <= a && 0 <= b && 0 <= c < PT_ENTRIES ==>
                 LeafOf(n, t, a, b, c) == if (a, b, c) == (i, j, k) then e else LeafOf(m, t, a, b, c)
  {
    hide Entry, IsLeaf, NewPte, PhysAddr, ReadWord, WriteWord, ZeroPage;
    PagesAreTables(t);
    var n := WriteWord(m, t.last[(i, j)] + k * 8, e);
    forall q: U64, c | IsPage(q) && 0 <= c < PT_ENTRIES
      ensures Entry(n, q, c) == if q == t.last[(i, j)] && c == k then e else Entry(m, q, c)
    {
      EntryAfterWrite(m, t.last[(i, j)], k, e, q, c);
    }
    assert RootOk(n, t);
    assert MidOk(n, t);
    assert LastOk(n, t);
    assert TreeOk(n, t);
  }

  ghost predicate SameLeaves(m: seq<Byte>, t: Tree, n: seq<Byte>, u: Tree) {
    TreeOk(m, t) && TreeOk(n, u) && t.root == u.root &&
    forall a, b, c {:trigger LeafOf(n, u, a, b, c)} :: 0 <= a && 0 <= b && 0 <= c < PT_ENTRIES ==>
      LeafOf(n, u, a, b, c) == LeafOf(m, t, a, b, c)
  }

  // ---------- The partial map that a table stands for ----------

  /** Page numbers have 27 bits. */
  const VPAGES := 0x800_0000

  function VPage(va: U64): (v: nat)
    ensures v < VPAGES
  {
    va / 4096 % VPAGES
  }

  /** The partial map from virtual page to physical page and flags, read back by the walk. */
  ghost function Translations(m: seq<Byte>, root: U64): map<nat, Walked>
    requires |m| == U64_LIMIT && IsPage(root)
  {
    map v | 0 <= v < VPAGES && Walk(m, root, v * 4096).Some? :: Walk(m, root, v * 4096).value
  }

  lemma PagePart(va: U64)
    ensures var (i, j, k, offset) := VaParts(va); VaParts(VPage(va) * 4096) == (i, j, k, 0) && offset == va % 4096
  {
    var v, c := VPage(va), va / 4096 / VPAGES;
    assert v * 4096 / 4096 == v;
    SameIndices(va / 4096, c, v);
  }

  lemma SameIndices(page: nat, c: nat, v: nat)
    requires page == c * VPAGES + v && v < VPAGES
    ensures page % 512 == v % 512 && page / 512 % 512 == v / 512 % 512 && page / 512 / 512 % 512 == v / 512 / 512 % 512
  {
    var k, w := v % 512, v / 512;
    var j, i := w % 512, w / 512;
    Split512(page, (c * 512 + i) * 512 + j, k);
    Split512((c * 512 + i) * 512 + j, c * 512 + i, j);
    Split512(c * 512 + i, c, i);
    Split512(i, 0, i);
  }

  /** The three indices determine the page. */
  lemma PartsOfPage(v: nat)
    requires v < VPAGES
    ensures var (i, j, k, offset) := VaParts(v * 4096); v == (i * 512 + j) * 512 + k && offset == 0
  {
    assert v * 4096 / 4096 == v;
  }

  /** Every walk, at any address and offset, is a lookup. */
  lemma WalkIsLookup(m: seq<Byte>, root: U64, va: U64)
    requires |m| == U64_LIMIT && IsPage(root)
    ensures var tr := Translations(m, root);
            && (VPage(va) in tr ==> tr[VPage(va)].phys + va % 4096 < U64_LIMIT)
            && Walk(m, root, va) == if VPage(va) in tr
                then Some(Walked(tr[VPage(va)].phys + va % 4096, tr[VPage(va)].flags))
                                 else None
  {
    hide Entry, IsLeaf, IsBranch, VaParts, VPage, PhysAddr;
    PagePart(va);
    assert Walk(m, root, VPage(va) * 4096).Some? <==> VPage(va) in Translations(m, root);
  }

  lemma SameTranslations(m: seq<Byte>, t: Tree, n: seq<Byte>, u: Tree)
    requires SameLeaves(m, t, n, u)
    ensures t.root in TablePages(t) && IsPage(t.root)
    ensures Translations(n, u.root) == Translations(m, t.root)
  {
    PagesAreTables(t);
    hide LeafOf, Walk, VaParts, PhysAddr, RootOk, MidOk, LastOk, Disjoint;
    forall v | 0 <= v < VPAGES ensures Walk(n, u.root, v * 4096) == Walk(m, t.root, v * 4096) {
      WalkReadsLeaf(m, t, v * 4096);
      WalkReadsLeaf(n, u, v * 4096);
    }
  }

  /** One changed leaf is one update, or one removal, of the partial map. */
  lemma LeafTranslations(m: seq<Byte>, n: seq<Byte>, t: Tree, v: nat, e: U64)
    requires TreeOk(m, t) && TreeOk(n, t) && v < VPAGES
    requires forall a, b, c {:trigger LeafOf(n, t, a, b, c)} :: 0 <= a && 0 <= b && 0 <= c < PT_ENTRIES ==>
               LeafOf(n, t, a, b, c) == if (a, b, c) == Indices(v) then e else LeafOf(m, t, a, b, c)
    ensures t.root in TablePages(t) && IsPage(t.root)
    ensures Translations(n, t.root) ==
            if IsValid(e) then Translations(m, t.root)[v := Walked(PhysAddr(e), e % 1024)]
            else Translations(m, t.root) - {v}
  {
    PagesAreTables(t);
    hide LeafOf, Walk, VaParts, PhysAddr, RootOk, MidOk, LastOk, Disjoint;
    forall w | 0 <= w < VPAGES
      ensures Walk(n, t.root, w * 4096) ==
              if w != v then Walk(m, t.root, w * 4096) else if IsValid(e) then Some(Walked(PhysAddr(e), e % 1024))
                  else None
    {
      WalkReadsLeaf(m, t, w * 4096);
      WalkReadsLeaf(n, t, w * 4096);
      PartsOfPage(v);
      PartsOfPage(w);
    }
  }

  function Indices(v: nat): (nat, nat, nat)
    requires v < VPAGES
  {
    var (i, j, k, _) := VaParts(v * 4096); (i, j, k)
  }
}
