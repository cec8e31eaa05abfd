/** All page tables together: alias-free trees in one memory, and the partial maps they
    stand for. A write to one tree's pages leaves every other address space as it is. */
module AddressSpaces {
  import opened Words
  import opened PageAlloc
  import opened PageTable
  import opened PageTree

  /** The page tables, by the address of their root. */
  type Spaces = map<U64, Tree>

  /** What the tables mean: a partial map for each root. */
  type Views = map<U64, map<nat, Walked>>

  ghost predicate Forest(m: seq<Byte>, spaces: Spaces) {
    && |m| == U64_LIMIT
    && (forall r :: r in spaces ==> spaces[r].root == r && TreeOk(m, spaces[r]))
    && (forall r, s {:trigger spaces[r], spaces[s]} :: r in spaces && s in spaces && r != s ==>
          TablePages(spaces[r]) !! TablePages(spaces[s]))
  }

  ghost predicate OwnedBy(spaces: Spaces, used: set<U64>) {
    forall r :: r in spaces ==> TablePages(spaces[r]) <= used
  }

  lemma RootIsPage(m: seq<Byte>, spaces: Spaces, r: U64)
    requires Forest(m, spaces) && r in spaces
    ensures IsPage(r) && r in TablePages(spaces[r]) && spaces[r].root == r && TreeOk(m, spaces[r])
  {
    PagesAreTables(spaces[r]);
  }

  ghost function ViewsOf(m: seq<Byte>, spaces: Spaces): (views: Views)
    requires Forest(m, spaces)
    ensures views.Keys == spaces.Keys
  {
    map r | r in spaces :: RootIsPage(m, spaces, r); Translations(m, r)
  }

  /** Outside the given pages the memories are the same. */
  ghost predicate ChangedOnly(m: seq<Byte>, n: seq<Byte>, pages: set<U64>) {
    |m| == U64_LIMIT && |n| == U64_LIMIT
    && forall a :: 0 <= a < U64_LIMIT && a - a % PAGE_SIZE !in pages ==> n[a] == m[a]
  }

  lemma WriteChanges(m: seq<Byte>, p: U64, i: nat, w: U64)
    requires |m| == U64_LIMIT && IsPage(p) && i < PT_ENTRIES
    ensures ChangedOnly(m, WriteWord(m, p + i * 8, w), {p})
  {
    hide ToBytes;
    var n := WriteWord(m, p + i * 8, w);
    forall a | 0 <= a < U64_LIMIT && a - a % PAGE_SIZE != p ensures n[a] == m[a] {
      assert a < p || a >= p + PAGE_SIZE;
    }
  }

  lemma ZeroChanges(m: seq<Byte>, p: U64)
    requires |m| == U64_LIMIT && IsPage(p)
    ensures ChangedOnly(m, ZeroPage(m, p), {p})
  {
    forall a | 0 <= a < U64_LIMIT && a - a % PAGE_SIZE != p ensures ZeroPage(m, p)[a] == m[a] {
      assert a < p || a >= p + PAGE_SIZE;
    }
  }

  lemma ChangesAgree(m: seq<Byte>, n: seq<Byte>, pages: set<U64>, p: U64)
    requires ChangedOnly(m, n, pages) && IsPage(p) && p !in pages
    ensures AgreeOn(m, n, p)
  {
    forall j | 0 <= j < PT_ENTRIES ensures Entry(n, p, j) == Entry(m, p, j) {
      var a := p + j * 8;
      forall b | a <= b < a + 8 ensures n[b] == m[b] { assert b - b % PAGE_SIZE == p; }
      assert n[a..a + 8] == m[a..a + 8];
    }
  }

  /** Replacing the tree at `r` by `u`, whose new pages nobody used and outside which
      nothing changed, keeps the forest; only the view of `r` may change. */
  lemma ReplaceTree(m: seq<Byte>, n: seq<Byte>, spaces: Spaces, used: set<U64>, r: U64, u: Tree)
    requires Forest(m, spaces) && OwnedBy(spaces, used) && IsPage(r)
    requires u.root == r && TreeOk(n, u) && ChangedOnly(m, n, TablePages(u))
    requires TablePages(u) !! (if r in spaces then used - TablePages(spaces[r]) else used)
    ensures Forest(n, spaces[r := u]) && OwnedBy(spaces[r := u], used + TablePages(u))
    ensures ViewsOf(n, spaces[r := u]) == ViewsOf(m, spaces)[r := Translations(n, r)]
  {
    hide TreeOk, Walk, TablePages, IsPage, AgreeOn, Translations;
    var all := spaces[r := u];
    forall s | s in spaces && s != r
      ensures TablePages(spaces[s]) !! TablePages(u)
      ensures TreeOk(n, spaces[s]) && IsPage(s) && Translations(n, s) == Translations(m, s)
    {
      Elsewhere(m, n, spaces[s], TablePages(u));
    }
  }

  lemma Elsewhere(m: seq<Byte>, n: seq<Byte>, t: Tree, pages: set<U64>)
    requires TreeOk(m, t) && ChangedOnly(m, n, pages) && TablePages(t) !! pages
    ensures TreeOk(n, t) && t.root in TablePages(t) && IsPage(t.root)
    ensures Translations(n, t.root) == Translations(m, t.root)
  {
    PagesAreTables(t);
    hide Walk, Entry, RootOk, MidOk, LastOk, Disjoint, TablePages;
    forall p | p in TablePages(t) ensures AgreeOn(m, n, p) { ChangesAgree(m, n, pages, p); }
    Untouched(m, n, t);
    forall v | 0 <= v < VPAGES ensures Walk(n, t.root, v * 4096) == Walk(m, t.root, v * 4096) {}
  }

  /** Writing only pages that are no tables changes no translation at all. */
  lemma DataWrites(m: seq<Byte>, n: seq<Byte>, spaces: Spaces, pages: set<U64>)
    requires Forest(m, spaces) && ChangedOnly(m, n, pages)
    requires forall r :: r in spaces ==> TablePages(spaces[r]) !! pages
    ensures Forest(n, spaces) && ViewsOf(n, spaces) == ViewsOf(m, spaces)
  {
    hide TreeOk, Walk, TablePages, IsPage, AgreeOn, Translations;
    forall s | s in spaces
      ensures TreeOk(n, spaces[s]) && IsPage(s) && Translations(n, s) == Translations(m, s)
    {
      Elsewhere(m, n, spaces[s], pages);
    }
  }

  lemma SameView(m: seq<Byte>, spaces: Spaces, r: U64)
    requires Forest(m, spaces) && r in spaces
    ensures IsPage(r) && r in ViewsOf(m, spaces) && ViewsOf(m, spaces)[r] == Translations(m, r)
    ensures ViewsOf(m, spaces)[r := Translations(m, r)] == ViewsOf(m, spaces)
  {
    hide TreeOk, Translations, TablePages;
    RootIsPage(m, spaces, r);
  }

  /** From `before` to `after` only the tree at `root` changed, by taking in pages that
      were not in use. */
  ghost predicate Extends(before: Spaces, after: Spaces, root: U64, used: set<U64>) {
    && root in before && after.Keys == before.Keys
    && (forall r :: r in before && r != root ==> after[r] == before[r])
    && TablePages(before[root]) <= TablePages(after[root])
    && TablePages(after[root]) - TablePages(before[root]) !! used
  }

  // ---------- The three writes of map_page and unmap_page ----------

  /** A zeroed page is a table without entries. */
  lemma EmptyTree(m: seq<Byte>, p: U64)
    requires |m| == U64_LIMIT && IsPage(p)
    ensures TreeOk(ZeroPage(m, p), Tree(p, map[], map[]))
    ensures TablePages(Tree(p, map[], map[])) == {p}
    ensures Translations(ZeroPage(m, p), p) == map[]
  {
    var t := Tree(p, map[], map[]);
    var n := ZeroPage(m, p);
    assert TablePages(t) == {p};
    forall j | 0 <= j < PT_ENTRIES ensures Entry(n, p, j) == 0 { EntryAfterZero(m, p, p, j); }
    hide Entry, ZeroPage;
    assert TreeOk(n, t);
    forall v | 0 <= v < VPAGES ensures Walk(n, p, v * 4096) == None { WalkReadsLeaf(n, t, v * 4096); }
  }

  lemma GrowMid(m: seq<Byte>, t: Tree, i: nat, p: U64) returns (n: seq<Byte>, u: Tree)
    requires TreeOk(m, t) && i < PT_ENTRIES && i !in t.mid && IsPage(p) && p !in TablePages(t)
    ensures t.root in TablePages(t) && IsPage(t.root)
    ensures n == WriteWord(ZeroPage(m, p), t.root + i * 8, BranchPte(p))
    ensures u == t.(mid := t.mid[i := p]) && TablePages(u) == TablePages(t) + {p}
    ensures TreeOk(n, u) && ChangedOnly(m, n, TablePages(u)) && Translations(n, t.root) == Translations(m, t.root)
  {
    hide WriteWord, ZeroPage, BranchPte, Walk, Translations, RootOk, MidOk, LastOk;
    u := CreateMid(m, t, i, p);
    n := WriteWord(ZeroPage(m, p), t.root + i * 8, BranchPte(p));
    SameTranslations(m, t, n, u);
    ZeroChanges(m, p);
    WriteChanges(ZeroPage(m, p), t.root, i, BranchPte(p));
  }

  lemma GrowLast(m: seq<Byte>, t: Tree, i: nat, j: nat, p: U64) returns (n: seq<Byte>, u: Tree)
    requires TreeOk(m, t) && i in t.mid && j < PT_ENTRIES && (i, j) !in t.last && IsPage(p) && p !in TablePages(t)
    ensures t.mid[i] in TablePages(t) && IsPage(t.mid[i]) && t.root in TablePages(t) && IsPage(t.root)
    ensures n == WriteWord(ZeroPage(m, p), t.mid[i] + j * 8, BranchPte(p))
    ensures u == t.(last := t.last[(i, j) := p]) && TablePages(u) == TablePages(t) + {p}
    ensures TreeOk(n, u) && ChangedOnly(m, n, TablePages(u)) && Translations(n, t.root) == Translations(m, t.root)
  {
    hide WriteWord, ZeroPage, BranchPte, Walk, Translations, RootOk, MidOk, LastOk;
    u := CreateLast(m, t, i, j, p);
    n := WriteWord(ZeroPage(m, p), t.mid[i] + j * 8, BranchPte(p));
    SameTranslations(m, t, n, u);
    ZeroChanges(m, p);
    WriteChanges(ZeroPage(m, p), t.mid[i], j, BranchPte(p));
  }

  lemma WriteLeaf(m: seq<Byte>, t: Tree, va: U64, e: U64) returns (n: seq<Byte>)
    requires TreeOk(m, t) && (!IsValid(e) || IsLeaf(e))
    requires var (i, j, k, _) := VaParts(va); (i, j) in t.last
    ensures t.root in TablePages(t) && IsPage(t.root)
    ensures var (i, j, k, _) := VaParts(va);
            && t.last[(i, j)] in TablePages(t) && IsPage(t.last[(i, j)])
            && n == WriteWord(m, t.last[(i, j)] + k * 8, e)
    ensures TreeOk(n, t) && ChangedOnly(m, n, TablePages(t))
    ensures Translations(n, t.root) ==
            if IsValid(e) then Translations(m, t.root)[VPage(va) := Walked(PhysAddr(e), e % 1024)]
            else Translations(m, t.root) - {VPage(va)}
  {
    hide WriteWord, BranchPte, Walk, Translations, RootOk, MidOk, LastOk, VaParts, VPage, LeafOf, IsLeaf, PhysAddr;
    var (i, j, k, _) := VaParts(va);
    PagePart(va);
    SetLeaf(m, t, i, j, k, e);
    n := WriteWord(m, t.last[(i, j)] + k * 8, e);
    LeafTranslations(m, n, t, VPage(va), e);
    WriteChanges(m, t.last[(i, j)], k, e);
  }

  // ---------- The same for a forest ----------

  /** What one step on the address space `root` may do to the state. */
  ghost predicate StepOn(m: seq<Byte>, spaces: Spaces, used: set<U64>, n: seq<Byte>, after: Spaces,
        usedAfter: set<U64>, root: U64) {
    && Forest(m, spaces) && OwnedBy(spaces, used) && Forest(n, after) && OwnedBy(after, usedAfter) && used <= usedAfter
    && Extends(spaces, after, root, used)
    && ChangedOnly(m, n, TablePages(after[root]))
  }

  lemma NoStep(m: seq<Byte>, spaces: Spaces, used: set<U64>, root: U64)
    requires Forest(m, spaces) && OwnedBy(spaces, used) && root in spaces
    ensures StepOn(m, spaces, used, m, spaces, used, root)
  {
  }

  lemma StepKeepsForest(m: seq<Byte>, spaces: Spaces, used: set<U64>, n: seq<Byte>, after: Spaces,
        usedAfter: set<U64>, root: U64)
    requires StepOn(m, spaces, used, n, after, usedAfter, root)
    ensures Forest(n, after) && OwnedBy(after, usedAfter) && root in after && used <= usedAfter
            && after.Keys == spaces.Keys
  {
  }

  lemma TwoSteps(m: seq<Byte>, sm: Spaces, um: set<U64>, n: seq<Byte>, sn: Spaces, un: set<U64>,
                 o: seq<Byte>, so: Spaces, uo: set<U64>, root: U64)
    requires StepOn(m, sm, um, n, sn, un, root) && StepOn(n, sn, un, o, so, uo, root)
    ensures StepOn(m, sm, um, o, so, uo, root)
  {
    hide Forest, OwnedBy, TablePages;
  }

  lemma AddMid(m: seq<Byte>, spaces: Spaces, used: set<U64>, root: U64, i: nat, p: U64)
        returns (n: seq<Byte>, after: Spaces)
    requires Forest(m, spaces) && OwnedBy(spaces, used) && root in spaces
    requires i < PT_ENTRIES && i !in spaces[root].mid && IsPage(p) && p !in used
    ensures IsPage(root) && n == WriteWord(ZeroPage(m, p), root + i * 8, BranchPte(p))
    ensures StepOn(m, spaces, used, n, after, used + {p}, root) && ViewsOf(n, after) == ViewsOf(m, spaces)
    ensures i in after[root].mid && after[root].mid[i] == p
  {
    hide WriteWord, ZeroPage, BranchPte, Translations, TreeOk, TablePages, ViewsOf, ChangedOnly;
    RootIsPage(m, spaces, root);
    var u: Tree;
    n, u := GrowMid(m, spaces[root], i, p);
    ReplaceTree(m, n, spaces, used, root, u);
    SameView(m, spaces, root);
    after := spaces[root := u];
    assert used + TablePages(u) == used + {p};
  }

  lemma AddLast(m: seq<Byte>, spaces: Spaces, used: set<U64>, root: U64, i: nat, j: nat, p: U64)
        returns (n: seq<Byte>, after: Spaces)
    requires Forest(m, spaces) && OwnedBy(spaces, used) && root in spaces && i in spaces[root].mid
    requires j < PT_ENTRIES && (i, j) !in spaces[root].last && IsPage(p) && p !in used
    ensures IsPage(spaces[root].mid[i]) && n == WriteWord(ZeroPage(m, p), spaces[root].mid[i] + j * 8, BranchPte(p))
    ensures StepOn(m, spaces, used, n, after, used + {p}, root) && ViewsOf(n, after) == ViewsOf(m, spaces)
    ensures (i, j) in after[root].last && after[root].last[(i, j)] == p
  {
    hide WriteWord, ZeroPage, BranchPte, Translations, TreeOk, TablePages, ViewsOf, ChangedOnly;
    RootIsPage(m, spaces, root);
    var u: Tree;
    n, u := GrowLast(m, spaces[root], i, j, p);
    ReplaceTree(m, n, spaces, used, root, u);
    SameView(m, spaces, root);
    after := spaces[root := u];
    assert used + TablePages(u) == used + {p};
  }

  /** Writing a last-level entry updates the partial map of one space at one page. */
  lemma PutLeaf(m: seq<Byte>, spaces: Spaces, used: set<U64>, root: U64, va: U64, e: U64) returns (n: seq<Byte>)
    requires Forest(m, spaces) && OwnedBy(spaces, used) && root in spaces && (!IsValid(e) || IsLeaf(e))
    requires var (i, j, k, _) := VaParts(va); (i, j) in spaces[root].last
    ensures var (i, j, k, _) := VaParts(va);
            IsPage(spaces[root].last[(i, j)]) && n == WriteWord(m, spaces[root].last[(i, j)] + k * 8, e)
    ensures StepOn(m, spaces, used, n, spaces, used, root)
    ensures ViewsOf(n, spaces) == if IsValid(e)
            then Mapped(ViewsOf(m, spaces), root, VPage(va), Walked(PhysAddr(e), e % 1024))
                                  else Unmapped(ViewsOf(m, spaces), root, VPage(va))
  {
    hide WriteWord, BranchPte, Translations, TreeOk, TablePages, ViewsOf, ChangedOnly, VaParts, VPage, IsLeaf, PhysAddr;
    RootIsPage(m, spaces, root);
    n := WriteLeaf(m, spaces[root], va, e);
    ReplaceTree(m, n, spaces, used, root, spaces[root]);
    SameView(m, spaces, root);
    assert spaces[root := spaces[root]] == spaces;
    assert used + TablePages(spaces[root]) == used;
  }

  /** What the entries on the way down say about the tree and the partial map. */
  lemma WayDown(m: seq<Byte>, spaces: Spaces, root: U64, va: U64)
    requires Forest(m, spaces) && root in spaces
    ensures IsPage(root) && root in ViewsOf(m, spaces)
    ensures var (i, j, k, _) := VaParts(va);
            var t := spaces[root];
            var e2 := Entry(m, root, i);
            && (IsValid(e2) <==> i in t.mid)
            && (IsValid(e2) ==> IsBranch(e2) && PhysAddr(e2) == t.mid[i])
            && (i in t.mid ==> IsPage(t.mid[i]))
            && (i in t.mid ==> (var e1 := Entry(m, t.mid[i], j);
                 && (IsValid(e1) <==> (i, j) in t.last)
                 && (IsValid(e1) ==> IsBranch(e1) && PhysAddr(e1) == t.last[(i, j)])))
            && ((i, j) in t.last ==> i in t.mid && IsPage(t.last[(i, j)]))
            && ((i, j) in t.last ==> (var e0 := Entry(m, t.last[(i, j)], k);
                 && (IsValid(e0) ==> IsLeaf(e0))
                 && (IsValid(e0) <==> VPage(va) in ViewsOf(m, spaces)[root])))
            && ((i, j) !in t.last ==> VPage(va) !in ViewsOf(m, spaces)[root])
  {
    var (i, j, k, _) := VaParts(va);
    RootIsPage(m, spaces, root);
    SameView(m, spaces, root);
    PagesAreTables(spaces[root]);
    hide IsBranch, IsLeaf, PhysAddr, NewPte, VPage, VaParts, Walk, Translations, ViewsOf, Entry;
    UpperEntriesBranch(m, spaces[root], i, j);
    WalkReadsLeaf(m, spaces[root], va);
    WalkIsLookup(m, root, va);
  }

  /** One update, or one removal, in the partial map of one address space. */
  ghost function Mapped(views: Views, root: U64, v: nat, w: Walked): Views
    requires root in views
  {
    var tr: map<nat, Walked> := views[root][v := w]; views[root := tr]
  }

  ghost function Unmapped(views: Views, root: U64, v: nat): Views
    requires root in views
  {
    views[root := views[root] - {v}]
  }

  lemma UnmappedAbsent(views: Views, root: U64, v: nat)
    requires root in views
    ensures v !in views[root] ==> Unmapped(views, root, v) == views
  {
    if v !in views[root] { assert views[root] - {v} == views[root]; }
  }

  /** A zeroed page that nobody used becomes an empty address space. */
  lemma AddRoot(m: seq<Byte>, spaces: Spaces, used: set<U64>, p: U64)
    requires Forest(m, spaces) && OwnedBy(spaces, used) && IsPage(p) && p !in used
    ensures var after := spaces[p := Tree(p, map[], map[])];
            && Forest(ZeroPage(m, p), after) && OwnedBy(after, used + {p})
            && ViewsOf(ZeroPage(m, p), after) == ViewsOf(m, spaces)[p := map[]]
  {
    hide TreeOk, ZeroPage, Translations, ViewsOf, ChangedOnly, TablePages;
    EmptyTree(m, p);
    ZeroChanges(m, p);
    FreshRoot(m, spaces, used, p);
    ReplaceTree(m, ZeroPage(m, p), spaces, used, p, Tree(p, map[], map[]));
  }

  /** A zeroed page that nobody used changes no translation. */
  lemma FreshPage(m: seq<Byte>, spaces: Spaces, used: set<U64>, p: U64)
    requires Forest(m, spaces) && OwnedBy(spaces, used) && IsPage(p) && p !in used
    ensures Forest(ZeroPage(m, p), spaces) && OwnedBy(spaces, used + {p})
    ensures ViewsOf(ZeroPage(m, p), spaces) == ViewsOf(m, spaces)
  {
    hide TreeOk, ZeroPage, Translations, ViewsOf, ChangedOnly, TablePages;
    ZeroChanges(m, p);
    DataWrites(m, ZeroPage(m, p), spaces, {p});
  }

  lemma FreshRoot(m: seq<Byte>, spaces: Spaces, used: set<U64>, p: U64)
    requires Forest(m, spaces) && OwnedBy(spaces, used) && p !in used
    ensures p !in spaces
  {
    if p in spaces { RootIsPage(m, spaces, p); }
  }

  /** All table pages. */
  ghost function Tables(spaces: Spaces): set<U64> {
    set r, p | r in spaces && p in TablePages(spaces[r]) :: p
  }

  /** Zeroing and freeing a page keeps the tables in order iff it is not one of them. */
  lemma FreedPage(m: seq<Byte>, spaces: Spaces, used: set<U64>, p: U64)
    requires Forest(m, spaces) && OwnedBy(spaces, used) && IsPage(p) && p in used
    ensures Forest(ZeroPage(m, p), spaces) && OwnedBy(spaces, used - {p}) <==> p !in Tables(spaces)
    ensures p !in Tables(spaces) ==> ViewsOf(ZeroPage(m, p), spaces) == ViewsOf(m, spaces)
  {
    hide TreeOk, ZeroPage, Translations, ViewsOf, ChangedOnly, TablePages;
    ZeroChanges(m, p);
    if p !in Tables(spaces) {
      DataWrites(m, ZeroPage(m, p), spaces, {p});
    } else {
      var r, q :| r in spaces && q in TablePages(spaces[r]) && q == p;
      assert !OwnedBy(spaces, used - {p});
    }
  }
}
