/** Sv39 page-table entries, address splitting, satp and the page walk
    (page_table.rs; section 4.4 of the RISC-V Privileged Architecture, version 20211203). */
module PageTable {
  import opened Words
  import opened Bits
  import opened PageAlloc

  const PT_ENTRIES := 512

  // Flag bits of an entry.
  const FLAG_V := 1
  const FLAG_R := 2
  const FLAG_W := 4
  const FLAG_X := 8
  const FLAG_U := 16
  const FLAG_G := 32
  const FLAG_A := 64
  const FLAG_D := 128

  const USER_RX := FLAG_V + FLAG_R + FLAG_X + FLAG_U + FLAG_A
  const USER_RW := FLAG_V + FLAG_R + FLAG_W + FLAG_U + FLAG_A + FLAG_D

  /** `flags.contains(bit)` for a single bit. */
  predicate Has(flags: nat, bit: nat)
    requires bit > 0
  {
    flags / bit % 2 == 1
  }

  /** Any of R, W and X. */
  predicate LeafFlags(flags: nat) { flags / 2 % 8 != 0 }

  predicate IsValid(pte: nat) { pte % 2 == 1 }
  predicate IsLeaf(pte: nat) { IsValid(pte) && LeafFlags(pte % 1024) }
  predicate IsBranch(pte: nat) { IsValid(pte) && !LeafFlags(pte % 1024) }

  /** The address of a page of physical memory. */
  predicate IsPage(p: nat) { p % PAGE_SIZE == 0 && p + PAGE_SIZE <= U64_LIMIT }

  /** The physical address in an entry; bits shifted out of the word are lost. */
  function PhysAddr(pte: U64): (pa: U64)
    ensures IsPage(pa)
  {
    pte / 1024 % 0x10_0000_0000_0000 * 4096
  }

  function NewPte(pa: U64, flags: nat): (pte: U64)
    requires flags < 1024
  {
    pa / 4096 * 1024 + flags
  }

  function BranchPte(table: U64): U64 { NewPte(table, FLAG_V) }

  /** An entry gives back the page and the flags it was built from. */
  lemma PteRoundTrip(pa: U64, flags: nat)
    requires flags < 1024
    ensures PhysAddr(NewPte(pa, flags)) == pa - pa % PAGE_SIZE
    ensures NewPte(pa, flags) % 1024 == flags
    ensures IsValid(NewPte(pa, flags)) <==> flags % 2 == 1
    ensures IsLeaf(NewPte(pa, flags)) <==> flags % 2 == 1 && LeafFlags(flags)
    ensures IsBranch(NewPte(pa, flags)) <==> flags % 2 == 1 && !LeafFlags(flags)
  {
    var page := pa / 4096;
    Packed(page, flags);
    hide LeafFlags;
    assert page % 0x10_0000_0000_0000 == page;
  }

  lemma Packed(page: nat, flags: nat)
    requires flags < 1024
    ensures (page * 1024 + flags) / 1024 == page && (page * 1024 + flags) % 1024 == flags
    ensures (page * 1024 + flags) % 2 == flags % 2
  {
  }

  // ---------- Virtual addresses ----------

  /** VPN[2], VPN[1], VPN[0] and the page offset: bits 38-30, 29-21, 20-12 and 11-0. */
  function VaParts(va: U64): (r: (nat, nat, nat, nat))
    ensures r.0 < PT_ENTRIES && r.1 < PT_ENTRIES && r.2 < PT_ENTRIES && r.3 < PAGE_SIZE
  {
    var page := va / 4096;
    (page / 512 / 512 % 512, page / 512 % 512, page % 512, va % 4096)
  }

  function VaFromParts(vpn2: nat, vpn1: nat, vpn0: nat, offset: nat): nat {
    vpn2 * 0x4000_0000 + vpn1 * 0x20_0000 + vpn0 * 0x1000 + offset
  }

  /** The parts determine the address up to bit 39, and nothing above it. */
  lemma VaRoundTrip(va: U64)
    ensures var (a, b, c, d) := VaParts(va); VaFromParts(a, b, c, d) == va % 0x80_0000_0000
  {
    var page := va / 4096;
    var (a, b, c, d) := VaParts(va);
    var high := page / 512 / 512 / 512;
    assert page / 512 / 512 == 512 * high + a;
    assert page / 512 == 512 * (page / 512 / 512) + b;
    assert page == 512 * (page / 512) + c;
    assert va == 4096 * page + d;
    PartsFit(a, b, c, d);
    Split39(va, high, VaFromParts(a, b, c, d));
  }

  // Quotient and remainder of a sum of fields.

  lemma Split39(x: nat, q: nat, r: nat)
    requires x == 0x80_0000_0000 * q + r && r < 0x80_0000_0000
    ensures x / 0x80_0000_0000 == q && x % 0x80_0000_0000 == r
  {
  }

  lemma Split512(x: nat, q: nat, r: nat)
    requires x == 512 * q + r && r < 512
    ensures x / 512 == q && x % 512 == r
  {
  }

  lemma PartsFit(a: nat, b: nat, c: nat, d: nat)
    requires a < 512 && b < 512 && c < 512 && d < 4096
    ensures VaFromParts(a, b, c, d) < 0x80_0000_0000
  {
  }

  lemma PartsRoundTrip(a: nat, b: nat, c: nat, d: nat)
    requires a < 512 && b < 512 && c < 512 && d < 4096
    ensures VaFromParts(a, b, c, d) < 0x80_0000_0000
    ensures VaParts(VaFromParts(a, b, c, d)) == (a, b, c, d)
  {
    var va := VaFromParts(a, b, c, d);
    assert va / 4096 == (a * 512 + b) * 512 + c;
    Split512(va / 4096, a * 512 + b, c);
    Split512(a * 512 + b, a, b);
  }

  // ---------- satp ----------

  /** Mode 8, the ASID from bit 44, the page number of the root from bit 0. The mask keeps
      more bits of the page number than the 44 that the field has, so a root from 2^56 up
      runs into the ASID. */
  function MakeSatp(root: U64, asid: nat): U64
    requires asid < 0x1_0000
  {
    var ppn := root / 4096;
    HighBits(asid, ppn / 0x1000_0000_0000);
    Or(0x8_0000 + asid, ppn / 0x1000_0000_0000) * 0x1000_0000_0000 + ppn % 0x1000_0000_0000
  }

  lemma HighBits(asid: nat, high: nat)
    requires asid < 0x1_0000 && high < 0x100
    ensures Or(0x8_0000 + asid, high) < 0x10_0000
  {
    assert Pow2(20) == 0x10_0000 by { assert Pow2(8) == 0x100; assert Pow2(16) == 0x100 * Pow2(8); }
    OrFits(0x8_0000 + asid, high, 20);
  }

  function SatpToRoot(satp: U64): (root: U64)
    ensures IsPage(root)
  {
    satp % 0x1000_0000_0000 * 4096
  }

  /** satp gives the root back exactly for page-aligned roots below 2^56. */
  lemma SatpRoundTrip(root: U64, asid: nat)
    requires asid < 0x1_0000
    ensures SatpToRoot(MakeSatp(root, asid)) == root <==> root % PAGE_SIZE == 0 && root < 0x100_0000_0000_0000
  {
    var ppn := root / 4096;
    HighBits(asid, ppn / 0x1000_0000_0000);
    assert MakeSatp(root, asid) % 0x1000_0000_0000 == ppn % 0x1000_0000_0000;
  }

  lemma Sixteen()
    ensures Pow2(16) == 0x1_0000
  {
    assert Pow2(8) == 0x100;
    assert Pow2(16) == 0x100 * Pow2(8);
  }

  /** The mode field is 8 for every root, and below 2^56 the ASID field holds the ASID and the
      page number field the root's page. */
  lemma SatpFields(root: U64, asid: nat)
    requires asid < 0x1_0000
    ensures MakeSatp(root, asid) / 0x1000_0000_0000_0000 == 8
    ensures root < 0x100_0000_0000_0000 ==>
              && MakeSatp(root, asid) / 0x1000_0000_0000 % 0x1_0000 == asid
              && MakeSatp(root, asid) % 0x1000_0000_0000 == root / 4096
  {
    hide Or;
    var ppn := root / 4096;
    var high := ppn / 0x1000_0000_0000;
    HighBits(asid, high);
    Sixteen();
    OrBelow(8, asid, high, 16);
    OrFits(asid, high, 16);
    var top := Or(0x8_0000 + asid, high);
    assert MakeSatp(root, asid) / 0x1000_0000_0000 == top;
    assert MakeSatp(root, asid) / 0x1000_0000_0000_0000 == top / 0x1_0000;
    if root < 0x100_0000_0000_0000 { OrZero(0x8_0000 + asid); }
  }

  // ---------- Physical memory ----------

  function ReadWord(m: seq<Byte>, a: nat): (w: U64)
    requires a + 8 <= |m|
  {
    Widths();
    FromBytes(m[a..a + 8])
  }

  function WriteWord(m: seq<Byte>, a: nat, w: U64): (r: seq<Byte>)
    requires a + 8 <= |m|
    ensures |r| == |m|
  {
    m[..a] + ToBytes(w, 8) + m[a + 8..]
  }

  function ZeroPage(m: seq<Byte>, p: nat): (r: seq<Byte>)
    requires p + PAGE_SIZE <= |m|
    ensures |r| == |m|
  {
    m[..p] + seq(PAGE_SIZE, _ => 0) + m[p + PAGE_SIZE..]
  }

  lemma WordsApart(a: nat, b: nat)
    requires a % 8 == 0 && b % 8 == 0
    ensures a < b ==> a + 8 <= b
  {
  }

  lemma ReadWritten(m: seq<Byte>, a: nat, w: U64, b: nat)
    requires a + 8 <= |m| && b + 8 <= |m| && a % 8 == 0 && b % 8 == 0
    ensures ReadWord(WriteWord(m, a, w), b) == if a == b then w else ReadWord(m, b)
  {
    hide FromBytes, ToBytes;
    assert a < b ==> a + 8 <= b by { WordsApart(a, b); }
    assert b < a ==> b + 8 <= a by { WordsApart(b, a); }
    var r := WriteWord(m, a, w);
    if a == b {
      assert r[a..a + 8] == ToBytes(w, 8);
      Widths();
      BytesRoundTrip(w, 8);
    } else {
      forall k | b <= k < b + 8 ensures r[k] == m[k] { }
      assert r[b..b + 8] == m[b..b + 8];
    }
  }

  lemma {:induction false} ZeroBytes(n: nat)
    ensures FromBytes(seq(n, _ => 0)) == 0
  {
    if n > 0 {
      ZeroBytes(n - 1);
      assert seq(n, _ => 0 as Byte)[1..] == seq(n - 1, _ => 0 as Byte);
    }
  }

  /** An aligned word lies in a page or outside it. */
  lemma WordInPage(p: nat, b: nat)
    requires p % PAGE_SIZE == 0 && b % 8 == 0
    ensures b + 8 <= p || p <= b <= p + PAGE_SIZE - 8 || p + PAGE_SIZE <= b
  {
    var x, y := p / PAGE_SIZE, b / 8;
    assert p == 8 * (512 * x) && b == 8 * y;
    if y < 512 * x { assert b + 8 <= p; }
    else if y < 512 * x + 512 { assert p <= b <= p + PAGE_SIZE - 8; }
    else { assert p + PAGE_SIZE <= b; }
  }

  lemma ReadZeroed(m: seq<Byte>, p: nat, b: nat)
    requires p + PAGE_SIZE <= |m| && b + 8 <= |m| && p % PAGE_SIZE == 0 && b % 8 == 0
    ensures ReadWord(ZeroPage(m, p), b) == if p <= b < p + PAGE_SIZE then 0 else ReadWord(m, b)
  {
    hide FromBytes;
    var r := ZeroPage(m, p);
    WordInPage(p, b);
    if p <= b < p + PAGE_SIZE {
      assert r[b..b + 8] == seq(8, _ => 0 as Byte);
      ZeroBytes(8);
    } else {
      forall k | b <= k < b + 8 ensures r[k] == m[k] { }
      assert r[b..b + 8] == m[b..b + 8];
    }
  }

  // ---------- The walk ----------

  datatype Walked = Walked(phys: U64, flags: nat)

  function Entry(m: seq<Byte>, table: U64, i: nat): U64
    requires |m| == U64_LIMIT && IsPage(table) && i < PT_ENTRIES
  {
    ReadWord(m, table + i * 8)
  }

  /** Three levels down; a leaf above the last level, or none at all, is no mapping. */
  function Walk(m: seq<Byte>, root: U64, va: U64): Option<Walked>
    requires |m| == U64_LIMIT && IsPage(root)
  {
    var (vpn2, vpn1, vpn0, offset) := VaParts(va);
    var e2 := Entry(m, root, vpn2);
    if !IsBranch(e2) then None
    else
      var e1 := Entry(m, PhysAddr(e2), vpn1);
      if !IsBranch(e1) then None
      else
        var e0 := Entry(m, PhysAddr(e1), vpn0);
        if !IsLeaf(e0) then None
        else Some(Walked(PhysAddr(e0) + offset, e0 % 1024))
  }

  /** The loop over the three levels. */
  method WalkLevels(m: seq<Byte>, root: U64, va: U64) returns (r: Option<Walked>)
    requires |m| == U64_LIMIT && IsPage(root)
    ensures r == Walk(m, root, va)
  {
    var (vpn2, vpn1, vpn0, offset) := VaParts(va);
    var indices := [vpn2, vpn1, vpn0];
    var table := root;
    var level := 0;
    while level < 3
      invariant 0 <= level <= 3 && IsPage(table) && indices == [vpn2, vpn1, vpn0]
      invariant level == 0 ==> table == root
      invariant level >= 1 ==> IsBranch(Entry(m, root, vpn2))
      invariant level == 1 ==> table == PhysAddr(Entry(m, root, vpn2))
      invariant level >= 2 ==> IsBranch(Entry(m, PhysAddr(Entry(m, root, vpn2)), vpn1))
      invariant level == 2 ==> table == PhysAddr(Entry(m, PhysAddr(Entry(m, root, vpn2)), vpn1))
      invariant level == 3 ==> Walk(m, root, va) == None
    {
      var pte := ReadWord(m, table + indices[level] * 8);
      assert pte == Entry(m, table, indices[level]);
      if !IsValid(pte) { return None; }
      if IsLeaf(pte) {
        if level != 2 { return None; }
        return Some(Walked(PhysAddr(pte) + offset, pte % 1024));
      }
      table := PhysAddr(pte);
      level := level + 1;
    }
    return None;
  }

  /** A walk depends on the address through its page number; the offset passes through. */
  lemma WalkWithinPage(m: seq<Byte>, root: U64, va: U64, wa: U64)
    requires |m| == U64_LIMIT && IsPage(root) && va / 4096 == wa / 4096
    ensures match Walk(m, root, va)
            case None => Walk(m, root, wa) == None
            case Some(w) => w.phys - va % 4096 >= 0
                            && Walk(m, root, wa) == Some(Walked(w.phys - va % 4096 + wa % 4096, w.flags))
  {
    hide Entry, PhysAddr, IsLeaf, IsBranch;
  }
}
