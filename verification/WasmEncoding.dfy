/** Writing modules: any list of sections, in any order, is parsed back to what it says
    (section 5.5 of the WebAssembly Core Specification 1.0). */
module WasmEncoding {
  import opened Words
  import opened Leb128
  import opened WasmFormat
  import opened WasmParser

  /** One entry of a section, with its contents. */
  datatype Item =
    | TypeItem(ft: FuncType)
    | ImportItem(modName: seq<Byte>, name: seq<Byte>, typeIdx: U32)
    | FunctionItem(func: U32)
    | ExportItem(export_: Export)
    | CodeItem(body: seq<Byte>)
    | DataItem(offset: int, bytes: seq<Byte>)

  datatype Chunk =
    | Listed(id: Byte, items: seq<Item>)
    | MemoryChunk(limits: MemoryLimits)
    | Other(id: Byte, bytes: seq<Byte>)

  function IdOf(i: Item): Byte {
    match i
    case TypeItem(_) => SEC_TYPE
    case ImportItem(_, _, _) => SEC_IMPORT
    case FunctionItem(_) => SEC_FUNCTION
    case ExportItem(_) => SEC_EXPORT
    case CodeItem(_) => SEC_CODE
    case DataItem(_, _) => SEC_DATA
  }

  /** A length, then the bytes. */
  function Vec(bytes: seq<Byte>): seq<Byte> { EncodeUnsigned(|bytes|) + bytes }

  function EncodeItem(i: Item): seq<Byte> {
    match i
    case TypeItem(ft) => [0x60] + (Vec(ft.params) + Vec(ft.results))
    case ImportItem(modName, name, t) => Vec(modName) + (Vec(name) + ([0x00] + EncodeUnsigned(t)))
    case FunctionItem(t) => EncodeUnsigned(t)
    case ExportItem(e) => Vec(e.name) + ([e.kind] + EncodeUnsigned(e.index))
    case CodeItem(body) => Vec(body)
    case DataItem(offset, bytes) => EncodeUnsigned(0) + ([0x41] + (EncodeSigned(offset) + ([0x0B] + Vec(bytes))))
  }

  function EncodeItems(items: seq<Item>): seq<Byte> {
    if items == [] then [] else EncodeItem(items[0]) + EncodeItems(items[1..])
  }

  function EncodeLimits(l: MemoryLimits): seq<Byte> {
    match l
    case NoMemory => EncodeUnsigned(0)
    case Memory(min, max, hasMax) =>
      EncodeUnsigned(1)
          + ([if hasMax then 1 else 0] + (EncodeUnsigned(min) + if hasMax then EncodeUnsigned(max) else []))
  }

  function ChunkBody(c: Chunk): seq<Byte> {
    match c
    case Listed(_, items) => EncodeUnsigned(|items|) + EncodeItems(items)
    case MemoryChunk(l) => EncodeLimits(l)
    case Other(_, bytes) => bytes
  }

  function ChunkId(c: Chunk): Byte {
    match c case Listed(id, _) => id case MemoryChunk(_) => SEC_MEMORY case Other(id, _) => id
  }

  function EncodeChunks(chunks: seq<Chunk>): seq<Byte> {
    if chunks == [] then [] else ([ChunkId(chunks[0])] + Vec(ChunkBody(chunks[0]))) + EncodeChunks(chunks[1..])
  }

  function EncodeModule(chunks: seq<Chunk>): seq<Byte> { MAGIC + VERSION + EncodeChunks(chunks) }

  // ---------- What the contents mean ----------

  /** The module after one more entry, whose encoding starts at `p`. */
  function Add(m: WasmModule, i: Item, p: nat): WasmModule {
    match i
    case TypeItem(ft) => m.(types := m.types + [ft])
    case ImportItem(_, name, t) => m.(imports := m.imports + [Import(t, Truncate(name))])
    case FunctionItem(t) => m.(funcTypes := m.funcTypes + [t])
    case ExportItem(e) => m.(exports := m.exports + [e])
    case CodeItem(body) => m.(bodies := m.bodies + [FuncBody(p + |EncodeUnsigned(|body|)|, |body|)])
    case DataItem(offset, bytes) =>
      m.(dataSegments := m.dataSegments + [DataSegment(OffsetRead(offset), p + |EncodeItem(i)| - |bytes|, |bytes|)])
  }

  /** An i32. */
  predicate IsI32(v: int) { -0x8000_0000 <= v < 0x8000_0000 }

  /** What the parser, which reads offsets as unsigned numbers, makes of the offset `v`. */
  function OffsetRead(v: int): U32 {
    match ReadU32(EncodeSigned(v), 0)
    case Done(w, _) => Rooms(); ReadsInRange(EncodeSigned(v), 0, U32_LIMIT); w
    case Short => 0
  }

  /** The standard writes a data offset as a signed constant. The parser reads it back if
      and only if it is not negative or below -2^27. */
  lemma OffsetReadIff(v: int)
    requires IsI32(v)
    ensures OffsetRead(v) == v % U32_LIMIT <==> v >= 0 || v < -0x800_0000
  {
    hide ReadUnsigned;
    assert At(EncodeSigned(v), 0, EncodeSigned(v));
    UnsignedReadOfSigned(EncodeSigned(v), 0, v, U32_LIMIT);
  }

  /** The offset -1, which the standard writes in one byte, comes out as 127. */
  lemma MinusOneIsMisread()
    ensures EncodeItem(DataItem(-1, [])) == [0x00, 0x41, 0x7F, 0x0B, 0x00]
    ensures ReadI32([0x7F], 0) == Done(0xFFFF_FFFF, 1)
    ensures DataEntry([0x00, 0x41, 0x7F, 0x0B, 0x00], EMPTY_MODULE, 0)
            == Got(EMPTY_MODULE.(dataSegments := [DataSegment(127, 5, 0)]), 5)
  {
    var data: seq<Byte> := [0x00, 0x41, 0x7F, 0x0B, 0x00];
    assert EncodeSigned(-1) == [0x7F];
    assert EncodeItem(DataItem(-1, [])) == data;
    assert Leb(data, 0) == Got(0, 1) && Leb(data, 2) == Got(127, 3) && Leb(data, 4) == Got(0, 5);
    assert OneByte(data, 1) == Got(0x41, 2) && OneByte(data, 3) == Got(0x0B, 4) && Take(data, 5, 0) == Got([], 5);
    assert EMPTY_MODULE.dataSegments + [DataSegment(127, 5, 0)] == [DataSegment(127, 5, 0)];
  }

  function AddAll(m: WasmModule, items: seq<Item>, p: nat): WasmModule
    decreases |items|
  {
    if items == [] then m else AddAll(Add(m, items[0], p), items[1..], p + |EncodeItem(items[0])|)
  }

  ghost predicate AllValTypes(s: seq<Byte>) { forall i :: 0 <= i < |s| ==> IsValType(s[i]) }

  /** The entry respects the limits of the parser, given what came before. */
  ghost predicate Fits(m: WasmModule, i: Item) {
    match i
    case TypeItem(ft) => |m.types| < MAX_TYPES && |ft.params| <= MAX_PARAMS && |ft.results| <= MAX_RESULTS
                         && AllValTypes(ft.params) && AllValTypes(ft.results)
    case ImportItem(modName, name, t) => |m.imports| < MAX_IMPORTS && t < |m.types| && |modName| < U32_LIMIT
        && |name| < U32_LIMIT
    case FunctionItem(t) => |m.funcTypes| < MAX_FUNCS && t < |m.types|
    case ExportItem(e) => |m.exports| < MAX_EXPORTS && |e.name| <= MAX_EXPORT_NAME && e.kind <= 3
    case CodeItem(body) => |m.bodies| < MAX_FUNCS && |body| < U32_LIMIT
    case DataItem(offset, bytes) => |m.dataSegments| < MAX_DATA_SEGS && |bytes| < U32_LIMIT && IsI32(offset)
  }

  ghost predicate AllFit(id: Byte, m: WasmModule, items: seq<Item>, p: nat)
    decreases |items|
  {
    items == [] ||
    (IdOf(items[0]) == id && Fits(m, items[0])
        && AllFit(id, Add(m, items[0], p), items[1..], p + |EncodeItem(items[0])|))
  }

  ghost predicate CanonicalLimits(l: MemoryLimits) { l.Memory? && !l.hasMax ==> l.maxPages == 0 }

  function AddChunk(m: WasmModule, c: Chunk, p: nat): WasmModule {
    match c
    case Listed(_, items) => AddAll(m, items, p + |EncodeUnsigned(|items|)|)
    case MemoryChunk(l) => if l.NoMemory? then m else m.(memory := l)
    case Other(_, _) => m
  }

  ghost predicate ChunkFits(m: WasmModule, c: Chunk, p: nat) {
    && |ChunkBody(c)| < U32_LIMIT
    && match c
       case Listed(id, items) => IsListed(id) && |items| < U32_LIMIT
           && AllFit(id, m, items, p + |EncodeUnsigned(|items|)|)
       case MemoryChunk(l) => CanonicalLimits(l)
       case Other(id, _) => !IsListed(id) && id != SEC_MEMORY
  }

  /** Where the contents of a section start: after its id and its length. */
  function BodyStart(c: Chunk, p: nat): nat { p + 1 + |EncodeUnsigned(|ChunkBody(c)|)| }

  function AddChunks(m: WasmModule, chunks: seq<Chunk>, p: nat): WasmModule
    decreases |chunks|
  {
    if chunks == [] then m
    else
      var c := chunks[0];
      AddChunks(AddChunk(m, c, BodyStart(c, p)), chunks[1..], BodyStart(c, p) + |ChunkBody(c)|)
  }

  ghost predicate ChunksFit(m: WasmModule, chunks: seq<Chunk>, p: nat)
    decreases |chunks|
  {
    chunks == [] ||
    (var c := chunks[0];
     ChunkFits(m, c, BodyStart(c, p))
         && ChunksFit(AddChunk(m, c, BodyStart(c, p)), chunks[1..], BodyStart(c, p) + |ChunkBody(c)|))
  }

  // ---------- Round trips ----------

  lemma LebAt(data: seq<Byte>, p: nat, v: U32)
    requires At(data, p, EncodeUnsigned(v))
    ensures Leb(data, p) == Got(v, p + |EncodeUnsigned(v)|)
  {
    U32RoundTrip(data, p, v);
  }

  lemma ByteAt(data: seq<Byte>, p: nat, b: Byte)
    requires At(data, p, [b])
    ensures OneByte(data, p) == Got(b, p + 1)
  {
    AtFirst(data, p, [b]);
  }

  /** A length and that many bytes. */
  lemma VecAt(data: seq<Byte>, p: nat, bytes: seq<Byte>)
    requires At(data, p, Vec(bytes)) && |bytes| < U32_LIMIT
    ensures var q := p + |EncodeUnsigned(|bytes|)|;
            && Leb(data, p) == Got(|bytes|, q) && At(data, q, bytes)
            && Take(data, q, |bytes|) == Got(bytes, p + |Vec(bytes)|)
  {
    hide Leb, EncodeUnsigned;
    AtSplit(data, p, EncodeUnsigned(|bytes|), bytes);
    LebAt(data, p, |bytes|);
  }

  lemma {:induction false} ValTypesAt(data: seq<Byte>, p: nat, s: seq<Byte>)
    requires At(data, p, s) && AllValTypes(s)
    ensures ValTypes(data, p, |s|) == Got(s, p + |s|)
    decreases |s|
  {
    if s != [] {
      AtFirst(data, p, s);
      ValTypesAt(data, p + 1, s[1..]);
      assert s == [s[0]] + s[1..];
    }
  }

  lemma TypeAt(data: seq<Byte>, m: WasmModule, p: nat, ft: FuncType)
    requires At(data, p, EncodeItem(TypeItem(ft))) && Fits(m, TypeItem(ft))
    ensures TypeEntry(data, m, p) == Got(Add(m, TypeItem(ft), p), p + |EncodeItem(TypeItem(ft))|)
  {
    hide At, Leb, ValTypes, EncodeUnsigned, OneByte, Vec;
    AtSplit(data, p, [0x60], Vec(ft.params) + Vec(ft.results));
    ByteAt(data, p, 0x60);
    AtSplit(data, p + 1, Vec(ft.params), Vec(ft.results));
    TypesAt(data, p + 1, ft.params);
    TypesAt(data, p + 1 + |Vec(ft.params)|, ft.results);
    assert FuncType(ft.params, ft.results) == ft;
  }

  /** A number of value types, and the types. */
  lemma TypesAt(data: seq<Byte>, p: nat, s: seq<Byte>)
    requires At(data, p, Vec(s)) && AllValTypes(s) && |s| < U32_LIMIT
    ensures Leb(data, p) == Got(|s|, p + |EncodeUnsigned(|s|)|)
    ensures ValTypes(data, p + |EncodeUnsigned(|s|)|, |s|) == Got(s, p + |Vec(s)|)
  {
    hide Leb, EncodeUnsigned, ValTypes;
    VecAt(data, p, s);
    ValTypesAt(data, p + |EncodeUnsigned(|s|)|, s);
  }

  lemma ImportAt(data: seq<Byte>, m: WasmModule, p: nat, modName: seq<Byte>, name: seq<Byte>, t: U32)
    requires At(data, p, EncodeItem(ImportItem(modName, name, t))) && Fits(m, ImportItem(modName, name, t))
    ensures ImportEntry(data, m, p)
            == Got(Add(m, ImportItem(modName, name, t), p), p + |EncodeItem(ImportItem(modName, name, t))|)
  {
    hide At, Leb, Take, Limits, EncodeUnsigned, OneByte, Vec, Truncate;
    var q := p + |Vec(modName)|;
    var r := q + |Vec(name)|;
    AtSplit(data, p, Vec(modName), Vec(name) + ([0x00] + EncodeUnsigned(t)));
    AtSplit(data, q, Vec(name), [0x00] + EncodeUnsigned(t));
    NamesAt(data, p, modName, name);
    AtSplit(data, r, [0x00], EncodeUnsigned(t));
    ByteAt(data, r, 0x00);
    LebAt(data, r + 1, t);
  }

  /** Two names, one after the other. */
  lemma NamesAt(data: seq<Byte>, p: nat, first: seq<Byte>, second: seq<Byte>)
    requires At(data, p, Vec(first)) && At(data, p + |Vec(first)|, Vec(second))
    requires |first| < U32_LIMIT && |second| < U32_LIMIT
    ensures var q := p + |Vec(first)|;
            && Leb(data, p).Got? && Leb(data, p).value == |first|
            && Take(data, Leb(data, p).next, |first|) == Got(first, q)
            && Leb(data, q).Got? && Leb(data, q).value == |second|
            && Take(data, Leb(data, q).next, |second|) == Got(second, q + |Vec(second)|)
  {
    hide At, Leb, Take, EncodeUnsigned, Vec;
    VecAt(data, p, first);
    VecAt(data, p + |Vec(first)|, second);
  }

  lemma ExportAt(data: seq<Byte>, m: WasmModule, p: nat, e: Export)
    requires At(data, p, EncodeItem(ExportItem(e))) && Fits(m, ExportItem(e))
    ensures ExportEntry(data, m, p) == Got(Add(m, ExportItem(e), p), p + |EncodeItem(ExportItem(e))|)
  {
    hide At, Leb, Take, EncodeUnsigned, OneByte, Vec;
    AtSplit(data, p, Vec(e.name), [e.kind] + EncodeUnsigned(e.index));
    VecAt(data, p, e.name);
    var q := p + |Vec(e.name)|;
    AtSplit(data, q, [e.kind], EncodeUnsigned(e.index));
    ByteAt(data, q, e.kind);
    LebAt(data, q + 1, e.index);
  }

  /** Wherever a signed number stands, the unsigned reader finds the same. */
  lemma OffsetAt(data: seq<Byte>, p: nat, v: int)
    requires At(data, p, EncodeSigned(v)) && IsI32(v)
    ensures Leb(data, p) == Got(OffsetRead(v), p + |EncodeSigned(v)|)
  {
    hide ReadUnsigned, At;
    var bytes := EncodeSigned(v);
    assert At(bytes, 0, bytes) by { WholeAt(bytes); }
    UnsignedReadOfSigned(bytes, 0, v, U32_LIMIT);
    assert bytes[0..] == bytes;
    ReadsInPlace(bytes, 0, data, p, U32_LIMIT);
  }

  lemma WholeAt(bytes: seq<Byte>)
    ensures At(bytes, 0, bytes)
  {
  }

  lemma DataAt(data: seq<Byte>, m: WasmModule, p: nat, offset: int, bytes: seq<Byte>)
    requires At(data, p, EncodeItem(DataItem(offset, bytes))) && Fits(m, DataItem(offset, bytes))
    ensures DataEntry(data, m, p) == Got(Add(m, DataItem(offset, bytes), p), p + |EncodeItem(DataItem(offset, bytes))|)
  {
    hide At, Leb, Take, EncodeUnsigned, EncodeSigned, OneByte, OffsetRead;
    var zero, off := EncodeUnsigned(0), EncodeSigned(offset);
    AtSplit(data, p, zero, [0x41] + (off + ([0x0B] + Vec(bytes))));
    LebAt(data, p, 0);
    var q := p + |zero|;
    AtSplit(data, q, [0x41], off + ([0x0B] + Vec(bytes)));
    ByteAt(data, q, 0x41);
    AtSplit(data, q + 1, off, [0x0B] + Vec(bytes));
    OffsetAt(data, q + 1, offset);
    var s := q + 1 + |off|;
    AtSplit(data, s, [0x0B], Vec(bytes));
    ByteAt(data, s, 0x0B);
    VecAt(data, s + 1, bytes);
  }

  /** Every entry is read back. */
  lemma ItemRoundTrip(data: seq<Byte>, m: WasmModule, p: nat, i: Item)
    requires At(data, p, EncodeItem(i)) && Fits(m, i)
    ensures Entry(IdOf(i), data, m, p) == Got(Add(m, i, p), p + |EncodeItem(i)|)
  {
    hide At, Leb, Take, TypeEntry, ImportEntry, ExportEntry, DataEntry;
    match i
    case TypeItem(ft) => TypeAt(data, m, p, ft);
    case ImportItem(modName, name, t) => ImportAt(data, m, p, modName, name, t);
    case FunctionItem(t) => LebAt(data, p, t);
    case ExportItem(e) => ExportAt(data, m, p, e);
    case CodeItem(body) => VecAt(data, p, body);
    case DataItem(offset, bytes) => DataAt(data, m, p, offset, bytes);
  }

  lemma {:induction false} ItemsRoundTrip(id: Byte, data: seq<Byte>, m: WasmModule, p: nat, items: seq<Item>)
    requires IsListed(id) && At(data, p, EncodeItems(items)) && AllFit(id, m, items, p)
    ensures Entries(id, data, m, p, |items|) == Got(AddAll(m, items, p), p + |EncodeItems(items)|)
    decreases |items|
  {
    hide At, Entry, EncodeItem, Add, Fits;
    if items != [] {
      AtSplit(data, p, EncodeItem(items[0]), EncodeItems(items[1..]));
      ItemRoundTrip(data, m, p, items[0]);
      ItemsRoundTrip(id, data, Add(m, items[0], p), p + |EncodeItem(items[0])|, items[1..]);
    }
  }

  lemma LimitsRoundTrip(data: seq<Byte>, m: WasmModule, p: nat, l: MemoryLimits)
    requires At(data, p, EncodeLimits(l)) && CanonicalLimits(l)
    ensures MemorySection(data, m, p) == Got(AddChunk(m, MemoryChunk(l), p), p + |EncodeLimits(l)|)
  {
    hide At, Leb, EncodeUnsigned, OneByte, Limits;
    match l
    case NoMemory => LebAt(data, p, 0);
    case Memory(min, max, hasMax) =>
      var bounds := BoundBytes(min, max, hasMax);
      assert EncodeLimits(l) == EncodeUnsigned(1) + bounds;
      AtSplit(data, p, EncodeUnsigned(1), bounds);
      LebAt(data, p, 1);
      BoundsAt(data, p + |EncodeUnsigned(1)|, min, max, hasMax);
  }

  function BoundBytes(min: U32, max: U32, hasMax: bool): seq<Byte> {
    [if hasMax then 1 else 0] + (EncodeUnsigned(min) + if hasMax then EncodeUnsigned(max) else [])
  }

  lemma BoundsAt(data: seq<Byte>, q: nat, min: U32, max: U32, hasMax: bool)
    requires At(data, q, BoundBytes(min, max, hasMax)) && (hasMax || max == 0)
    ensures Limits(data, q) == Got(Memory(min, max, hasMax), q + |BoundBytes(min, max, hasMax)|)
  {
    hide At, Leb, EncodeUnsigned, OneByte;
    var flag: Byte, tail := if hasMax then 1 else 0, if hasMax then EncodeUnsigned(max) else [];
    AtSplit(data, q, [flag], EncodeUnsigned(min) + tail);
    ByteAt(data, q, flag);
    AtSplit(data, q + 1, EncodeUnsigned(min), tail);
    LebAt(data, q + 1, min);
    if hasMax { LebAt(data, q + 1 + |EncodeUnsigned(min)|, max); }
  }

  lemma ChunkRoundTrip(data: seq<Byte>, m: WasmModule, p: nat, c: Chunk)
    requires At(data, p, ChunkBody(c)) && ChunkFits(m, c, p)
    ensures Section(ChunkId(c), data, m, p, |ChunkBody(c)|) == Got(AddChunk(m, c, p), p + |ChunkBody(c)|)
  {
    hide At, Leb, Entries, AllFit, AddAll, MemorySection, EncodeLimits, Take, EncodeItems, CanonicalLimits;
    match c
    case Listed(id, items) =>
      AtSplit(data, p, EncodeUnsigned(|items|), EncodeItems(items));
      LebAt(data, p, |items|);
      ItemsRoundTrip(id, data, m, p + |EncodeUnsigned(|items|)|, items);
    case MemoryChunk(l) => LimitsRoundTrip(data, m, p, l);
    case Other(_, bytes) => TakeAt(data, p, bytes);
  }

  lemma TakeAt(data: seq<Byte>, p: nat, bytes: seq<Byte>)
    requires At(data, p, bytes)
    ensures Take(data, p, |bytes|) == Got(bytes, p + |bytes|)
  {
  }

  /** The ranges that code and data entries become hold exactly their bytes. */
  lemma RangesHoldContents(data: seq<Byte>, m: WasmModule, p: nat, i: Item)
    requires At(data, p, EncodeItem(i)) && Fits(m, i)
    ensures i.CodeItem? ==> var b := Add(m, i, p).bodies[|m.bodies|];
                            b.offset + b.length <= |data| && data[b.offset..b.offset + b.length] == i.body
    ensures i.DataItem? ==> var d := Add(m, i, p).dataSegments[|m.dataSegments|];
                            d.dataOffset + d.dataLen <= |data|
                                && data[d.dataOffset..d.dataOffset + d.dataLen] == i.bytes
  {
    match i
    case CodeItem(body) => AtSplit(data, p, EncodeUnsigned(|body|), body);
    case DataItem(offset, bytes) =>
      var front := EncodeUnsigned(0) + ([0x41] + (EncodeSigned(offset) + ([0x0B] + EncodeUnsigned(|bytes|))));
      assert EncodeItem(i) == front + bytes;
      AtSplit(data, p, front, bytes);
    case _ =>
  }

  lemma {:induction false} ChunksRoundTrip(data: seq<Byte>, m: WasmModule, p: nat, chunks: seq<Chunk>)
    requires At(data, p, EncodeChunks(chunks)) && p + |EncodeChunks(chunks)| == |data| && ChunksFit(m, chunks, p)
    ensures Sections(data, m, p) == Got(AddChunks(m, chunks, p), |data|)
    decreases |chunks|
  {
    hide At, Leb, Section, ChunkBody, AddChunk, ChunkFits, EncodeUnsigned;
    if chunks != [] {
      var c := chunks[0];
      var body := ChunkBody(c);
      AtSplit(data, p, [ChunkId(c)] + Vec(body), EncodeChunks(chunks[1..]));
      AtSplit(data, p, [ChunkId(c)], Vec(body));
      ByteAt(data, p, ChunkId(c));
      AtRange(data, p, [ChunkId(c)]);
      VecAt(data, p + 1, body) by { FitsLength(m, c, BodyStart(c, p)); }
      ChunkRoundTrip(data, m, BodyStart(c, p), c);
      ChunksRoundTrip(data, AddChunk(m, c, BodyStart(c, p)), BodyStart(c, p) + |body|, chunks[1..]);
    }
  }

  lemma AtRange(data: seq<Byte>, p: nat, bytes: seq<Byte>)
    requires At(data, p, bytes)
    ensures p + |bytes| <= |data|
  {
  }

  lemma FitsLength(m: WasmModule, c: Chunk, p: nat)
    requires ChunkFits(m, c, p)
    ensures |ChunkBody(c)| < U32_LIMIT
  {
  }

  /** Parsing what was written gives the contents back, with bodies and data segments as
      ranges of the bytes. */
  lemma ModuleRoundTrip(chunks: seq<Chunk>)
    requires ChunksFit(EMPTY_MODULE, chunks, 8)
    ensures var data, m := EncodeModule(chunks), AddChunks(EMPTY_MODULE, chunks, 8);
            Parse(data) == if |m.funcTypes| > 0 && |m.bodies| > 0 && |m.funcTypes| != |m.bodies|
                then Bad(MissingCodeSection)
                           else Got(m, |data|)
  {
    hide Sections, EncodeChunks, ChunksFit, AddChunks;
    var data := EncodeModule(chunks);
    assert data[0..4] == MAGIC && data[4..8] == VERSION;
    assert At(data, 8, EncodeChunks(chunks));
    ChunksRoundTrip(data, EMPTY_MODULE, 8, chunks);
  }
}
