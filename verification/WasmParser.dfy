/** What the module parser computes (wasm.rs; section 5.5 of the WebAssembly Core
    Specification 1.0): a fold over sections and their entries. */
module WasmParser {
  import opened Words
  import opened Leb128
  import opened WasmFormat

  datatype WasmError =
    | TooSmall | BadMagic | BadVersion | UnexpectedEof | InvalidLeb128 | InvalidSection | InvalidFuncType
    | InvalidValType | InvalidExportKind | InvalidDataSegment | TooManyTypes | TooManyFunctions | TooManyExports
    | TooManyParams | TooManyResults | TooManyImports | TooManyDataSegments | ExportNameTooLong
    | TypeIndexOutOfBounds | MissingCodeSection

  /** A value and the position after it, or an error. */
  datatype Parsed<+T> = Got(value: T, next: nat) | Bad(error: WasmError) {
    predicate IsFailure() { Bad? }
    function PropagateFailure<U>(): Parsed<U> requires Bad? { Bad(error) }
    function Extract(): (T, nat) requires Got? { (value, next) }
  }

  const SEC_TYPE: Byte := 1
  const SEC_IMPORT: Byte := 2
  const SEC_FUNCTION: Byte := 3
  const SEC_MEMORY: Byte := 5
  const SEC_EXPORT: Byte := 7
  const SEC_CODE: Byte := 10
  const SEC_DATA: Byte := 11

  const MAGIC: seq<Byte> := [0x00, 0x61, 0x73, 0x6D]
  const VERSION: seq<Byte> := [0x01, 0x00, 0x00, 0x00]

  // ---------- The cursor ----------

  function OneByte(data: seq<Byte>, p: nat): (r: Parsed<Byte>)
    ensures r.Got? ==> r.next == p + 1 <= |data|
  {
    if p < |data| then Got(data[p], p + 1) else Bad(UnexpectedEof)
  }

  function Take(data: seq<Byte>, p: nat, n: nat): (r: Parsed<seq<Byte>>)
    ensures r.Got? ==> r.next == p + n <= |data| && |r.value| == n
  {
    if p + n > |data| then Bad(UnexpectedEof) else Got(data[p..p + n], p + n)
  }

  /** A u32. Five bytes that all ask for more are an invalid number; otherwise the input
      ended inside it. */
  function Leb(data: seq<Byte>, p: nat): (r: Parsed<U32>)
    ensures r.Got? ==> p < r.next <= |data|
  {
    match ReadU32(data, p)
    case Done(v, next) => Rooms(); ReadsInRange(data, p, U32_LIMIT); Got(v, next)
    case Short => Bad(if p + 5 <= |data| then InvalidLeb128 else UnexpectedEof)
  }

  // ---------- Entries ----------

  function ValTypes(data: seq<Byte>, p: nat, n: nat): (r: Parsed<seq<Byte>>)
    ensures r.Got? ==> |r.value| == n && forall i :: 0 <= i < n ==> IsValType(r.value[i])
    decreases n
  {
    if n == 0 then Got([], p)
    else
      var (vt, p1) :- OneByte(data, p);
      if !IsValType(vt) then Bad(InvalidValType)
      else var (rest, p2) :- ValTypes(data, p1, n - 1); Got([vt] + rest, p2)
  }

  function TypeEntry(data: seq<Byte>, m: WasmModule, p: nat): Parsed<WasmModule> {
    if |m.types| >= MAX_TYPES then Bad(TooManyTypes)
    else
      var (form, p1) :- OneByte(data, p);
      if form != 0x60 then Bad(InvalidFuncType)
      else
        var (params, p2) :- Leb(data, p1);
        if params > MAX_PARAMS then Bad(TooManyParams)
        else
          var (ps, p3) :- ValTypes(data, p2, params);
          var (results, p4) :- Leb(data, p3);
          if results > MAX_RESULTS then Bad(TooManyResults)
          else
            var (rs, p5) :- ValTypes(data, p4, results);
            Got(m.(types := m.types + [FuncType(ps, rs)]), p5)
  }

  function FunctionEntry(data: seq<Byte>, m: WasmModule, p: nat): Parsed<WasmModule> {
    if |m.funcTypes| >= MAX_FUNCS then Bad(TooManyFunctions)
    else
      var (t, p1) :- Leb(data, p);
      if t >= |m.types| then Bad(TypeIndexOutOfBounds) else Got(m.(funcTypes := m.funcTypes + [t]), p1)
  }

  function ExportEntry(data: seq<Byte>, m: WasmModule, p: nat): Parsed<WasmModule> {
    if |m.exports| >= MAX_EXPORTS then Bad(TooManyExports)
    else
      var (n, p1) :- Leb(data, p);
      if n > MAX_EXPORT_NAME then Bad(ExportNameTooLong)
      else
        var (name, p2) :- Take(data, p1, n);
        var (kind, p3) :- OneByte(data, p2);
        if kind > 3 then Bad(InvalidExportKind)
        else var (index, p4) :- Leb(data, p3); Got(m.(exports := m.exports + [Export(name, kind, index)]), p4)
  }

  function CodeEntry(data: seq<Byte>, m: WasmModule, p: nat): Parsed<WasmModule> {
    if |m.bodies| >= MAX_FUNCS then Bad(TooManyFunctions)
    else
      var (n, p1) :- Leb(data, p);
      var (_, p2) :- Take(data, p1, n);
      Got(m.(bodies := m.bodies + [FuncBody(p1, n)]), p2)
  }

  /** As much of the name as fits. */
  function Truncate(name: seq<Byte>): (kept: seq<Byte>)
    ensures kept <= name && |kept| <= MAX_IMPORT_NAME
    ensures kept == name || |kept| == MAX_IMPORT_NAME
  {
    if |name| <= MAX_IMPORT_NAME then name else name[..MAX_IMPORT_NAME]
  }

  /** Limits: a flag byte, a minimum, and a maximum if the flag asks for it. */
  function Limits(data: seq<Byte>, p: nat): Parsed<MemoryLimits> {
    var (flags, p1) :- OneByte(data, p);
    var (min, p2) :- Leb(data, p1);
    if flags % 2 == 1 then var (max, p3) :- Leb(data, p2); Got(Memory(min, max, true), p3)
    else Got(Memory(min, 0, false), p2)
  }

  /** Only function imports are kept. */
  function ImportEntry(data: seq<Byte>, m: WasmModule, p: nat): Parsed<WasmModule> {
    var (n1, p1) :- Leb(data, p);
    var (_, p2) :- Take(data, p1, n1);
    var (n2, p3) :- Leb(data, p2);
    var (name, p4) :- Take(data, p3, n2);
    var (kind, p5) :- OneByte(data, p4);
    if kind == 0 then
      if |m.imports| >= MAX_IMPORTS then Bad(TooManyImports)
      else
        var (t, p6) :- Leb(data, p5);
        if t >= |m.types| then Bad(TypeIndexOutOfBounds)
        else Got(m.(imports := m.imports + [Import(t, Truncate(name))]), p6)
    else if kind == 1 then
      var (_, p6) :- OneByte(data, p5);
      var (_, p7) :- Limits(data, p6);
      Got(m, p7)
    else if kind == 2 then var (_, p6) :- Limits(data, p5); Got(m, p6)
    else if kind == 3 then var (_, p6) :- OneByte(data, p5); var (_, p7) :- OneByte(data, p6); Got(m, p7)
    else Bad(InvalidSection)
  }

  /** Active segments of memory 0 with a constant offset. */
  function DataEntry(data: seq<Byte>, m: WasmModule, p: nat): Parsed<WasmModule> {
    if |m.dataSegments| >= MAX_DATA_SEGS then Bad(TooManyDataSegments)
    else
      var (kind, p1) :- Leb(data, p);
      if kind != 0 then Bad(InvalidDataSegment)
      else
        var (op, p2) :- OneByte(data, p1);
        if op != 0x41 then Bad(InvalidDataSegment)
        else
          var (offset, p3) :- Leb(data, p2);
          var (end, p4) :- OneByte(data, p3);
          if end != 0x0B then Bad(InvalidDataSegment)
          else
            var (n, p5) :- Leb(data, p4);
            var (_, p6) :- Take(data, p5, n);
            Got(m.(dataSegments := m.dataSegments + [DataSegment(offset, p5, n)]), p6)
  }

  // ---------- Sections ----------

  predicate IsListed(id: Byte) {
    id == SEC_TYPE || id == SEC_IMPORT || id == SEC_FUNCTION || id == SEC_EXPORT || id == SEC_CODE || id == SEC_DATA
  }

  function Entry(id: Byte, data: seq<Byte>, m: WasmModule, p: nat): Parsed<WasmModule>
    requires IsListed(id)
  {
    if id == SEC_TYPE then TypeEntry(data, m, p)
    else if id == SEC_IMPORT then ImportEntry(data, m, p)
    else if id == SEC_FUNCTION then FunctionEntry(data, m, p)
    else if id == SEC_EXPORT then ExportEntry(data, m, p)
    else if id == SEC_CODE then CodeEntry(data, m, p)
    else DataEntry(data, m, p)
  }

  function Entries(id: Byte, data: seq<Byte>, m: WasmModule, p: nat, n: nat): Parsed<WasmModule>
    requires IsListed(id)
    decreases n
  {
    if n == 0 then Got(m, p)
    else var (m1, p1) :- Entry(id, data, m, p); Entries(id, data, m1, p1, n - 1)
  }

  /** Further memories are read over. */
  function MoreMemories(data: seq<Byte>, m: WasmModule, p: nat, n: nat): Parsed<WasmModule>
    decreases n
  {
    if n == 0 then Got(m, p)
    else var (_, p1) :- Limits(data, p); MoreMemories(data, m, p1, n - 1)
  }

  function MemorySection(data: seq<Byte>, m: WasmModule, p: nat): Parsed<WasmModule> {
    var (n, p1) :- Leb(data, p);
    if n == 0 then Got(m, p1)
    else var (limits, p2) :- Limits(data, p1); MoreMemories(data, m.(memory := limits), p2, n - 1)
  }

  function Section(id: Byte, data: seq<Byte>, m: WasmModule, p: nat, len: nat): Parsed<WasmModule> {
    if IsListed(id) then var (n, p1) :- Leb(data, p); Entries(id, data, m, p1, n)
    else if id == SEC_MEMORY then MemorySection(data, m, p)
    else var (_, p1) :- Take(data, p, len); Got(m, p1)
  }

  /** Wherever a section parser stopped, the next section starts where the length says.
      A length beyond the input puts the cursor there, and the next read fails: the
      wrapped `remaining()` is not zero. */
  function Sections(data: seq<Byte>, m: WasmModule, p: nat): Parsed<WasmModule>
    decreases if p < |data| then |data| - p else 0
  {
    if p == |data| then Got(m, p)
    else
      var (id, p1) :- OneByte(data, p);
      var (len, p2) :- Leb(data, p1);
      var (m1, _) :- Section(id, data, m, p2, len);
      Sections(data, m1, p2 + len)
  }

  function Parse(data: seq<Byte>): Parsed<WasmModule> {
    if |data| < 8 then Bad(TooSmall)
    else if data[0..4] != MAGIC then Bad(BadMagic)
    else if data[4..8] != VERSION then Bad(BadVersion)
    else
      var (m, p) :- Sections(data, EMPTY_MODULE, 8);
      if |m.funcTypes| > 0 && |m.bodies| > 0 && |m.funcTypes| != |m.bodies| then Bad(MissingCodeSection)
      else Got(m, p)
  }

  // ---------- Every accepted module is well-formed ----------

  lemma EntryKeepsAccepted(id: Byte, data: seq<Byte>, m: WasmModule, p: nat)
    requires IsListed(id) && Accepted(m, |data|)
    ensures Entry(id, data, m, p).Got? ==> Accepted(Entry(id, data, m, p).value, |data|)
  {
    hide Leb, Accepted, TypeEntry, ImportEntry, FunctionEntry, ExportEntry, CodeEntry, DataEntry;
    TypeKeepsAccepted(data, m, p);
    IndicesKeepAccepted(data, m, p);
    RangesKeepAccepted(data, m, p);
  }

  lemma TypeKeepsAccepted(data: seq<Byte>, m: WasmModule, p: nat)
    requires Accepted(m, |data|)
    ensures TypeEntry(data, m, p).Got? ==> Accepted(TypeEntry(data, m, p).value, |data|)
  {
    hide Leb, ValTypes, IsValType;
  }

  lemma IndicesKeepAccepted(data: seq<Byte>, m: WasmModule, p: nat)
    requires Accepted(m, |data|)
    ensures ImportEntry(data, m, p).Got? ==> Accepted(ImportEntry(data, m, p).value, |data|)
    ensures FunctionEntry(data, m, p).Got? ==> Accepted(FunctionEntry(data, m, p).value, |data|)
  {
    hide Leb, Limits, IsValType;
  }

  lemma RangesKeepAccepted(data: seq<Byte>, m: WasmModule, p: nat)
    requires Accepted(m, |data|)
    ensures ExportEntry(data, m, p).Got? ==> Accepted(ExportEntry(data, m, p).value, |data|)
    ensures CodeEntry(data, m, p).Got? ==> Accepted(CodeEntry(data, m, p).value, |data|)
    ensures DataEntry(data, m, p).Got? ==> Accepted(DataEntry(data, m, p).value, |data|)
  {
    hide Leb, IsValType;
  }

  lemma {:induction false} EntriesKeepAccepted(id: Byte, data: seq<Byte>, m: WasmModule, p: nat, n: nat)
    requires IsListed(id) && Accepted(m, |data|)
    ensures Entries(id, data, m, p, n).Got? ==> Accepted(Entries(id, data, m, p, n).value, |data|)
    decreases n
  {
    hide Entry, Accepted;
    if n > 0 && Entry(id, data, m, p).Got? {
      EntryKeepsAccepted(id, data, m, p);
      var e := Entry(id, data, m, p);
      EntriesKeepAccepted(id, data, e.value, e.next, n - 1);
    }
  }

  lemma {:induction false} MemoriesOnly(data: seq<Byte>, m: WasmModule, p: nat, n: nat)
    ensures MoreMemories(data, m, p, n).Got? ==> MoreMemories(data, m, p, n).value == m
    decreases n
  {
    hide Limits;
    if n > 0 && Limits(data, p).Got? { MemoriesOnly(data, m, Limits(data, p).next, n - 1); }
  }

  lemma SectionKeepsAccepted(id: Byte, data: seq<Byte>, m: WasmModule, p: nat, len: nat)
    requires Accepted(m, |data|)
    ensures Section(id, data, m, p, len).Got? ==> Accepted(Section(id, data, m, p, len).value, |data|)
  {
    hide Leb, Limits, Entries, MoreMemories;
    var n := Leb(data, p);
    if n.Got? {
      if IsListed(id) {
        EntriesKeepAccepted(id, data, m, n.next, n.value);
      } else if id == SEC_MEMORY && n.value > 0 {
        var l := Limits(data, n.next);
        if l.Got? { MemoriesOnly(data, m.(memory := l.value), l.next, n.value - 1); }
      }
    }
  }

  lemma {:induction false} SectionsKeepAccepted(data: seq<Byte>, m: WasmModule, p: nat)
    requires Accepted(m, |data|)
    ensures Sections(data, m, p).Got? ==> Accepted(Sections(data, m, p).value, |data|)
    decreases if p < |data| then |data| - p else 0
  {
    hide Accepted, Section;
    if p < |data| {
      var len := Leb(data, p + 1);
      if len.Got? {
        var s := Section(data[p], data, m, len.next, len.value);
        SectionKeepsAccepted(data[p], data, m, len.next, len.value);
        if s.Got? { SectionsKeepAccepted(data, s.value, len.next + len.value); }
      }
    }
  }

  /** Counts within their limits, type indices below the type count, and bodies and data
      inside the input, for every byte string that parses. */
  lemma ParsedIsAccepted(data: seq<Byte>)
    ensures Parse(data).Got? ==> Accepted(Parse(data).value, |data|)
  {
    hide Sections;
    if |data| >= 8 { SectionsKeepAccepted(data, EMPTY_MODULE, 8); }
  }
}
