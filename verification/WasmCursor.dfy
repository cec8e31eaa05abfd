/** The parser object: a cursor and a module that the section loops fill in (wasm.rs).
    Every method does what module `WasmParser` says of the bytes. */
module WasmCursor {
  import opened Words
  import opened Leb128
  import opened LebReaders
  import opened WasmFormat
  import opened WasmParser

  class Parser {
    const data: seq<Byte>
    var pos: nat
    var mod: WasmModule

    constructor (bytes: seq<Byte>)
      ensures data == bytes && pos == 0 && mod == EMPTY_MODULE
    {
      data, pos, mod := bytes, 0, EMPTY_MODULE;
    }

    /** The method returned what the specification says, and moved the cursor there. */
    ghost predicate Reads<T(!new)>(spec: Parsed<T>, r: Parsed<T>)
      reads this
    {
      match spec case Got(v, p) => r == spec && pos == p case Bad(_) => r == spec
    }

    /** The same for the parsers that fill in the module. */
    ghost predicate Fills(spec: Parsed<WasmModule>, r: Parsed<()>)
      reads this
    {
      match spec case Got(m, p) => r == Got((), p) && pos == p && mod == m case Bad(e) => r == Bad(e)
    }

    method ReadByte() returns (r: Parsed<Byte>)
      modifies this`pos
      ensures Reads(OneByte(data, old(pos)), r)
    {
      if pos >= |data| { return Bad(UnexpectedEof); }
      pos := pos + 1;
      r := Got(data[pos - 1], pos);
    }

    method ReadBytes(n: nat) returns (r: Parsed<seq<Byte>>)
      modifies this`pos
      ensures Reads(Take(data, old(pos), n), r)
    {
      if pos + n > |data| { return Bad(UnexpectedEof); }
      pos := pos + n;
      r := Got(data[pos - n..pos], pos);
    }

    method ReadLeb() returns (r: Parsed<U32>)
      modifies this`pos
      ensures Reads(Leb(data, old(pos)), r)
    {
      hide ReadUnsigned;
      var v := DecodeU32(data, pos);
      if v.Short? { return Bad(if pos + 5 <= |data| then InvalidLeb128 else UnexpectedEof); }
      Rooms();
      ReadsInRange(data, pos, U32_LIMIT);
      pos := v.next;
      r := Got(v.value, pos);
    }

    method ReadValTypes(n: nat) returns (r: Parsed<seq<Byte>>)
      modifies this`pos
      ensures Reads(ValTypes(data, old(pos), n), r)
    {
      var vts: seq<Byte> := [];
      NothingPrepended(ValTypes(data, pos, n));
      for j := 0 to n
        invariant ValTypes(data, old(pos), n) == Prepend(vts, ValTypes(data, pos, n - j))
      {
        var vt := ReadByte();
        if vt.Bad? { return Bad(vt.error); }
        if !IsValType(vt.value) { return Bad(InvalidValType); }
        Regrouped(vts, vt.value, ValTypes(data, pos, n - j - 1));
        vts := vts + [vt.value];
      }
      assert vts + [] == vts;
      r := Got(vts, pos);
    }

    // ---------- Entries ----------

    method ParseType() returns (r: Parsed<()>)
      modifies this
      ensures Fills(TypeEntry(data, old(mod), old(pos)), r)
    {
      hide Leb, ValTypes;
      if |mod.types| >= MAX_TYPES { return Bad(TooManyTypes); }
      var form := ReadByte();
      if form.Bad? { return Bad(form.error); }
      if form.value != 0x60 { return Bad(InvalidFuncType); }
      var params := ReadLeb();
      if params.Bad? { return Bad(params.error); }
      if params.value > MAX_PARAMS { return Bad(TooManyParams); }
      var ps := ReadValTypes(params.value);
      if ps.Bad? { return Bad(ps.error); }
      var results := ReadLeb();
      if results.Bad? { return Bad(results.error); }
      if results.value > MAX_RESULTS { return Bad(TooManyResults); }
      var rs := ReadValTypes(results.value);
      if rs.Bad? { return Bad(rs.error); }
      mod := mod.(types := mod.types + [FuncType(ps.value, rs.value)]);
      r := Got((), pos);
    }

    method ParseFunction() returns (r: Parsed<()>)
      modifies this
      ensures Fills(FunctionEntry(data, old(mod), old(pos)), r)
    {
      hide Leb;
      if |mod.funcTypes| >= MAX_FUNCS { return Bad(TooManyFunctions); }
      var t := ReadLeb();
      if t.Bad? { return Bad(t.error); }
      if t.value >= |mod.types| { return Bad(TypeIndexOutOfBounds); }
      mod := mod.(funcTypes := mod.funcTypes + [t.value]);
      r := Got((), pos);
    }

    method ParseExport() returns (r: Parsed<()>)
      modifies this
      ensures Fills(ExportEntry(data, old(mod), old(pos)), r)
    {
      hide Leb;
      if |mod.exports| >= MAX_EXPORTS { return Bad(TooManyExports); }
      var n := ReadLeb();
      if n.Bad? { return Bad(n.error); }
      if n.value > MAX_EXPORT_NAME { return Bad(ExportNameTooLong); }
      var name := ReadBytes(n.value);
      if name.Bad? { return Bad(name.error); }
      var kind := ReadByte();
      if kind.Bad? { return Bad(kind.error); }
      if kind.value > 3 { return Bad(InvalidExportKind); }
      var index := ReadLeb();
      if index.Bad? { return Bad(index.error); }
      mod := mod.(exports := mod.exports + [Export(name.value, kind.value, index.value)]);
      r := Got((), pos);
    }

    method ParseCode() returns (r: Parsed<()>)
      modifies this
      ensures Fills(CodeEntry(data, old(mod), old(pos)), r)
    {
      hide Leb;
      if |mod.bodies| >= MAX_FUNCS { return Bad(TooManyFunctions); }
      var n := ReadLeb();
      if n.Bad? { return Bad(n.error); }
      mod := mod.(bodies := mod.bodies + [FuncBody(pos, n.value)]);
      var body := ReadBytes(n.value);
      if body.Bad? { return Bad(body.error); }
      r := Got((), pos);
    }

    method ReadLimits() returns (r: Parsed<MemoryLimits>)
      modifies this`pos
      ensures Reads(Limits(data, old(pos)), r)
    {
      hide Leb;
      var flags := ReadByte();
      if flags.Bad? { return Bad(flags.error); }
      var min := ReadLeb();
      if min.Bad? { return Bad(min.error); }
      if flags.value % 2 == 0 { return Got(Memory(min.value, 0, false), pos); }
      var max := ReadLeb();
      if max.Bad? { return Bad(max.error); }
      r := Got(Memory(min.value, max.value, true), pos);
    }

    method ParseImport() returns (r: Parsed<()>)
      modifies this
      ensures Fills(ImportEntry(data, old(mod), old(pos)), r)
    {
      hide Leb, Limits;
      var n1 := ReadLeb();
      if n1.Bad? { return Bad(n1.error); }
      var modName := ReadBytes(n1.value);
      if modName.Bad? { return Bad(modName.error); }
      var n2 := ReadLeb();
      if n2.Bad? { return Bad(n2.error); }
      var name := ReadBytes(n2.value);
      if name.Bad? { return Bad(name.error); }
      var kind := ReadByte();
      if kind.Bad? { return Bad(kind.error); }
      if kind.value == 0 {
        if |mod.imports| >= MAX_IMPORTS { return Bad(TooManyImports); }
        var t := ReadLeb();
        if t.Bad? { return Bad(t.error); }
        if t.value >= |mod.types| { return Bad(TypeIndexOutOfBounds); }
        mod := mod.(imports := mod.imports + [Import(t.value, Truncate(name.value))]);
      } else {
        if kind.value > 3 { return Bad(InvalidSection); }
        if kind.value != 2 {
          var valType := ReadByte();
          if valType.Bad? { return Bad(valType.error); }
        }
        if kind.value == 3 {
          var mutability := ReadByte();
          if mutability.Bad? { return Bad(mutability.error); }
        } else {
          var limits := ReadLimits();
          if limits.Bad? { return Bad(limits.error); }
        }
      }
      r := Got((), pos);
    }

    method ParseData() returns (r: Parsed<()>)
      modifies this
      ensures Fills(DataEntry(data, old(mod), old(pos)), r)
    {
      hide Leb;
      if |mod.dataSegments| >= MAX_DATA_SEGS { return Bad(TooManyDataSegments); }
      var kind := ReadLeb();
      if kind.Bad? { return Bad(kind.error); }
      if kind.value != 0 { return Bad(InvalidDataSegment); }
      var op := ReadByte();
      if op.Bad? { return Bad(op.error); }
      if op.value != 0x41 { return Bad(InvalidDataSegment); }
      var offset := ReadLeb();
      if offset.Bad? { return Bad(offset.error); }
      var end := ReadByte();
      if end.Bad? { return Bad(end.error); }
      if end.value != 0x0B { return Bad(InvalidDataSegment); }
      var n := ReadLeb();
      if n.Bad? { return Bad(n.error); }
      var start := pos;
      var bytes := ReadBytes(n.value);
      if bytes.Bad? { return Bad(bytes.error); }
      mod := mod.(dataSegments := mod.dataSegments + [DataSegment(offset.value, start, n.value)]);
      r := Got((), pos);
    }

    // ---------- Sections ----------

    method ParseEntry(id: Byte) returns (r: Parsed<()>)
      requires IsListed(id)
      modifies this
      ensures Fills(Entry(id, data, old(mod), old(pos)), r)
    {
      hide TypeEntry, ImportEntry, FunctionEntry, ExportEntry, CodeEntry, DataEntry;
      if id == SEC_TYPE { r := ParseType(); }
      else if id == SEC_IMPORT { r := ParseImport(); }
      else if id == SEC_FUNCTION { r := ParseFunction(); }
      else if id == SEC_EXPORT { r := ParseExport(); }
      else if id == SEC_CODE { r := ParseCode(); }
      else { r := ParseData(); }
    }

    method ParseListed(id: Byte) returns (r: Parsed<()>)
      requires IsListed(id)
      modifies this
      ensures Fills(Section(id, data, old(mod), old(pos), 0), r)
    {
      hide Leb, Entry, MemorySection;
      var count := ReadLeb();
      if count.Bad? { return Bad(count.error); }
      ghost var m0, p0 := mod, pos;
      for i := 0 to count.value
        invariant Entries(id, data, m0, p0, count.value) == Entries(id, data, mod, pos, count.value - i)
      {
        var e := ParseEntry(id);
        if e.Bad? { return Bad(e.error); }
      }
      r := Got((), pos);
    }

    method ParseMemory() returns (r: Parsed<()>)
      modifies this
      ensures Fills(MemorySection(data, old(mod), old(pos)), r)
    {
      hide Leb, Limits;
      var count := ReadLeb();
      if count.Bad? { return Bad(count.error); }
      if count.value == 0 { return Got((), pos); }
      var limits := ReadLimits();
      if limits.Bad? { return Bad(limits.error); }
      mod := mod.(memory := limits.value);
      ghost var p0 := pos;
      for i := 1 to count.value
        invariant mod == old(mod).(memory := limits.value)
        invariant MoreMemories(data, mod, p0, count.value - 1) == MoreMemories(data, mod, pos, count.value - i)
      {
        var more := ReadLimits();
        if more.Bad? { return Bad(more.error); }
      }
      r := Got((), pos);
    }

    method ParseSection(id: Byte, len: nat) returns (r: Parsed<()>)
      modifies this
      ensures Fills(Section(id, data, old(mod), old(pos), len), r)
    {
      hide Leb, Entries, MemorySection;
      if IsListed(id) {
        r := ParseListed(id);
      } else if id == SEC_MEMORY {
        r := ParseMemory();
      } else {
        var skipped := ReadBytes(len);
        if skipped.Bad? { return Bad(skipped.error); }
        r := Got((), pos);
      }
    }

    /** The main loop. It ends because a section, even one whose length lies, starts after
        the one before it. */
    method ParseSections() returns (r: Parsed<()>)
      modifies this
      ensures Fills(Sections(data, old(mod), old(pos)), r)
    {
      hide Leb, Section;
      ghost var m0, p0 := mod, pos;
      while pos != |data|
        invariant Sections(data, m0, p0) == Sections(data, mod, pos)
        decreases if pos < |data| then |data| - pos else 0
      {
        var id := ReadByte();
        if id.Bad? { return Bad(id.error); }
        var len := ReadLeb();
        if len.Bad? { return Bad(len.error); }
        var start := pos;
        var s := ParseSection(id.value, len.value);
        if s.Bad? { return Bad(s.error); }
        pos := start + len.value;
      }
      r := Got((), pos);
    }
  }

  function Prepend(vts: seq<Byte>, rest: Parsed<seq<Byte>>): Parsed<seq<Byte>> {
    match rest case Bad(e) => Bad(e) case Got(s, p) => Got(vts + s, p)
  }

  lemma NothingPrepended(rest: Parsed<seq<Byte>>)
    ensures Prepend([], rest) == rest
  {
    if rest.Got? { assert [] + rest.value == rest.value; }
  }

  lemma Regrouped(vts: seq<Byte>, vt: Byte, rest: Parsed<seq<Byte>>)
    ensures Prepend(vts, match rest case Bad(e) => Bad(e) case Got(s, p) => Got([vt] + s, p))
            == Prepend(vts + [vt], rest)
  {
    if rest.Got? { assert vts + ([vt] + rest.value) == vts + [vt] + rest.value; }
  }

  /** `parse`: terminates on every byte string, and every module it accepts is well-formed. */
  method ParseModule(data: seq<Byte>) returns (r: Parsed<WasmModule>)
    ensures r == Parse(data)
    ensures r.Got? ==> Accepted(r.value, |data|)
  {
    hide Sections, Accepted;
    ParsedIsAccepted(data);
    if |data| < 8 { return Bad(TooSmall); }
    if data[0..4] != MAGIC { return Bad(BadMagic); }
    if data[4..8] != VERSION { return Bad(BadVersion); }
    var parser := new Parser(data);
    parser.pos := 8;
    var s := parser.ParseSections();
    if s.Bad? { return Bad(s.error); }
    var m := parser.mod;
    if |m.funcTypes| > 0 && |m.bodies| > 0 && |m.funcTypes| != |m.bodies| { return Bad(MissingCodeSection); }
    r := Got(m, parser.pos);
  }
}
