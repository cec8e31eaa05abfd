/** From a program to its bytes, through the parser, to the interpreter: parsing a written
    module gives exactly the program that was written, and running it follows the semantics. */
module WasmPrograms {
  import opened Words
  import opened Leb128
  import opened WasmFormat
  import opened WasmParser
  import opened WasmEncoding
  import opened Interpreter
  import opened WasmSemantics
  import opened InterpreterPrograms

  // ---------- The bodies of a module ----------

  /** The code entries of a section, in order. */
  ghost function CodeOfItems(items: seq<Item>): seq<seq<Byte>> {
    if items == [] then [] else (if items[0].CodeItem? then [items[0].body] else []) + CodeOfItems(items[1..])
  }

  ghost function CodeOf(chunks: seq<Chunk>): seq<seq<Byte>> {
    if chunks == [] then []
    else (if chunks[0].Listed? then CodeOfItems(chunks[0].items) else []) + CodeOf(chunks[1..])
  }

  ghost predicate RangeIs(data: seq<Byte>, b: FuncBody, body: seq<Byte>) {
    b.offset + b.length <= |data| && data[b.offset..b.offset + b.length] == body
  }

  /** The recorded ranges hold these bodies. */
  ghost predicate BodiesAre(data: seq<Byte>, bodies: seq<FuncBody>, code: seq<seq<Byte>>) {
    |bodies| == |code| && forall i :: 0 <= i < |bodies| ==> RangeIs(data, bodies[i], code[i])
  }

  lemma AddKeepsBodies(data: seq<Byte>, m: WasmModule, p: nat, i: Item, code: seq<seq<Byte>>)
    requires At(data, p, EncodeItem(i)) && Fits(m, i) && BodiesAre(data, m.bodies, code)
    ensures BodiesAre(data, Add(m, i, p).bodies, code + if i.CodeItem? then [i.body] else [])
  {
    hide At, EncodeItem, Fits;
    RangesHoldContents(data, m, p, i);
  }

  lemma {:induction false} ItemsKeepBodies(
      id: Byte, data: seq<Byte>, m: WasmModule, p: nat, items: seq<Item>, code: seq<seq<Byte>>)
    requires At(data, p, EncodeItems(items)) && AllFit(id, m, items, p) && BodiesAre(data, m.bodies, code)
    ensures BodiesAre(data, AddAll(m, items, p).bodies, code + CodeOfItems(items))
    decreases |items|
  {
    hide At, EncodeItem, Fits, Add, BodiesAre;
    if items == [] {
      assert code + [] == code;
    } else {
      var more := if items[0].CodeItem? then [items[0].body] else [];
      AtSplit(data, p, EncodeItem(items[0]), EncodeItems(items[1..]));
      AddKeepsBodies(data, m, p, items[0], code);
      ItemsKeepBodies(id, data, Add(m, items[0], p), p + |EncodeItem(items[0])|, items[1..], code + more);
      assert code + more + CodeOfItems(items[1..]) == code + (more + CodeOfItems(items[1..]));
    }
  }

  lemma ChunkKeepsBodies(data: seq<Byte>, m: WasmModule, c: Chunk, p: nat, code: seq<seq<Byte>>)
    requires At(data, p, ChunkBody(c)) && ChunkFits(m, c, p) && BodiesAre(data, m.bodies, code)
    ensures BodiesAre(data, AddChunk(m, c, p).bodies, code + if c.Listed? then CodeOfItems(c.items) else [])
  {
    hide At, AllFit, BodiesAre, AddAll, EncodeItems, EncodeUnsigned;
    if c.Listed? {
      AtSplit(data, p, EncodeUnsigned(|c.items|), EncodeItems(c.items));
      ItemsKeepBodies(c.id, data, m, p + |EncodeUnsigned(|c.items|)|, c.items, code);
    } else {
      assert code + [] == code;
    }
  }

  lemma {:induction false} ChunksKeepBodies(
      data: seq<Byte>, m: WasmModule, p: nat, chunks: seq<Chunk>, code: seq<seq<Byte>>)
    requires At(data, p, EncodeChunks(chunks)) && ChunksFit(m, chunks, p) && BodiesAre(data, m.bodies, code)
    ensures BodiesAre(data, AddChunks(m, chunks, p).bodies, code + CodeOf(chunks))
    decreases |chunks|
  {
    hide At, ChunkBody, ChunkFits, AddChunk, BodiesAre, EncodeUnsigned, CodeOfItems;
    if chunks == [] {
      assert code + [] == code;
    } else {
      var c := chunks[0];
      var body, start := ChunkBody(c), BodyStart(c, p);
      var more := if c.Listed? then CodeOfItems(c.items) else [];
      AtSplit(data, p, [ChunkId(c)] + Vec(body), EncodeChunks(chunks[1..]));
      AtSplit(data, p, [ChunkId(c)], Vec(body));
      AtSplit(data, p + 1, EncodeUnsigned(|body|), body);
      ChunkKeepsBodies(data, m, c, start, code);
      ChunksKeepBodies(data, AddChunk(m, c, start), start + |body|, chunks[1..], code + more);
      assert code + more + CodeOf(chunks[1..]) == code + (more + CodeOf(chunks[1..]));
    }
  }

  // ---------- Programs ----------

  /** Function `i` of the module has the type of `fn`. */
  ghost predicate TypeFits(m: WasmModule, i: nat, fn: Func) {
    && i < |m.funcTypes| && m.funcTypes[i] < |m.types|
    && |m.types[m.funcTypes[i]].params| == fn.params && |m.types[m.funcTypes[i]].results| == fn.results
  }

  /** The sections write this program: one type and one code entry for each function. */
  ghost predicate Writes(chunks: seq<Chunk>, prog: seq<Func>) {
    var m := AddChunks(EMPTY_MODULE, chunks, 8);
    && |m.funcTypes| == |prog| == |CodeOf(chunks)|
    && forall i :: 0 <= i < |prog| ==>
         WellFormedFunc(prog[i]) && TypeFits(m, i, prog[i]) && CodeOf(chunks)[i] == EncodeFunc(prog[i])
  }

  /** The interpreter over a parsed module. */
  ghost function EnvOf(
      chunks: seq<Chunk>, alu: (Byte, seq<U64>) -> Outcome<U64>,
          host: (int, nat, seq<U64>, seq<Byte>) -> HostReply): Env
  {
    var m := AddChunks(EMPTY_MODULE, chunks, 8);
    Env(EncodeModule(chunks), m, |m.imports|, alu, host)
  }

  /** The written module parses, and what comes out holds the program. */
  lemma WrittenProgramParses(
      chunks: seq<Chunk>, prog: seq<Func>, alu: (Byte, seq<U64>) -> Outcome<U64>,
      host: (int, nat, seq<U64>, seq<Byte>) -> HostReply)
    requires ChunksFit(EMPTY_MODULE, chunks, 8) && Writes(chunks, prog)
    ensures Parse(EncodeModule(chunks)) == Got(EnvOf(chunks, alu, host).mod, |EncodeModule(chunks)|)
    ensures ValidEnv(EnvOf(chunks, alu, host)) && Holds(EnvOf(chunks, alu, host), prog)
  {
    hide Accepted, AddChunks, ChunksFit, EncodeChunks, CodeOf, Parse, WellFormedFunc, EncodeFunc, At, Holds, TypeFits;
    var data, m, env := EncodeModule(chunks), AddChunks(EMPTY_MODULE, chunks, 8), EnvOf(chunks, alu, host);
    WrittenBodies(chunks);
    ModuleRoundTrip(chunks);
    ParsedIsAccepted(data);
    forall i | 0 <= i < |prog| ensures At(data, BodyOf(m, i).offset, EncodeFunc(prog[i])) {
      BodyIsAt(data, m, CodeOf(chunks), i);
    }
    ProgramHolds(env, prog);
  }

  lemma WrittenBodies(chunks: seq<Chunk>)
    requires ChunksFit(EMPTY_MODULE, chunks, 8)
    ensures BodiesAre(EncodeModule(chunks), AddChunks(EMPTY_MODULE, chunks, 8).bodies, CodeOf(chunks))
  {
    hide AddChunks, ChunksFit, EncodeChunks, CodeOf;
    var data := EncodeModule(chunks);
    assert At(data, 8, EncodeChunks(chunks));
    assert [] + CodeOf(chunks) == CodeOf(chunks);
    ChunksKeepBodies(data, EMPTY_MODULE, 8, chunks, []);
  }

  lemma BodyIsAt(data: seq<Byte>, m: WasmModule, code: seq<seq<Byte>>, i: nat)
    requires BodiesAre(data, m.bodies, code) && i < |code|
    ensures At(data, BodyOf(m, i).offset, code[i])
  {
    assert RangeIs(data, m.bodies[i], code[i]);
  }

  lemma ProgramHolds(env: Env, prog: seq<Func>)
    requires ValidEnv(env) && |prog| == |env.mod.funcTypes|
    requires forall i :: 0 <= i < |prog| ==> WellFormedFunc(prog[i]) && TypeFits(env.mod, i, prog[i])
    requires forall i :: 0 <= i < |prog| ==> At(env.code, BodyOf(env.mod, i).offset, EncodeFunc(prog[i]))
    ensures Holds(env, prog)
  {
    hide Accepted, WellFormedFunc, EncodeFunc, At, BodyOf;
  }

  /** Written, parsed and run, the program does what the semantics says. */
  lemma WrittenProgramRuns(
      chunks: seq<Chunk>, prog: seq<Func>, alu: (Byte, seq<U64>) -> Outcome<U64>,
      host: (int, nat, seq<U64>, seq<Byte>) -> HostReply, fuel: nat, f: nat, args: seq<U64>, memory: seq<Byte>,
          world: int)
      returns (n: nat)
    requires ChunksFit(EMPTY_MODULE, chunks, 8) && Writes(chunks, prog)
    requires var imports := EnvOf(chunks, alu, host).imports;
             imports <= f < imports + |prog| && |args| == prog[f - imports].params
    ensures Parse(EncodeModule(chunks)) == Got(EnvOf(chunks, alu, host).mod, |EncodeModule(chunks)|)
    ensures ValidEnv(EnvOf(chunks, alu, host))
    ensures RunsTo(EnvOf(chunks, alu, host), f, args, memory, world, n,
                   ExecCall(EnvOf(chunks, alu, host), prog, fuel, f, Store(args, [], memory, world)))
  {
    hide Writes, ChunksFit, Parse, ExecCall, RunsTo, Goes, ValidEnv, Holds;
    WrittenProgramParses(chunks, prog, alu, host);
    n := InterpreterRunsPrograms(EnvOf(chunks, alu, host), prog, fuel, f, args, memory, world);
  }
}
