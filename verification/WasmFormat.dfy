/** The parsed module that the parser hands to the interpreter (wasm.rs). */
module WasmFormat {
  import opened Words

  const MAX_TYPES := 32
  const MAX_FUNCS := 64
  const MAX_IMPORTS := 16
  const MAX_EXPORTS := 16
  const MAX_PARAMS := 8
  const MAX_RESULTS := 4
  const MAX_EXPORT_NAME := 32
  const MAX_IMPORT_NAME := 32
  const MAX_DATA_SEGS := 8

  datatype FuncType = FuncType(params: seq<Byte>, results: seq<Byte>)
  datatype FuncBody = FuncBody(offset: nat, length: nat)
  datatype DataSegment = DataSegment(offset: U32, dataOffset: nat, dataLen: nat)
  datatype Export = Export(name: seq<Byte>, kind: Byte, index: U32)
  datatype Import = Import(typeIdx: U32, name: seq<Byte>)
  datatype MemoryLimits = NoMemory | Memory(minPages: U32, maxPages: U32, hasMax: bool)

  /** The fixed arrays of the source, each cut to its count. */
  datatype WasmModule = WasmModule(
    types: seq<FuncType>,
    imports: seq<Import>,
    funcTypes: seq<U32>,
    memory: MemoryLimits,
    exports: seq<Export>,
    bodies: seq<FuncBody>,
    dataSegments: seq<DataSegment>)

  const EMPTY_MODULE := WasmModule([], [], [], NoMemory, [], [], [])

  predicate IsValType(b: Byte) { 0x7C <= b <= 0x7F }

  /** What every module that the parser accepts satisfies, for an input of `size` bytes:
      counts within the array sizes, type indices in range, ranges inside the input. */
  ghost predicate Accepted(m: WasmModule, size: nat) {
    && |m.types| <= MAX_TYPES && |m.imports| <= MAX_IMPORTS && |m.funcTypes| <= MAX_FUNCS
    && |m.exports| <= MAX_EXPORTS && |m.bodies| <= MAX_FUNCS && |m.dataSegments| <= MAX_DATA_SEGS
    && (forall i :: 0 <= i < |m.types| ==>
          |m.types[i].params| <= MAX_PARAMS && |m.types[i].results| <= MAX_RESULTS
          && (forall j :: 0 <= j < |m.types[i].params| ==> IsValType(m.types[i].params[j]))
          && (forall j :: 0 <= j < |m.types[i].results| ==> IsValType(m.types[i].results[j])))
    && (forall i :: 0 <= i < |m.imports| ==> m.imports[i].typeIdx < |m.types| && |m.imports[i].name| <= MAX_IMPORT_NAME)
    && (forall i :: 0 <= i < |m.funcTypes| ==> m.funcTypes[i] < |m.types|)
    && (forall i :: 0 <= i < |m.exports| ==> |m.exports[i].name| <= MAX_EXPORT_NAME && m.exports[i].kind <= 3)
    && (forall i :: 0 <= i < |m.bodies| ==> m.bodies[i].offset + m.bodies[i].length <= size)
    && (forall i :: 0 <= i < |m.dataSegments| ==> m.dataSegments[i].dataOffset + m.dataSegments[i].dataLen <= size)
  }

  /** Slots of the bodies array that no code section filled are zero. */
  function BodyOf(m: WasmModule, i: nat): FuncBody {
    if i < |m.bodies| then m.bodies[i] else FuncBody(0, 0)
  }
}
