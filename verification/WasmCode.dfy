/** WebAssembly instructions: their byte encoding, and the scanners that look for
    the end of a block (interp.rs). */
module WasmCode {
  import opened Words
  import opened Leb128

  const UNREACHABLE: Byte := 0x00
  const NOP: Byte := 0x01
  const BLOCK: Byte := 0x02
  const LOOP: Byte := 0x03
  const IF: Byte := 0x04
  const ELSE: Byte := 0x05
  const END: Byte := 0x0B
  const BR: Byte := 0x0C
  const BR_IF: Byte := 0x0D
  const RETURN: Byte := 0x0F
  const CALL: Byte := 0x10
  const DROP: Byte := 0x1A
  const SELECT: Byte := 0x1B
  const LOCAL_GET: Byte := 0x20
  const LOCAL_SET: Byte := 0x21
  const LOCAL_TEE: Byte := 0x22
  const I32_LOAD: Byte := 0x28
  const I64_LOAD: Byte := 0x29
  const I32_LOAD8_S: Byte := 0x2C
  const I32_LOAD8_U: Byte := 0x2D
  const I32_LOAD16_S: Byte := 0x2E
  const I32_LOAD16_U: Byte := 0x2F
  const I32_STORE: Byte := 0x36
  const I64_STORE: Byte := 0x37
  const I32_STORE8: Byte := 0x38
  const I32_STORE16: Byte := 0x39
  const MEMORY_SIZE: Byte := 0x3F
  const MEMORY_GROW: Byte := 0x40
  const I32_CONST: Byte := 0x41
  const I64_CONST: Byte := 0x42

  /** The block type that stands for "no result". */
  const VOID: Byte := 0x40

  predicate IsLoad(op: Byte) {
    op == I32_LOAD || op == I64_LOAD || I32_LOAD8_S <= op <= I32_LOAD16_U
  }

  predicate IsStore(op: Byte) {
    I32_STORE <= op <= I32_STORE16
  }

  /** Comparisons, arithmetic and conversions with one operand. */
  predicate IsUnary(op: Byte) {
    op in {0x45, 0x50, 0x67, 0x68, 0x79, 0x7A, 0xA7, 0xAC, 0xAD}
  }

  predicate IsBinary(op: Byte) {
    0x46 <= op <= 0x4F || 0x51 <= op <= 0x5A || 0x6A <= op <= 0x78 || 0x7C <= op <= 0x8A
  }

  predicate IsOpener(op: Byte) { op == BLOCK || op == LOOP || op == IF }

  /** The immediates that follow an opcode. */
  datatype Immediates = NoImmediate | OneU32 | OneI32 | OneI64 | MemArg | OneByte

  /** As the scanners classify opcodes; whatever they do not name has no immediate. */
  function ImmediatesOf(op: Byte): Immediates {
    if IsOpener(op) || op == MEMORY_SIZE || op == MEMORY_GROW then OneByte
    else if op == BR || op == BR_IF || op == CALL || LOCAL_GET <= op <= LOCAL_TEE then OneU32
    else if op == I32_CONST then OneI32
    else if op == I64_CONST then OneI64
    else if IsLoad(op) || IsStore(op) then MemArg
    else NoImmediate
  }

  /** The values of the immediates at `pc` and the position after them. */
  datatype Decoded = Decoded(first: nat, second: nat, next: nat) | Truncated

  function DecodeImmediates(kind: Immediates, code: seq<Byte>, pc: nat): (d: Decoded)
    ensures d.Decoded? ==> pc <= d.next && (kind.NoImmediate? || d.next <= |code|)
  {
    match kind
    case NoImmediate => Decoded(0, 0, pc)
    case OneByte => if pc < |code| then Decoded(code[pc], 0, pc + 1) else Truncated
    case OneU32 => (match ReadU32(code, pc) case Done(v, n) => Decoded(v, 0, n) case Short => Truncated)
    case OneI32 => (match ReadI32(code, pc) case Done(v, n) => Decoded(v, 0, n) case Short => Truncated)
    case OneI64 => (match ReadI64(code, pc) case Done(v, n) => Decoded(v, 0, n) case Short => Truncated)
    case MemArg =>
      match ReadU32(code, pc)
      case Short => Truncated
      case Done(align, n) =>
        match ReadU32(code, n)
        case Done(offset, n2) => Decoded(align, offset, n2)
        case Short => Truncated
  }

  // ---------- The scanners ----------

  datatype Found = FoundEnd(next: nat) | FoundElse(next: nat) | Lost

  /** `skip_to_end` when `stopAtElse` is false, `skip_to_else_or_end` when it is true:
      from `pc`, inside `depth` open blocks, to just after the closing opcode. */
  function Skip(code: seq<Byte>, pc: nat, depth: nat, stopAtElse: bool): (f: Found)
    requires depth >= 1
    ensures !f.Lost? ==> pc < f.next <= |code|
    ensures f.FoundElse? ==> stopAtElse
    decreases |code| - pc
  {
    if pc >= |code| then Lost
    else
      var op := code[pc];
      if op == END then
        if depth == 1 then FoundEnd(pc + 1) else Skip(code, pc + 1, depth - 1, stopAtElse)
      else if op == ELSE && stopAtElse && depth == 1 then FoundElse(pc + 1)
      else
        match DecodeImmediates(ImmediatesOf(op), code, pc + 1)
        case Truncated => Lost
        case Decoded(_, _, next) => Skip(code, next, if IsOpener(op) then depth + 1 else depth, stopAtElse)
  }

  // ---------- Structured programs ----------

  /** An immediate together with the bytes that spell it; LEB128 has several spellings. */
  datatype Leb = Leb(value: nat, bytes: seq<Byte>)

  ghost predicate SpellsU32(l: Leb) { ReadU32(l.bytes, 0) == Done(l.value, |l.bytes|) }
  ghost predicate SpellsI32(l: Leb) { ReadI32(l.bytes, 0) == Done(l.value, |l.bytes|) }
  ghost predicate SpellsI64(l: Leb) { ReadI64(l.bytes, 0) == Done(l.value, |l.bytes|) }

  /** Structured instructions. `Plain` is any instruction without control flow, with
      up to two immediates. */
  datatype Instr =
    | Plain(op: Byte, imm: seq<Leb>)
    | Unreachable
    | Br(depth: Leb)
    | BrIf(depth: Leb)
    | Return
    | Call(func: Leb)
    | Block(kind: Byte, body: seq<Instr>)
    | Loop(kind: Byte, body: seq<Instr>)
    | If(kind: Byte, thn: seq<Instr>)
    | IfElse(kind: Byte, thn: seq<Instr>, els: seq<Instr>)

  predicate IsPlainOp(op: Byte) {
    || op == NOP || op == DROP || op == SELECT
    || LOCAL_GET <= op <= LOCAL_TEE || IsLoad(op) || IsStore(op)
    || op == MEMORY_SIZE || op == MEMORY_GROW || op == I32_CONST || op == I64_CONST
    || IsUnary(op) || IsBinary(op)
  }

  ghost predicate WellSpelled(kind: Immediates, imm: seq<Leb>) {
    match kind
    case NoImmediate => imm == []
    case OneByte => |imm| == 1 && imm[0].value < 256 && imm[0].bytes == [imm[0].value]
    case OneU32 => |imm| == 1 && SpellsU32(imm[0])
    case OneI32 => |imm| == 1 && SpellsI32(imm[0])
    case OneI64 => |imm| == 1 && SpellsI64(imm[0])
    case MemArg => |imm| == 2 && SpellsU32(imm[0]) && SpellsU32(imm[1])
  }

  ghost predicate WellFormed(i: Instr)
    decreases i, 1
  {
    match i
    case Plain(op, imm) => IsPlainOp(op) && WellSpelled(ImmediatesOf(op), imm)
    case Br(l) => SpellsU32(l)
    case BrIf(l) => SpellsU32(l)
    case Call(f) => SpellsU32(f)
    case Block(_, body) => WellFormedSeq(body)
    case Loop(_, body) => WellFormedSeq(body)
    case If(_, thn) => WellFormedSeq(thn)
    case IfElse(_, thn, els) => WellFormedSeq(thn) && WellFormedSeq(els)
    case _ => true
  }

  ghost predicate WellFormedSeq(ins: seq<Instr>)
    decreases ins, 0
  {
    ins == [] || (WellFormed(ins[0]) && WellFormedSeq(ins[1..]))
  }

  function ImmBytes(imm: seq<Leb>): seq<Byte> {
    if imm == [] then [] else imm[0].bytes + ImmBytes(imm[1..])
  }

  function Encode(i: Instr): (b: seq<Byte>)
    ensures |b| >= 1
    decreases i, 1
  {
    match i
    case Plain(op, imm) => [op] + ImmBytes(imm)
    case Unreachable => [UNREACHABLE]
    case Br(l) => [BR] + l.bytes
    case BrIf(l) => [BR_IF] + l.bytes
    case Return => [RETURN]
    case Call(f) => [CALL] + f.bytes
    case Block(kind, body) => [BLOCK, kind] + (EncodeSeq(body) + [END])
    case Loop(kind, body) => [LOOP, kind] + (EncodeSeq(body) + [END])
    case If(kind, thn) => [IF, kind] + (EncodeSeq(thn) + [END])
    case IfElse(kind, thn, els) => [IF, kind] + (EncodeSeq(thn) + ([ELSE] + (EncodeSeq(els) + [END])))
  }

  function EncodeSeq(ins: seq<Instr>): seq<Byte>
    decreases ins, 0
  {
    if ins == [] then [] else Encode(ins[0]) + EncodeSeq(ins[1..])
  }

  // ---------- The scanners find the matching delimiter ----------

  lemma U32InPlace(l: Leb, code: seq<Byte>, pc: nat)
    requires SpellsU32(l) && At(code, pc, l.bytes)
    ensures ReadU32(code, pc) == Done(l.value, pc + |l.bytes|)
  {
    assert l.bytes[0..] == l.bytes;
    ReadsInPlace(l.bytes, 0, code, pc, U32_LIMIT);
  }

  lemma ImmediatesInPlace(kind: Immediates, imm: seq<Leb>, code: seq<Byte>, pc: nat)
    requires WellSpelled(kind, imm) && At(code, pc, ImmBytes(imm))
    ensures DecodeImmediates(kind, code, pc)
            == Decoded(if |imm| > 0 then imm[0].value else 0, if |imm| > 1 then imm[1].value
                else 0, pc + |ImmBytes(imm)|)
  {
    hide ReadUnsigned, ReadSigned;
    if |imm| >= 1 {
      assert ImmBytes(imm) == imm[0].bytes + ImmBytes(imm[1..]);
      AtSplit(code, pc, imm[0].bytes, ImmBytes(imm[1..]));
      assert imm[0].bytes[0..] == imm[0].bytes;
      ReadsInPlace(imm[0].bytes, 0, code, pc, U32_LIMIT);
      ReadsInPlace(imm[0].bytes, 0, code, pc, U64_LIMIT);
      if kind.OneByte? { AtFirst(code, pc, imm[0].bytes); }
      if |imm| == 2 {
        assert ImmBytes(imm[1..]) == imm[1].bytes + ImmBytes(imm[2..]);
        AtSplit(code, pc + |imm[0].bytes|, imm[1].bytes, ImmBytes(imm[2..]));
        U32InPlace(imm[1], code, pc + |imm[0].bytes|);
      }
    }
  }

  lemma PlainIsNotControl(op: Byte)
    requires IsPlainOp(op)
    ensures op !in {UNREACHABLE, ELSE, END, BR, BR_IF, RETURN, CALL} && !IsOpener(op)
  {
  }

  /** One opcode that neither opens nor closes a block. */
  lemma SkipOne(code: seq<Byte>, pc: nat, depth: nat, stopAtElse: bool, next: nat)
    requires depth >= 1 && pc < |code| && code[pc] != END && !IsOpener(code[pc])
    requires code[pc] == ELSE ==> depth >= 2
    requires DecodeImmediates(ImmediatesOf(code[pc]), code, pc + 1).Decoded?
    requires next == DecodeImmediates(ImmediatesOf(code[pc]), code, pc + 1).next
    ensures Skip(code, pc, depth, stopAtElse) == Skip(code, next, depth, stopAtElse)
  {
    hide DecodeImmediates;
  }

  lemma SkipOpen(code: seq<Byte>, pc: nat, depth: nat, stopAtElse: bool)
    requires depth >= 1 && pc + 1 < |code| && IsOpener(code[pc])
    ensures Skip(code, pc, depth, stopAtElse) == Skip(code, pc + 2, depth + 1, stopAtElse)
  {
    assert DecodeImmediates(ImmediatesOf(code[pc]), code, pc + 1).next == pc + 2;
    hide DecodeImmediates;
  }

  lemma SkipClose(code: seq<Byte>, pc: nat, depth: nat, stopAtElse: bool)
    requires depth >= 1 && pc < |code| && code[pc] == END
    ensures Skip(code, pc, depth + 1, stopAtElse) == Skip(code, pc + 1, depth, stopAtElse)
    ensures Skip(code, pc, 1, stopAtElse) == FoundEnd(pc + 1)
  {
    hide DecodeImmediates;
  }

  /** Scanning passes over a whole instruction, whatever its nesting, and comes out at
      the same depth. */
  lemma {:induction false} SkipInstr(code: seq<Byte>, pc: nat, i: Instr, depth: nat, stopAtElse: bool)
    requires WellFormed(i) && At(code, pc, Encode(i)) && depth >= 1
    ensures pc + |Encode(i)| <= |code|
    ensures Skip(code, pc, depth, stopAtElse) == Skip(code, pc + |Encode(i)|, depth, stopAtElse)
    decreases i, 1
  {
    hide Skip, At, ReadU32, ReadI32, ReadI64, IsUnary, SpellsU32;
    AtFirst(code, pc, Encode(i));
    AtInRange(code, pc, Encode(i));
    match i
    case Plain(op, imm) => SkipPlain(code, pc, op, imm, depth, stopAtElse);
    case Br(l) => SkipU32(code, pc, BR, l, depth, stopAtElse);
    case BrIf(l) => SkipU32(code, pc, BR_IF, l, depth, stopAtElse);
    case Call(f) => SkipU32(code, pc, CALL, f, depth, stopAtElse);
    case Block(kind, body) => SkipBody(code, pc, BLOCK, kind, body, depth, stopAtElse);
    case Loop(kind, body) => SkipBody(code, pc, LOOP, kind, body, depth, stopAtElse);
    case If(kind, thn) => SkipBody(code, pc, IF, kind, thn, depth, stopAtElse);
    case IfElse(kind, thn, els) => SkipIfElse(code, pc, i, depth, stopAtElse);
    case Unreachable => SkipOne(code, pc, depth, stopAtElse, pc + 1);
    case Return => SkipOne(code, pc, depth, stopAtElse, pc + 1);
  }

  lemma SkipPlain(code: seq<Byte>, pc: nat, op: Byte, imm: seq<Leb>, depth: nat, stopAtElse: bool)
    requires IsPlainOp(op) && WellSpelled(ImmediatesOf(op), imm) && At(code, pc, [op] + ImmBytes(imm)) && depth >= 1
    ensures Skip(code, pc, depth, stopAtElse) == Skip(code, pc + 1 + |ImmBytes(imm)|, depth, stopAtElse)
  {
    hide Skip, At, DecodeImmediates, WellSpelled, ImmBytes, IsPlainOp, ImmediatesOf;
    AtFirst(code, pc, [op] + ImmBytes(imm));
    assert ([op] + ImmBytes(imm))[1..] == ImmBytes(imm);
    ImmediatesInPlace(ImmediatesOf(op), imm, code, pc + 1);
    PlainIsNotControl(op);
    SkipOne(code, pc, depth, stopAtElse, pc + 1 + |ImmBytes(imm)|);
  }

  lemma {:induction false} SkipIfElse(code: seq<Byte>, pc: nat, i: Instr, depth: nat, stopAtElse: bool)
    requires i.IfElse? && WellFormedSeq(i.thn) && WellFormedSeq(i.els) && depth >= 1
    requires At(code, pc, [IF, i.kind] + (EncodeSeq(i.thn) + ([ELSE] + (EncodeSeq(i.els) + [END]))))
    ensures var next := pc + 2 + |EncodeSeq(i.thn)| + 1 + |EncodeSeq(i.els)| + 1;
            next <= |code| && Skip(code, pc, depth, stopAtElse) == Skip(code, next, depth, stopAtElse)
    decreases i, 0
  {
    hide Skip, At, EncodeSeq, WellFormedSeq;
    var kind, thn, els := i.kind, i.thn, i.els;
    var rest := [ELSE] + (EncodeSeq(els) + [END]);
    OpenBlock(code, pc, IF, kind, EncodeSeq(thn) + rest);
    SkipOpen(code, pc, depth, stopAtElse);
    AtSplit(code, pc + 2, EncodeSeq(thn), rest);
    SkipSeq(code, pc + 2, thn, depth + 1, stopAtElse);
    var p := pc + 2 + |EncodeSeq(thn)|;
    AtFirst(code, p, rest);
    assert rest[1..] == EncodeSeq(els) + [END];
    SkipOne(code, p, depth + 1, stopAtElse, p + 1);
    SkipTail(code, p + 1, els, depth, stopAtElse);
  }

  lemma AtInRange(code: seq<Byte>, pc: nat, bytes: seq<Byte>)
    requires At(code, pc, bytes)
    ensures pc + |bytes| <= |code|
  {
  }

  lemma SkipU32(code: seq<Byte>, pc: nat, op: Byte, l: Leb, depth: nat, stopAtElse: bool)
    requires op in {BR, BR_IF, CALL} && SpellsU32(l) && At(code, pc, [op] + l.bytes) && depth >= 1
    ensures Skip(code, pc, depth, stopAtElse) == Skip(code, pc + 1 + |l.bytes|, depth, stopAtElse)
  {
    hide Skip, ReadU32, SpellsU32;
    AtFirst(code, pc, [op] + l.bytes);
    assert ([op] + l.bytes)[1..] == l.bytes;
    U32InPlace(l, code, pc + 1);
    SkipOne(code, pc, depth, stopAtElse, pc + 1 + |l.bytes|);
  }

  lemma OpenBlock(code: seq<Byte>, pc: nat, op: Byte, kind: Byte, rest: seq<Byte>)
    requires At(code, pc, [op, kind] + rest)
    ensures pc + 1 < |code| && code[pc] == op && code[pc + 1] == kind && At(code, pc + 2, rest)
  {
    AtSplit(code, pc, [op, kind], rest);
    AtFirst(code, pc, [op, kind]);
    AtFirst(code, pc + 1, [op, kind][1..]);
  }

  /** The rest of a block: its body and its END. */
  lemma {:induction false} SkipTail(code: seq<Byte>, pc: nat, body: seq<Instr>, depth: nat, stopAtElse: bool)
    requires WellFormedSeq(body) && depth >= 1 && At(code, pc, EncodeSeq(body) + [END])
    ensures var next := pc + |EncodeSeq(body)| + 1;
            next <= |code| && Skip(code, pc, depth + 1, stopAtElse) == Skip(code, next, depth, stopAtElse)
    decreases body, 1
  {
    hide Skip, At;
    AtSplit(code, pc, EncodeSeq(body), [END]);
    SkipSeq(code, pc, body, depth + 1, stopAtElse);
    AtFirst(code, pc + |EncodeSeq(body)|, [END]);
    SkipClose(code, pc + |EncodeSeq(body)|, depth, stopAtElse);
  }

  lemma {:induction false} SkipBody(
      code: seq<Byte>, pc: nat, op: Byte, kind: Byte, body: seq<Instr>, depth: nat, stopAtElse: bool)
    requires IsOpener(op) && WellFormedSeq(body) && depth >= 1
    requires At(code, pc, [op, kind] + (EncodeSeq(body) + [END]))
    ensures var next := pc + 2 + |EncodeSeq(body)| + 1;
            next <= |code| && Skip(code, pc, depth, stopAtElse) == Skip(code, next, depth, stopAtElse)
    decreases body, 2
  {
    hide Skip, At;
    OpenBlock(code, pc, op, kind, EncodeSeq(body) + [END]);
    SkipOpen(code, pc, depth, stopAtElse);
    SkipTail(code, pc + 2, body, depth, stopAtElse);
  }

  lemma {:induction false} SkipSeq(code: seq<Byte>, pc: nat, ins: seq<Instr>, depth: nat, stopAtElse: bool)
    requires WellFormedSeq(ins) && At(code, pc, EncodeSeq(ins)) && depth >= 1
    ensures pc + |EncodeSeq(ins)| <= |code|
    ensures Skip(code, pc, depth, stopAtElse) == Skip(code, pc + |EncodeSeq(ins)|, depth, stopAtElse)
    decreases ins, 0
  {
    hide Skip, At;
    AtInRange(code, pc, EncodeSeq(ins));
    if ins != [] {
      AtSplit(code, pc, Encode(ins[0]), EncodeSeq(ins[1..]));
      SkipInstr(code, pc, ins[0], depth, stopAtElse);
      SkipSeq(code, pc + |Encode(ins[0])|, ins[1..], depth, stopAtElse);
    }
  }

  /** From the start of a block's body, both scanners stop just after its own END. */
  lemma SkipFindsOwnEnd(code: seq<Byte>, pc: nat, body: seq<Instr>)
    requires WellFormedSeq(body) && At(code, pc, EncodeSeq(body) + [END])
    ensures Skip(code, pc, 1, false) == FoundEnd(pc + |EncodeSeq(body)| + 1)
    ensures Skip(code, pc, 1, true) == FoundEnd(pc + |EncodeSeq(body)| + 1)
  {
    hide Skip, At;
    AtSplit(code, pc, EncodeSeq(body), [END]);
    AtFirst(code, pc + |EncodeSeq(body)|, [END]);
    SkipClose(code, pc + |EncodeSeq(body)|, 1, false);
    SkipClose(code, pc + |EncodeSeq(body)|, 1, true);
    SkipSeq(code, pc, body, 1, false);
    SkipSeq(code, pc, body, 1, true);
  }

  lemma SkipAtElse(code: seq<Byte>, pc: nat)
    requires pc < |code| && code[pc] == ELSE
    ensures Skip(code, pc, 1, true) == FoundElse(pc + 1)
    ensures Skip(code, pc, 1, false) == Skip(code, pc + 1, 1, false)
  {
  }

  /** With an else part, `skip_to_end` passes over it and `skip_to_else_or_end` stops at
      its start, whatever ifs are nested in the first part. */
  lemma SkipFindsOwnElse(code: seq<Byte>, pc: nat, thn: seq<Instr>, els: seq<Instr>)
    requires WellFormedSeq(thn) && WellFormedSeq(els)
    requires At(code, pc, EncodeSeq(thn) + ([ELSE] + (EncodeSeq(els) + [END])))
    ensures var elsePc := pc + |EncodeSeq(thn)| + 1;
            && At(code, elsePc, EncodeSeq(els) + [END])
            && code[elsePc - 1] == ELSE
            && Skip(code, pc, 1, true) == FoundElse(elsePc)
            && Skip(code, pc, 1, false) == FoundEnd(elsePc + |EncodeSeq(els)| + 1)
  {
    hide Skip, At;
    var rest := [ELSE] + (EncodeSeq(els) + [END]);
    AtSplit(code, pc, EncodeSeq(thn), rest);
    var p := pc + |EncodeSeq(thn)|;
    AtFirst(code, p, rest);
    assert rest[1..] == EncodeSeq(els) + [END];
    SkipAtElse(code, p);
    SkipSeq(code, pc, thn, 1, false);
    SkipSeq(code, pc, thn, 1, true);
    SkipFindsOwnEnd(code, p + 1, els);
  }
}
