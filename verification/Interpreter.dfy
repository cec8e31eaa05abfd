/** The bytecode interpreter as a step function over its fixed-size stacks (interp.rs).
    Integer arithmetic and host functions are parameters of the machine. */
module Interpreter {
  import opened Words
  import opened Leb128
  import opened WasmCode
  import opened WasmFormat

  const MAX_STACK := 256
  const MAX_CALL_DEPTH := 32
  const MAX_LOCALS := 32
  const MAX_LABELS := 32
  const LOCAL_SLOTS := 1024

  datatype TrapKind =
    | TrapUnreachable
    | StackOverflow
    | StackUnderflow
    | CallStackOverflow
    | OutOfBounds
    | DivisionByZero
    | IntegerOverflow
    | UnknownOpcode(op: Byte)
    | InvalidLocal
    | InvalidFunction
    | TypeMismatch
    | LabelStackOverflow
    | InvalidBranch
    | UnexpectedEnd
    | HostCallError(code: U32)

  datatype Outcome<+T> = Ok(value: T) | Err(trap: TrapKind) {
    predicate IsFailure() { Err? }
    function PropagateFailure<U>(): Outcome<U> requires Err? { Err(trap) }
    function Extract(): T requires Ok? { value }
  }

  datatype Label = Label(target: nat, height: nat, arity: nat, isLoop: bool)

  datatype Frame = Frame(
    returnPc: nat, func: nat, localsBase: nat, localCount: nat, height: nat, arity: nat, labelBase: nat)

  /** The answer of a host function: its own new state, a result or an error, and the
      linear memory as it left it. */
  datatype HostReply = HostReply(world: int, result: HostResult, memory: seq<Byte>)

  datatype HostResult = HostOk(value: Option<U64>) | HostErr(code: U32)

  datatype Env = Env(
    code: seq<Byte>,
    mod: WasmModule,
    imports: nat,
    alu: (Byte, seq<U64>) -> Outcome<U64>,
    host: (int, nat, seq<U64>, seq<Byte>) -> HostReply)

  ghost predicate ValidEnv(env: Env) {
    Accepted(env.mod, |env.code|) && env.imports <= |env.mod.imports|
  }

  datatype Machine = Machine(
    pc: nat,
    stack: seq<U64>,
    sp: nat,
    frames: seq<Frame>,
    frameDepth: nat,
    locals: seq<U64>,
    labels: seq<Label>,
    labelDepth: nat,
    memory: seq<Byte>,
    world: int)

  /** The window of frame `i` starts where the one below it ends. */
  ghost predicate Adjoins(frames: seq<Frame>, i: nat) {
    0 < i < |frames| && frames[i].localsBase == frames[i - 1].localsBase + frames[i - 1].localCount
  }

  /** Frames own consecutive windows of the locals array, starting at 0. */
  ghost predicate Windows(frames: seq<Frame>, depth: nat) {
    && depth <= |frames|
    && (depth > 0 ==> frames[0].localsBase == 0)
    && (forall i {:trigger frames[i]} :: 0 <= i < depth ==>
          frames[i].localCount <= MAX_LOCALS && frames[i].localsBase <= i * MAX_LOCALS)
    && (forall i {:trigger Adjoins(frames, i)} :: 0 < i < depth ==> Adjoins(frames, i))
  }

  /** Every index that the interpreter can form stays inside its array. */
  ghost predicate Sound(m: Machine) {
    && |m.stack| == MAX_STACK && m.sp <= MAX_STACK
    && |m.frames| == MAX_CALL_DEPTH && 1 <= m.frameDepth <= MAX_CALL_DEPTH
    && |m.locals| == LOCAL_SLOTS
    && |m.labels| == MAX_LABELS && m.labelDepth <= MAX_LABELS
    && Windows(m.frames, m.frameDepth)
    && (forall i :: 0 <= i < m.frameDepth ==> m.frames[i].height <= MAX_STACK && m.frames[i].labelBase <= MAX_LABELS)
    && (forall i :: 0 <= i < MAX_LABELS ==> m.labels[i].height <= MAX_STACK)
  }

  datatype Status = Running(m: Machine) | Finished(result: Option<U64>, m: Machine) | Trapped(kind: TrapKind)

  // ---------- Stack primitives ----------

  function Push(m: Machine, v: U64): Outcome<Machine>
    requires |m.stack| == MAX_STACK
  {
    if m.sp >= MAX_STACK then Err(StackOverflow)
    else Ok(m.(stack := m.stack[m.sp := v], sp := m.sp + 1))
  }

  function PushLabel(m: Machine, l: Label): Outcome<Machine>
    requires |m.labels| == MAX_LABELS
  {
    if m.labelDepth >= MAX_LABELS then Err(LabelStackOverflow)
    else Ok(m.(labels := m.labels[m.labelDepth := l], labelDepth := m.labelDepth + 1))
  }

  function TopFrame(m: Machine): Frame
    requires 1 <= m.frameDepth <= |m.frames|
  {
    m.frames[m.frameDepth - 1]
  }

  // ---------- Memory ----------

  function AccessWidth(op: Byte): (n: nat)
    ensures n in {1, 2, 4, 8}
  {
    if op == I64_LOAD || op == I64_STORE then 8
    else if op == I32_LOAD || op == I32_STORE then 4
    else if op == I32_LOAD16_S || op == I32_LOAD16_U || op == I32_STORE16 then 2
    else 1
  }

  /** The signed narrow loads extend to all 64 bits of the slot. */
  function LoadFrom(op: Byte, memory: seq<Byte>, addr: U32, offset: nat): Outcome<U64> {
    var n, ea := AccessWidth(op), addr + offset;
    if ea + n > |memory| then Err(OutOfBounds)
    else
      var v := FromBytes(memory[ea..ea + n]);
      assert v < U64_LIMIT by { Widths(); }
      if op == I32_LOAD8_S && v >= 0x80 then Ok((v + U64_LIMIT - 0x100) % U64_LIMIT)
      else if op == I32_LOAD16_S && v >= 0x8000 then Ok((v + U64_LIMIT - 0x1_0000) % U64_LIMIT)
      else Ok(v)
  }

  function StoreTo(op: Byte, memory: seq<Byte>, addr: U32, offset: nat, v: U64): (r: Outcome<seq<Byte>>)
    ensures r.Ok? ==> |r.value| == |memory|
  {
    var n, ea := AccessWidth(op), addr + offset;
    if ea + n > |memory| then Err(OutOfBounds)
    else Ok(memory[..ea] + ToBytes(v, n) + memory[ea + n..])
  }

  // ---------- Instructions without control flow ----------

  /** How many operands an instruction takes from the stack. */
  function Operands(op: Byte): nat
    requires IsPlainOp(op)
  {
    if op == SELECT then 3
    else if IsStore(op) || IsBinary(op) then 2
    else if op == DROP || op == LOCAL_SET || op == LOCAL_TEE || IsLoad(op) || op == MEMORY_GROW || IsUnary(op) then 1
    else 0
  }

  datatype Effect = Effect(results: seq<U64>, locals: seq<U64>, memory: seq<Byte>)

  /** The effect of instruction `op` with immediates `a` and `b` on its operands (the
      last one was on top), the locals of its frame and the memory. */
  function Evaluate(env: Env, op: Byte, a: nat, b: nat, args: seq<U64>, locals: seq<U64>, memory: seq<Byte>)
      : (r: Outcome<Effect>)
    requires IsPlainOp(op) && |args| == Operands(op)
    requires op == I32_CONST || op == I64_CONST ==> a < U64_LIMIT
    ensures r.Ok? ==> |r.value.results| <= 1 && |r.value.locals| == |locals| && |r.value.memory| == |memory|
  {
    if op == NOP || op == DROP then Ok(Effect([], locals, memory))
    else if op == SELECT then Ok(Effect([if args[2] % U32_LIMIT != 0 then args[0] else args[1]], locals, memory))
    else if op == LOCAL_GET then
      if a < |locals| then Ok(Effect([locals[a]], locals, memory)) else Err(InvalidLocal)
    else if op == LOCAL_SET then
      if a < |locals| then Ok(Effect([], locals[a := args[0]], memory)) else Err(InvalidLocal)
    else if op == LOCAL_TEE then
      if a < |locals| then Ok(Effect([args[0]], locals[a := args[0]], memory)) else Err(InvalidLocal)
    else if IsLoad(op) then
      (match LoadFrom(op, memory, args[0] % U32_LIMIT, b)
       case Ok(v) => Ok(Effect([v], locals, memory))
       case Err(k) => Err(k))
    else if IsStore(op) then
      (match StoreTo(op, memory, args[0] % U32_LIMIT, b, args[1])
       case Ok(mem) => Ok(Effect([], locals, mem))
       case Err(k) => Err(k))
    else if op == MEMORY_SIZE then Ok(Effect([(|memory| / 65536) % U32_LIMIT], locals, memory))
    else if op == MEMORY_GROW then Ok(Effect([0xFFFF_FFFF], locals, memory))
    else if op == I32_CONST || op == I64_CONST then Ok(Effect([a], locals, memory))
    else
      match env.alu(op, args)
      case Ok(v) => Ok(Effect([v], locals, memory))
      case Err(k) => Err(k)
  }

  /** The window of the locals array that belongs to the running frame. */
  function Window(m: Machine): (w: seq<U64>)
    requires 1 <= m.frameDepth <= |m.frames| && TopFrame(m).localsBase + TopFrame(m).localCount <= |m.locals|
    ensures |w| == TopFrame(m).localCount
  {
    m.locals[TopFrame(m).localsBase..TopFrame(m).localsBase + TopFrame(m).localCount]
  }

  function SetWindow(m: Machine, w: seq<U64>): (m1: Machine)
    requires 1 <= m.frameDepth <= |m.frames| && TopFrame(m).localsBase + TopFrame(m).localCount <= |m.locals|
    requires |w| == TopFrame(m).localCount
    ensures |m1.locals| == |m.locals|
  {
    m.(locals := m.locals[..TopFrame(m).localsBase] + w + m.locals[TopFrame(m).localsBase + TopFrame(m).localCount..])
  }

  lemma WindowInRange(m: Machine)
    requires Sound(m)
    ensures TopFrame(m).localsBase + TopFrame(m).localCount <= |m.locals|
  {
    assert m.frames[m.frameDepth - 1].localCount <= MAX_LOCALS;
  }

  /** Take `n` operands away, apply the effect, push its result. */
  function CarryOut(m: Machine, n: nat, eff: Effect, next: nat): Status
    requires Sound(m) && n <= m.sp && |eff.locals| == TopFrame(m).localCount
  {
    WindowInRange(m);
    var m1 := SetWindow(m, eff.locals).(pc := next, sp := m.sp - n, memory := eff.memory);
    if eff.results == [] then Running(m1)
    else match Push(m1, eff.results[0])
      case Ok(m2) => Running(m2)
      case Err(k) => Trapped(k)
  }

  function StepPlain(env: Env, m: Machine, op: Byte): Status
    requires Sound(m) && IsPlainOp(op)
  {
    match DecodeImmediates(ImmediatesOf(op), env.code, m.pc)
    case Truncated => Trapped(UnexpectedEnd)
    case Decoded(a, b, next) =>
      var n := Operands(op);
      if m.sp < n then Trapped(StackUnderflow)
      else
        WindowInRange(m);
        ConstInRange(env.code, m.pc, op);
        match Evaluate(env, op, a, b, m.stack[m.sp - n..m.sp], Window(m), m.memory)
        case Err(k) => Trapped(k)
        case Ok(eff) => CarryOut(m, n, eff, next)
  }

  lemma ConstInRange(code: seq<Byte>, pc: nat, op: Byte)
    requires IsPlainOp(op)
    ensures var d := DecodeImmediates(ImmediatesOf(op), code, pc);
            d.Decoded? && (op == I32_CONST || op == I64_CONST) ==> d.first < U64_LIMIT
  {
    Rooms();
    ReadsInRange(code, pc, U32_LIMIT);
    ReadsInRange(code, pc, U64_LIMIT);
  }

  // ---------- Calls ----------

  /** Skip `n` groups of local declarations, adding up their counts. */
  function ReadGroups(code: seq<Byte>, pc: nat, n: nat, total: nat): Decoded
    decreases n
  {
    if n == 0 then Decoded(total, 0, pc)
    else match ReadU32(code, pc)
      case Short => Truncated
      case Done(count, p) => if p >= |code| then Truncated else ReadGroups(code, p + 1, n - 1, total + count)
  }

  function FuncTypeOf(env: Env, f: nat): FuncType
    requires ValidEnv(env) && env.imports <= f < env.imports + |env.mod.funcTypes|
  {
    env.mod.types[env.mod.funcTypes[f - env.imports]]
  }

  function NextLocalsBase(m: Machine): nat
    requires m.frameDepth <= |m.frames|
  {
    if m.frameDepth > 0 then TopFrame(m).localsBase + TopFrame(m).localCount else 0
  }

  /** Arguments move from the operand stack to a fresh window of locals, in which the
      declared locals start at zero. */
  function OpenFrame(m: Machine, f: nat, returnPc: nat, params: nat, declared: nat, arity: nat, start: nat): Machine
    requires m.sp <= |m.stack| && params <= m.sp && m.frameDepth < |m.frames|
    requires NextLocalsBase(m) + params + declared <= |m.locals|
  {
    var base, total, height := NextLocalsBase(m), params + declared, m.sp - params;
    m.(pc := start,
       locals := m.locals[..base] + (m.stack[height..m.sp] + seq(declared, _ => 0)) + m.locals[base + total..],
       sp := height,
       frames := m.frames[m.frameDepth := Frame(returnPc, f, base, total, height, arity, m.labelDepth)],
       frameDepth := m.frameDepth + 1)
  }

  /** Besides its frame, the function body gets an implicit label. */
  function EnterFunction(env: Env, m: Machine, f: nat, returnPc: nat): Outcome<Machine>
    requires ValidEnv(env)
    requires |m.stack| == MAX_STACK && m.sp <= MAX_STACK && |m.frames| == MAX_CALL_DEPTH
    requires |m.locals| == LOCAL_SLOTS && |m.labels| == MAX_LABELS
  {
    if m.frameDepth >= MAX_CALL_DEPTH then Err(CallStackOverflow)
    else if f < env.imports || f - env.imports >= |env.mod.funcTypes| then Err(InvalidFunction)
    else if env.mod.funcTypes[f - env.imports] >= |env.mod.types| then Err(TypeMismatch)
    else
      var ft := FuncTypeOf(env, f);
      var params, arity := |ft.params|, |ft.results|;
      var body := BodyOf(env.mod, f - env.imports);
      match ReadU32(env.code, body.offset)
      case Short => Err(UnexpectedEnd)
      case Done(groups, p) =>
        match ReadGroups(env.code, p, groups, 0)
        case Truncated => Err(UnexpectedEnd)
        case Decoded(declared, _, start) =>
          if params + declared > MAX_LOCALS then Err(InvalidLocal)
          else if NextLocalsBase(m) + (params + declared) > LOCAL_SLOTS then Err(InvalidLocal)
          else if m.sp < params then Err(StackUnderflow)
          else
            var m1 := OpenFrame(m, f, returnPc, params, declared, arity, start);
            PushLabel(m1, Label(body.offset + body.length, m1.sp, arity, false))
  }

  function GiveBackMemory(before: seq<Byte>, after: seq<Byte>): seq<Byte> {
    if |after| == |before| then after else before
  }

  function CallHost(env: Env, m: Machine, f: nat): Status
    requires ValidEnv(env) && Sound(m) && f < env.imports
  {
    var n := |env.mod.types[env.mod.imports[f].typeIdx].params|;
    if m.sp < n then Trapped(StackUnderflow)
    else
      var reply := env.host(m.world, f, m.stack[m.sp - n..m.sp], m.memory);
      var m1 := m.(sp := m.sp - n, world := reply.world, memory := GiveBackMemory(m.memory, reply.memory));
      match reply.result
      case HostErr(code) => Trapped(HostCallError(code))
      case HostOk(None) => Running(m1)
      case HostOk(Some(v)) =>
        match Push(m1, v)
        case Ok(m2) => Running(m2)
        case Err(k) => Trapped(k)
  }

  /** END of the body, or RETURN: back to the caller with at most one result. */
  function LeaveFunction(m: Machine): Status
    requires Sound(m)
  {
    var f := TopFrame(m);
    var result := if f.arity > 0 && m.sp > 0 then Some(m.stack[m.sp - 1]) else None;
    var m1 := m.(sp := f.height);
    match (if result.Some? then Push(m1, result.value) else Ok(m1))
    case Err(k) => Trapped(k)
    case Ok(m2) =>
      var m3 := m2.(labelDepth := f.labelBase, frameDepth := m.frameDepth - 1);
      if m3.frameDepth == 0 then Finished(result, m3) else Running(m3.(pc := f.returnPc))
  }

  // ---------- Branches ----------

  function DoBranch(m: Machine, depth: nat): Status
    requires Sound(m)
  {
    if depth >= m.labelDepth then Trapped(InvalidBranch)
    else
      var idx := m.labelDepth - 1 - depth;
      if idx < TopFrame(m).labelBase then Trapped(InvalidBranch)
      else
        var l := m.labels[idx];
        if l.isLoop then Running(m.(sp := l.height, pc := l.target))
        else
          var m1 := m.(sp := l.height, labelDepth := m.labelDepth - (depth + 1));
          match (if l.arity > 0 && m.sp > 0 then Push(m1, m.stack[m.sp - 1]) else Ok(m1))
          case Err(k) => Trapped(k)
          case Ok(m2) => Running(m2.(pc := l.target))
  }

  /** Close the innermost block with its result, if it has one, on top of the stack it
      was entered with. */
  function CloseBlock(m: Machine): Status
    requires Sound(m) && m.labelDepth > 0
  {
    var l := m.labels[m.labelDepth - 1];
    var m1 := m.(labelDepth := m.labelDepth - 1);
    if !l.isLoop && l.arity > 0 && m.sp > l.height then
      match Push(m1.(sp := l.height), m.stack[m.sp - 1])
      case Ok(m2) => Running(m2)
      case Err(k) => Trapped(k)
    else if m.sp > l.height + l.arity then Running(m1.(sp := l.height))
    else Running(m1)
  }

  function StepEnd(m: Machine): Status
    requires Sound(m)
  {
    if m.labelDepth == 0 then Finished(if m.sp > 0 then Some(m.stack[m.sp - 1]) else None, m)
    else if m.labelDepth - 1 == TopFrame(m).labelBase then LeaveFunction(m)
    else CloseBlock(m)
  }

  /** ELSE is reached only at the end of a taken first branch. */
  function StepElse(m: Machine): Status
    requires Sound(m)
  {
    if m.labelDepth == 0 then Running(m)
    else
      var l := m.labels[m.labelDepth - 1];
      var m1 := m.(sp := l.height, labelDepth := m.labelDepth - 1, pc := l.target);
      if l.arity > 0 && m.sp > l.height && l.height < MAX_STACK then
        Running(m1.(stack := m.stack[l.height := m.stack[m.sp - 1]], sp := l.height + 1))
      else Running(m1)
  }

  /** A block has one result, or none if its type is the byte 0x40. */
  function Arity(kind: Byte): (n: nat)
    ensures n <= 1 && (n == 0 <==> kind == 0x40)
  {
    if kind == VOID then 0 else 1
  }

  function WithLabel(m: Machine, l: Label): Status
    requires |m.labels| == MAX_LABELS
  {
    match PushLabel(m, l)
    case Ok(m1) => Running(m1)
    case Err(k) => Trapped(k)
  }

  function StepBlock(env: Env, m: Machine): Status
    requires Sound(m)
  {
    if m.pc >= |env.code| then Trapped(UnexpectedEnd)
    else
      match Skip(env.code, m.pc + 1, 1, false)
      case FoundEnd(end) =>
        WithLabel(m.(pc := m.pc + 1), Label(end, m.sp, Arity(env.code[m.pc]), false))
      case _ => Trapped(UnexpectedEnd)
  }

  function StepLoop(env: Env, m: Machine): Status
    requires Sound(m)
  {
    if m.pc >= |env.code| then Trapped(UnexpectedEnd)
    else WithLabel(m.(pc := m.pc + 1), Label(m.pc + 1, m.sp, 0, true))
  }

  function StepIf(env: Env, m: Machine): Status
    requires Sound(m)
  {
    if m.pc >= |env.code| then Trapped(UnexpectedEnd)
    else if m.sp == 0 then Trapped(StackUnderflow)
    else
      var m1 := m.(pc := m.pc + 1, sp := m.sp - 1);
      match Skip(env.code, m1.pc, 1, false)
      case FoundEnd(end) =>
        var l := Label(end, m1.sp, Arity(env.code[m.pc]), false);
        if m.stack[m.sp - 1] % U32_LIMIT != 0 then WithLabel(m1, l)
        else
          (match Skip(env.code, m1.pc, 1, true)
           case FoundElse(p) => WithLabel(m1.(pc := p), l)
           case FoundEnd(p) => Running(m1.(pc := p))
           case Lost => Trapped(UnexpectedEnd))
      case _ => Trapped(UnexpectedEnd)
  }

  function StepBr(env: Env, m: Machine): Status
    requires Sound(m)
  {
    match ReadU32(env.code, m.pc)
    case Short => Trapped(UnexpectedEnd)
    case Done(depth, next) => DoBranch(m.(pc := next), depth)
  }

  function StepBrIf(env: Env, m: Machine): Status
    requires Sound(m)
  {
    match ReadU32(env.code, m.pc)
    case Short => Trapped(UnexpectedEnd)
    case Done(depth, next) =>
      if m.sp == 0 then Trapped(StackUnderflow)
      else
        var m1 := m.(pc := next, sp := m.sp - 1);
        if m.stack[m.sp - 1] % U32_LIMIT != 0 then DoBranch(m1, depth) else Running(m1)
  }

  function StepCall(env: Env, m: Machine): Status
    requires ValidEnv(env) && Sound(m)
  {
    match ReadU32(env.code, m.pc)
    case Short => Trapped(UnexpectedEnd)
    case Done(f, next) =>
      if f < env.imports then CallHost(env, m.(pc := next), f)
      else match EnterFunction(env, m.(pc := next), f, next)
        case Ok(m1) => Running(m1)
        case Err(k) => Trapped(k)
  }

  // ---------- One instruction ----------

  function Execute(env: Env, m: Machine, op: Byte): Status
    requires ValidEnv(env) && Sound(m)
  {
    if op == UNREACHABLE then Trapped(TrapUnreachable)
    else if op == BLOCK then StepBlock(env, m)
    else if op == LOOP then StepLoop(env, m)
    else if op == IF then StepIf(env, m)
    else if op == ELSE then StepElse(m)
    else if op == END then StepEnd(m)
    else if op == BR then StepBr(env, m)
    else if op == BR_IF then StepBrIf(env, m)
    else if op == RETURN then LeaveFunction(m)
    else if op == CALL then StepCall(env, m)
    else if IsPlainOp(op) then StepPlain(env, m, op)
    else Trapped(UnknownOpcode(op))
  }

  function Step(env: Env, m: Machine): Status
    requires ValidEnv(env) && Sound(m)
  {
    if m.pc >= |env.code| then Trapped(UnexpectedEnd)
    else Execute(env, m.(pc := m.pc + 1), env.code[m.pc])
  }

  // ---------- Starting up ----------

  /** A new interpreter over the given memory. */
  function Fresh(memory: seq<Byte>, world: int): Machine {
    Machine(0, seq(MAX_STACK, _ => 0), 0, seq(MAX_CALL_DEPTH, _ => Frame(0, 0, 0, 0, 0, 0, 0)), 0,
            seq(LOCAL_SLOTS, _ => 0), seq(MAX_LABELS, _ => Label(0, 0, 0, false)), 0, memory, world)
  }

  function PushAll(m: Machine, args: seq<U64>): (r: Outcome<Machine>)
    requires |m.stack| == MAX_STACK && m.sp <= MAX_STACK
    ensures r.Ok? ==> |r.value.stack| == MAX_STACK && r.value.sp == m.sp + |args| <= MAX_STACK
    ensures r.Ok? ==> r.value == m.(stack := r.value.stack, sp := r.value.sp)
    decreases |args|
  {
    if args == [] then Ok(m)
    else match Push(m, args[0])
      case Ok(m1) => PushAll(m1, args[1..])
      case Err(k) => Err(k)
  }
}
