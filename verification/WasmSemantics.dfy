/** A structured big-step semantics of the control instructions of WebAssembly (sections
    4.4.5 and 4.4.7 of the WebAssembly Core Specification 1.0), independent of bytes, program
    counters, label stacks and the sizes of the stacks: every block works on an operand stack
    of its own. One fixed size is part of it: calling a function with more than MAX_LOCALS
    parameters and locals aborts with the trap that the code gives.
    Instructions without control flow share their definition, `Evaluate`, with the machine;
    there the semantics follows the code, not the standard (`i32.load8_s` fills 64 bits). */
module WasmSemantics {
  import opened Words
  import opened Leb128
  import opened WasmCode
  import opened WasmFormat
  import opened Interpreter

  datatype Decl = Decl(count: Leb, valtype: Byte)

  /** A function: `groups` spells the number of local declarations. */
  datatype Func = Func(params: nat, results: nat, groups: Leb, decls: seq<Decl>, body: seq<Instr>)

  function DeclaredLocals(decls: seq<Decl>): nat {
    if decls == [] then 0 else decls[0].count.value + DeclaredLocals(decls[1..])
  }

  function EncodeDecls(decls: seq<Decl>): seq<Byte> {
    if decls == [] then [] else decls[0].count.bytes + ([decls[0].valtype] + EncodeDecls(decls[1..]))
  }

  function EncodeFunc(f: Func): seq<Byte> {
    f.groups.bytes + (EncodeDecls(f.decls) + (EncodeSeq(f.body) + [END]))
  }

  /** Operands of the current block, locals of the current function, memory, host state. */
  datatype Store = Store(vs: seq<U64>, locals: seq<U64>, memory: seq<Byte>, world: int)

  /** How an instruction sequence ends. `Stuck` marks executions that no valid program
      has: a missing or left-over operand. */
  datatype Result =
    | Normal(st: Store)
    | Jump(depth: nat, st: Store)
    | Ret(st: Store)
    | Abort(kind: TrapKind)
    | Stuck
    | Timeout

  function Last(s: seq<U64>, n: nat): seq<U64>
    requires n <= |s|
  {
    s[|s| - n..]
  }

  function ButLast(s: seq<U64>, n: nat): seq<U64>
    requires n <= |s|
  {
    s[..|s| - n]
  }

  /** A block hands its results to the stack it was entered with. */
  function Leave(outer: seq<U64>, r: Result, arity: nat): Result {
    match r
    case Normal(st) => if |st.vs| == arity then Normal(st.(vs := outer + st.vs)) else Stuck
    case Jump(d, st) =>
      if d > 0 then Jump(d - 1, st)
      else if |st.vs| >= arity then Normal(st.(vs := outer + Last(st.vs, arity)))
      else Stuck
    case _ => r
  }

  /** A function hands its results to its caller, whose locals come back. A branch to the
      label of the body is a return. */
  function LeaveCall(outer: seq<U64>, locals: seq<U64>, r: Result, results: nat): Result {
    match r
    case Normal(st) => if |st.vs| == results then Normal(st.(vs := outer + st.vs, locals := locals)) else Stuck
    case Ret(st) => if |st.vs| >= results then Normal(st.(vs := outer + Last(st.vs, results), locals := locals))
        else Stuck
    case Jump(d, st) =>
      if d == 0 && |st.vs| >= results then Normal(st.(vs := outer + Last(st.vs, results), locals := locals)) else Stuck
    case _ => r
  }

  function ExecPlain(env: Env, op: Byte, imm: seq<Leb>, st: Store): Result
    requires IsPlainOp(op)
  {
    var n := Operands(op);
    var a, b := if |imm| > 0 then imm[0].value else 0, if |imm| > 1 then imm[1].value else 0;
    if |st.vs| < n || ((op == I32_CONST || op == I64_CONST) && a >= U64_LIMIT) then Stuck
    else match Evaluate(env, op, a, b, Last(st.vs, n), st.locals, st.memory)
      case Err(k) => Abort(k)
      case Ok(eff) => Normal(st.(vs := ButLast(st.vs, n) + eff.results, locals := eff.locals, memory := eff.memory))
  }

  function ExecHost(env: Env, f: nat, st: Store): Result
    requires ValidEnv(env) && f < env.imports
  {
    var ft := env.mod.types[env.mod.imports[f].typeIdx];
    var n := |ft.params|;
    if |st.vs| < n then Stuck
    else
      var reply := env.host(st.world, f, Last(st.vs, n), st.memory);
      var st1 := st.(vs := ButLast(st.vs, n), memory := GiveBackMemory(st.memory, reply.memory), world := reply.world);
      match reply.result
      case HostErr(code) => Abort(HostCallError(code))
      case HostOk(None) => Normal(st1)
      case HostOk(Some(v)) => Normal(st1.(vs := st1.vs + [v]))
  }

  function ExecCall(env: Env, prog: seq<Func>, fuel: nat, f: nat, st: Store): Result
    requires ValidEnv(env)
    decreases fuel, 0
  {
    if f < env.imports then ExecHost(env, f, st)
    else if f - env.imports >= |prog| then Abort(InvalidFunction)
    else
      var fn := prog[f - env.imports];
      var declared := DeclaredLocals(fn.decls);
      if fn.params + declared > MAX_LOCALS then Abort(InvalidLocal)
      else if |st.vs| < fn.params then Stuck
      else if fuel == 0 then Timeout
      else
        var st1 := Store([], Last(st.vs, fn.params) + seq(declared, _ => 0), st.memory, st.world);
        LeaveCall(ButLast(st.vs, fn.params), st.locals, ExecSeq(env, prog, fuel - 1, fn.body, st1), fn.results)
  }

  function Exec(env: Env, prog: seq<Func>, fuel: nat, i: Instr, st: Store): Result
    requires ValidEnv(env)
    decreases fuel, 1, i, 1
  {
    match i
    case Plain(op, imm) => if IsPlainOp(op) then ExecPlain(env, op, imm, st) else Stuck
    case Unreachable => Abort(TrapUnreachable)
    case Br(l) => Jump(l.value, st)
    case BrIf(l) =>
      if st.vs == [] then Stuck
      else
        var st1 := st.(vs := ButLast(st.vs, 1));
        if Last(st.vs, 1)[0] % U32_LIMIT != 0 then Jump(l.value, st1) else Normal(st1)
    case Return => Ret(st)
    case Call(f) => ExecCall(env, prog, fuel, f.value, st)
    case Block(kind, body) => Leave(st.vs, ExecSeq(env, prog, fuel, body, st.(vs := [])), Arity(kind))
    case Loop(kind, body) => ExecLoop(env, prog, fuel, kind, body, st)
    case If(kind, thn) =>
      if st.vs == [] then Stuck
      else if Last(st.vs, 1)[0] % U32_LIMIT != 0 then
        Leave(ButLast(st.vs, 1), ExecSeq(env, prog, fuel, thn, st.(vs := [])), Arity(kind))
      else Leave(ButLast(st.vs, 1), Normal(st.(vs := [])), Arity(kind))
    case IfElse(kind, thn, els) =>
      if st.vs == [] then Stuck
      else
        Leave(ButLast(st.vs, 1),
              if Last(st.vs, 1)[0] % U32_LIMIT != 0 then ExecSeq(env, prog, fuel, thn, st.(vs := []))
              else ExecSeq(env, prog, fuel, els, st.(vs := [])),
              Arity(kind))
  }

  /** A jump to depth 0 starts the loop again. */
  function ExecLoop(env: Env, prog: seq<Func>, fuel: nat, kind: Byte, body: seq<Instr>, st: Store): Result
    requires ValidEnv(env)
    decreases fuel, 1, body, 2
  {
    match ExecSeq(env, prog, fuel, body, st.(vs := []))
    case Jump(d, st1) =>
      if d > 0 then Jump(d - 1, st1)
      else if fuel == 0 then Timeout
      else ExecLoop(env, prog, fuel - 1, kind, body, st1.(vs := st.vs))
    case r => Leave(st.vs, r, Arity(kind))
  }

  function ExecSeq(env: Env, prog: seq<Func>, fuel: nat, ins: seq<Instr>, st: Store): Result
    requires ValidEnv(env)
    decreases fuel, 1, ins, 0
  {
    if ins == [] then Normal(st)
    else match Exec(env, prog, fuel, ins[0], st)
      case Normal(st1) => ExecSeq(env, prog, fuel, ins[1..], st1)
      case r => r
  }

  // ---------- Programs the interpreter follows ----------

  /** What a label stands for: a block or if, a loop, or the function body. */
  datatype Kind = Forward | Back | Whole

  /** A branch goes to an enclosing block or if, or to the loop directly around it.
      Branches to the function body, and to a loop from inside a nested block, are the
      ones that the interpreter gets wrong. */
  predicate CanTarget(ctx: seq<Kind>, d: nat) {
    d < |ctx| && (ctx[d].Forward? || (ctx[d].Back? && d == 0))
  }

  predicate Supported(i: Instr, ctx: seq<Kind>)
    decreases i, 1
  {
    match i
    case Br(l) => CanTarget(ctx, l.value)
    case BrIf(l) => CanTarget(ctx, l.value)
    case Block(_, body) => SupportedSeq(body, [Forward] + ctx)
    case Loop(kind, body) => kind == VOID && SupportedSeq(body, [Back] + ctx)
    case If(_, thn) => SupportedSeq(thn, [Forward] + ctx)
    case IfElse(_, thn, els) => SupportedSeq(thn, [Forward] + ctx) && SupportedSeq(els, [Forward] + ctx)
    case _ => true
  }

  predicate SupportedSeq(ins: seq<Instr>, ctx: seq<Kind>)
    decreases ins, 0
  {
    ins == [] || (Supported(ins[0], ctx) && SupportedSeq(ins[1..], ctx))
  }

  ghost predicate WellFormedFunc(f: Func) {
    && f.results <= 1
    && SpellsU32(f.groups) && f.groups.value == |f.decls|
    && (forall i :: 0 <= i < |f.decls| ==> SpellsU32(f.decls[i].count))
    && WellFormedSeq(f.body) && SupportedSeq(f.body, [Whole])
  }

  /** The module and its bytes hold exactly this program. */
  ghost predicate Holds(env: Env, prog: seq<Func>) {
    && ValidEnv(env)
    && |prog| == |env.mod.funcTypes|
    && forall i {:trigger prog[i]} :: 0 <= i < |prog| ==>
         && WellFormedFunc(prog[i])
         && |FuncTypeOf(env, env.imports + i).params| == prog[i].params
         && |FuncTypeOf(env, env.imports + i).results| == prog[i].results
         && At(env.code, BodyOf(env.mod, i).offset, EncodeFunc(prog[i]))
  }
}
