/** When the interpreter stops: what each trap means about the code and the machine, on any
    bytes whatever (interp.rs). */
module InterpreterTraps {
  import opened Words
  import opened Leb128
  import opened WasmCode
  import opened WasmFormat
  import opened Interpreter
  import opened Simulation
  import opened InterpreterEffects

  // ---------- Malformed code ----------

  /** The opcodes of control flow. */
  predicate IsControl(op: Byte) { op in {0x00, 0x02, 0x03, 0x04, 0x05, 0x0B, 0x0C, 0x0D, 0x0F, 0x10} }

  predicate IsKnown(op: Byte) { IsControl(op) || TakesNone(op) || TakesOne(op) || TakesTwo(op) }

  /** An opcode that is none of those stops the machine with its number; so does the end of
      the code. */
  lemma UnknownCodeTraps(env: Env, m: Machine)
    requires ValidEnv(env) && Sound(m)
    ensures m.pc >= |env.code| ==> Step(env, m) == Trapped(UnexpectedEnd)
    ensures m.pc < |env.code| && !IsKnown(env.code[m.pc]) ==> Step(env, m) == Trapped(UnknownOpcode(env.code[m.pc]))
    ensures m.pc < |env.code| && env.code[m.pc] == 0x00 ==> Step(env, m) == Trapped(TrapUnreachable)
  {
    hide Sound, ValidEnv, Step, IsPlainOp;
    if m.pc >= |env.code| {
      EndTraps(env, m);
    } else {
      StepIsExecute(env, m);
      PlainBytes(env.code[m.pc], 0, 0);
    }
  }

  lemma EndTraps(env: Env, m: Machine)
    requires ValidEnv(env) && Sound(m) && m.pc >= |env.code|
    ensures Step(env, m) == Trapped(UnexpectedEnd)
  {
    hide Sound, ValidEnv;
  }

  /** How many operands an opcode takes. */
  function Needs(op: Byte): nat {
    var one := op in {0x1A, 0x21, 0x22, 0x40, 0x45, 0x50, 0x67, 0x68, 0x79, 0x7A, 0xA7, 0xAC, 0xAD};
    if op == 0x1B then 3
    else if 0x36 <= op <= 0x39 || (TakesNone(op) && op >= 0x46 && !one) then 2
    else if one || (TakesTwo(op) && op < 0x36) then 1
    else 0
  }

  lemma NeedsItsOperands(op: Byte)
    requires IsPlainOp(op)
    ensures Operands(op) == Needs(op)
  {
    PlainBytes(op, 0, 0);
  }

  /** An instruction without control flow whose immediates are cut off, or whose operands are
      missing, stops the machine. */
  lemma IncompleteInstructionTraps(env: Env, m: Machine)
    requires ValidEnv(env) && Sound(m) && m.pc < |env.code| && IsPlainOp(env.code[m.pc])
    ensures var op := env.code[m.pc];
            var d := DecodeImmediates(ImmediatesOf(op), env.code, m.pc + 1);
            && (d.Truncated? ==> Step(env, m) == Trapped(UnexpectedEnd))
            && (d.Decoded? && m.sp < Needs(op) ==> Step(env, m) == Trapped(StackUnderflow))
  {
    hide Sound, ValidEnv, Step, IsPlainOp, DecodeImmediates, ImmediatesOf, Operands, Needs, Evaluate;
    StepIsExecute(env, m);
    PlainIsNotControl(env.code[m.pc]);
    NeedsItsOperands(env.code[m.pc]);
  }

  /** So does control flow. */
  lemma IncompleteControlTraps(env: Env, m: Machine)
    requires ValidEnv(env) && Sound(m) && m.pc < |env.code|
    ensures var op, r := env.code[m.pc], ReadU32(env.code, m.pc + 1);
            && (op in {0x0C, 0x0D, 0x10} && r.Short? ==> Step(env, m) == Trapped(UnexpectedEnd))
            && (op == 0x0D && r.Done? && m.sp == 0 ==> Step(env, m) == Trapped(StackUnderflow))
            && (op in {0x02, 0x03, 0x04} && m.pc + 1 >= |env.code| ==> Step(env, m) == Trapped(UnexpectedEnd))
            && (op == 0x04 && m.pc + 1 < |env.code| && m.sp == 0 ==> Step(env, m) == Trapped(StackUnderflow))
  {
    hide Windows, ValidEnv, Step, ReadU32, Skip, DoBranch, CallHost, EnterFunction, StepPlain;
    StepIsExecute(env, m);
  }

  /** A branch is refused exactly when the running function has no such label. */
  lemma BranchNeedsLabel(m: Machine, depth: nat)
    requires Sound(m)
    ensures DoBranch(m, depth) == Trapped(InvalidBranch) <==> depth + TopFrame(m).labelBase >= m.labelDepth
  {
    hide Windows;
  }

  /** A call needs a function of that number, and as many operands as it has parameters. */
  lemma CallNeedsFunction(env: Env, m: Machine, f: nat, returnPc: nat)
    requires ValidEnv(env) && Sound(m)
    ensures f >= env.imports + |env.mod.funcTypes| && m.frameDepth < MAX_CALL_DEPTH ==>
              EnterFunction(env, m, f, returnPc) == Err(InvalidFunction)
    ensures f < env.imports && m.sp < |env.mod.types[env.mod.imports[f].typeIdx].params| ==>
              CallHost(env, m, f) == Trapped(StackUnderflow)
  {
    hide Windows, ReadU32, ReadGroups;
  }

  // ---------- Fixed sizes ----------

  /** A push has no room: at the top of the stack, or where a label or a frame would cut it. */
  ghost predicate IsFull(m: Machine)
    requires Sound(m)
  {
    || m.sp == 256 || TopFrame(m).height == 256
    || exists i :: 0 <= i < m.labelDepth && m.labels[i].height == 256
  }

  /** The machine stops at a fixed size only when it has reached it: 256 operands, 32 labels,
      32 frames. (Arithmetic is a parameter, and may stop with whatever it likes.) */
  ghost predicate LimitIsReached(m: Machine, s: Status)
    requires Sound(m)
  {
    && (s == Trapped(StackOverflow) ==> IsFull(m))
    && (s == Trapped(LabelStackOverflow) ==> m.labelDepth == 32)
    && (s == Trapped(CallStackOverflow) ==> m.frameDepth == 32)
  }

  lemma BranchLimit(m: Machine, depth: nat)
    requires Sound(m)
    ensures LimitIsReached(m, DoBranch(m, depth))
  {
    hide Windows;
  }

  lemma LeaveLimit(m: Machine)
    requires Sound(m)
    ensures LimitIsReached(m, LeaveFunction(m))
  {
    hide Windows;
  }

  lemma EndLimit(m: Machine)
    requires Sound(m)
    ensures LimitIsReached(m, StepEnd(m)) && LimitIsReached(m, StepElse(m))
  {
    hide Windows, LeaveFunction;
    LeaveLimit(m);
  }

  lemma OpenLimit(env: Env, m: Machine)
    requires Sound(m)
    ensures LimitIsReached(m, StepBlock(env, m)) && LimitIsReached(m, StepLoop(env, m))
    ensures LimitIsReached(m, StepIf(env, m))
  {
    hide Windows, Skip, IsFull;
  }

  lemma BrLimit(env: Env, m: Machine)
    requires Sound(m)
    ensures LimitIsReached(m, StepBr(env, m)) && LimitIsReached(m, StepBrIf(env, m))
  {
    hide Windows, DoBranch, ReadU32;
    var r := ReadU32(env.code, m.pc);
    if r.Done? {
      var m1 := m.(pc := r.next);
      BranchLimit(m1, r.value);
      FullIgnores(m1, m);
      if m.sp > 0 {
        var m2 := m.(pc := r.next, sp := m.sp - 1);
        BranchLimit(m2, r.value);
        FullIgnores(m2, m);
      }
    }
  }

  lemma FullIgnores(m1: Machine, m: Machine)
    requires Sound(m1) && Sound(m) && m1.frames == m.frames && m1.frameDepth == m.frameDepth
    requires m1.labels == m.labels && m1.labelDepth == m.labelDepth && m1.sp <= m.sp
    ensures IsFull(m1) ==> IsFull(m)
  {
    hide Windows;
  }

  lemma CallLimit(env: Env, m: Machine)
    requires ValidEnv(env) && Sound(m)
    ensures LimitIsReached(m, StepCall(env, m))
  {
    hide Windows, ReadU32, ReadGroups, Accepted, IsFull, OpenFrame;
    var r := ReadU32(env.code, m.pc);
    if r.Done? {
      var m1 := m.(pc := r.next);
      if r.value < env.imports { HostLimit(env, m1, r.value); } else { EnterLimit(env, m1, r.value, r.next); }
      assert IsFull(m1) ==> IsFull(m) by { FullIgnores(m1, m); }
    }
  }

  lemma HostLimit(env: Env, m: Machine, f: nat)
    requires ValidEnv(env) && Sound(m) && f < env.imports
    ensures LimitIsReached(m, CallHost(env, m, f))
  {
    hide Windows, Accepted;
  }

  lemma EnterLimit(env: Env, m: Machine, f: nat, returnPc: nat)
    requires ValidEnv(env) && Sound(m)
    ensures EnterFunction(env, m, f, returnPc) != Err(StackOverflow)
    ensures EnterFunction(env, m, f, returnPc) == Err(LabelStackOverflow) ==> m.labelDepth == 32
    ensures EnterFunction(env, m, f, returnPc) == Err(CallStackOverflow) ==> m.frameDepth == 32
  {
    hide Windows, ReadU32, ReadGroups, Accepted;
  }

  /** Arithmetic, whose own traps the model does not choose. */
  predicate IsArithmetic(op: Byte) { IsUnary(op) || IsBinary(op) }

  lemma PlainLimit(env: Env, m: Machine, op: Byte)
    requires ValidEnv(env) && Sound(m) && IsPlainOp(op) && !IsArithmetic(op)
    ensures LimitIsReached(m, StepPlain(env, m, op))
  {
    hide Windows, DecodeImmediates, ImmediatesOf, Evaluate, IsPlainOp, Operands, IsFull, Accepted;
    var d := DecodeImmediates(ImmediatesOf(op), env.code, m.pc);
    var n := Operands(op);
    if d.Decoded? && m.sp >= n {
      WindowInRange(m);
      ConstInRange(env.code, m.pc, op);
      EffectTraps(env, op, d.first, d.second, m.stack[m.sp - n..m.sp], Window(m), m.memory);
      assert m.sp == 256 ==> IsFull(m) by { AtTop(m); }
    }
  }

  lemma AtTop(m: Machine)
    requires Sound(m)
    ensures m.sp == 256 ==> IsFull(m)
  {
    hide Windows;
  }

  lemma EffectTraps(env: Env, op: Byte, a: nat, b: nat, args: seq<U64>, locals: seq<U64>, memory: seq<Byte>)
    requires IsPlainOp(op) && |args| == Operands(op) && !IsArithmetic(op)
    requires op == I32_CONST || op == I64_CONST ==> a < U64_LIMIT
    ensures var r := Evaluate(env, op, a, b, args, locals, memory);
            r.Err? ==> r.trap == InvalidLocal || r.trap == OutOfBounds
  {
    hide FromBytes, ToBytes;
  }

  lemma LimitsAreReal(env: Env, m: Machine)
    requires ValidEnv(env) && Sound(m) && (m.pc < |env.code| ==> !IsArithmetic(env.code[m.pc]))
    ensures LimitIsReached(m, Step(env, m))
  {
    hide Sound, ValidEnv, Step, StepBlock, StepLoop, StepIf, StepElse, StepEnd, StepBr, StepBrIf, StepCall, StepPlain;
    hide LeaveFunction, IsPlainOp, IsArithmetic, LimitIsReached;
    if m.pc >= |env.code| {
      EndTraps(env, m);
      NoLimit(m, UnexpectedEnd);
    } else {
      var m1, op := m.(pc := m.pc + 1), env.code[m.pc];
      StepIsExecute(env, m);
      OpenLimit(env, m1);
      EndLimit(m1);
      BrLimit(env, m1);
      LeaveLimit(m1);
      CallLimit(env, m1);
      if IsPlainOp(op) { PlainLimit(env, m1, op); }
      NoLimit(m1, TrapUnreachable);
      NoLimit(m1, UnknownOpcode(op));
      LimitIgnoresPc(m1, m, Step(env, m));
    }
  }

  lemma NoLimit(m: Machine, k: TrapKind)
    requires Sound(m) && !k.StackOverflow? && !k.LabelStackOverflow? && !k.CallStackOverflow?
    ensures LimitIsReached(m, Trapped(k))
  {
    hide Sound;
  }

  lemma LimitIgnoresPc(m1: Machine, m: Machine, s: Status)
    requires Sound(m1) && Sound(m) && m1 == m.(pc := m1.pc)
    ensures LimitIsReached(m1, s) ==> LimitIsReached(m, s)
  {
    hide IsFull;
    FullIgnores(m1, m);
    hide Sound;
  }
}
