/** The interpreter object of interp.rs, with its fixed arrays updated in place. Every
    method does what the step function of module `Interpreter` says, and the main loop is
    that function iterated. */
module InterpreterMachine {
  import opened Words
  import opened Leb128
  import opened LebReaders
  import opened WasmCode
  import opened WasmFormat
  import opened Interpreter
  import opened InterpreterSafety
  import InterpreterPrograms

  /** How one instruction ends. */
  datatype Verdict = Continue | Finish(result: Option<U64>) | Trap(kind: TrapKind)

  /** The verdict and the machine are those of the step function; after a trap the machine
      does not matter. */
  ghost predicate Agrees(s: Status, v: Verdict, m: Machine) {
    match s
    case Running(m1) => v == Continue && m == m1
    case Finished(r, m1) => v == Finish(r) && m == m1
    case Trapped(k) => v == Trap(k)
  }

  lemma TrapAgrees(k: TrapKind, m: Machine)
    ensures Agrees(Trapped(k), Trap(k), m)
  {
  }

  // ---------- Scanners ----------

  /** The immediates of one instruction. */
  method ReadImmediates(kind: Immediates, code: seq<Byte>, pc: nat) returns (d: Decoded)
    ensures d == DecodeImmediates(kind, code, pc)
  {
    match kind
    case NoImmediate => return Decoded(0, 0, pc);
    case OneByte =>
      if pc >= |code| { return Truncated; }
      return Decoded(code[pc], 0, pc + 1);
    case OneU32 =>
      var r := DecodeU32(code, pc);
      return if r.Done? then Decoded(r.value, 0, r.next) else Truncated;
    case OneI32 =>
      var r := DecodeSigned(code, pc, U32_LIMIT);
      return if r.Done? then Decoded(r.value, 0, r.next) else Truncated;
    case OneI64 =>
      var r := DecodeSigned(code, pc, U64_LIMIT);
      return if r.Done? then Decoded(r.value, 0, r.next) else Truncated;
    case MemArg =>
      var align := DecodeU32(code, pc);
      if align.Short? { return Truncated; }
      var offset := DecodeU32(code, align.next);
      return if offset.Done? then Decoded(align.value, offset.value, offset.next) else Truncated;
  }

  /** `skip_to_end`, and with `stopAtElse` `skip_to_else_or_end`. */
  method SkipBlock(code: seq<Byte>, pc: nat, stopAtElse: bool) returns (f: Found)
    ensures f == Skip(code, pc, 1, stopAtElse)
  {
    hide DecodeImmediates, ImmediatesOf, IsOpener;
    var depth, p := 1, pc;
    while true
      invariant depth >= 1 && p >= pc && Skip(code, pc, 1, stopAtElse) == Skip(code, p, depth, stopAtElse)
      decreases |code| - p
    {
      if p >= |code| { return Lost; }
      var op := code[p];
      if op == END {
        depth, p := depth - 1, p + 1;
        if depth == 0 { return FoundEnd(p); }
      } else if op == ELSE && stopAtElse && depth == 1 {
        return FoundElse(p + 1);
      } else {
        var d := ReadImmediates(ImmediatesOf(op), code, p + 1);
        if d.Truncated? { return Lost; }
        p := d.next;
        if IsOpener(op) { depth := depth + 1; }
      }
    }
  }

  class Runner {
    const env: Env
    var pc: nat
    const stack: array<U64>
    var sp: nat
    const frames: array<Frame>
    var frameDepth: nat
    const locals: array<U64>
    const labels: array<Label>
    var labelDepth: nat
    const memory: array<Byte>
    /** The state of the host functions. */
    var world: int

    ghost function View(): Machine
      reads this, stack, frames, locals, labels, memory
    {
      Machine(pc, stack[..], sp, frames[..], frameDepth, locals[..], labels[..], labelDepth, memory[..], world)
    }

    /** The arrays have their sizes and are different objects. */
    ghost predicate Shape()
      reads this
    {
      && ValidEnv(env) && stack != locals
      && stack.Length == MAX_STACK && frames.Length == MAX_CALL_DEPTH
      && locals.Length == LOCAL_SLOTS && labels.Length == MAX_LABELS
    }

    ghost predicate Valid()
      reads this, stack, frames, locals, labels, memory
    {
      Shape() && Sound(View())
    }

    constructor (e: Env, mem: array<Byte>, w: int)
      requires ValidEnv(e)
      ensures Shape() && env == e && memory == mem && View() == Fresh(mem[..], w)
      ensures fresh(stack) && fresh(frames) && fresh(locals) && fresh(labels)
    {
      env, memory, world := e, mem, w;
      pc, sp, frameDepth, labelDepth := 0, 0, 0, 0;
      stack := new U64[MAX_STACK](_ => 0);
      frames := new Frame[MAX_CALL_DEPTH](_ => Frame(0, 0, 0, 0, 0, 0, 0));
      locals := new U64[LOCAL_SLOTS](_ => 0);
      labels := new Label[MAX_LABELS](_ => Label(0, 0, 0, false));
      new;
      assert stack[..] == seq(MAX_STACK, _ => 0);
      assert frames[..] == seq(MAX_CALL_DEPTH, _ => Frame(0, 0, 0, 0, 0, 0, 0));
      assert locals[..] == seq(LOCAL_SLOTS, _ => 0);
      assert labels[..] == seq(MAX_LABELS, _ => Label(0, 0, 0, false));
    }

    // ---------- Stacks ----------

    method PushValue(v: U64) returns (r: Verdict)
      requires Shape() && sp <= MAX_STACK
      modifies this`sp, stack
      ensures match Push(old(View()), v)
              case Ok(m) => r == Continue && View() == m
              case Err(k) => r == Trap(k) && View() == old(View())
    {
      if sp >= MAX_STACK { return Trap(StackOverflow); }
      stack[sp] := v;
      sp := sp + 1;
      r := Continue;
    }

    method AddLabel(l: Label) returns (r: Verdict)
      requires Shape() && labelDepth <= MAX_LABELS
      modifies this`labelDepth, labels
      ensures Agrees(WithLabel(old(View()), l), r, View())
      ensures r.Trap? ==> View() == old(View())
    {
      if labelDepth >= MAX_LABELS { return Trap(LabelStackOverflow); }
      labels[labelDepth] := l;
      labelDepth := labelDepth + 1;
      r := Continue;
    }

    // ---------- Branches ----------

    method Branch(depth: nat) returns (r: Verdict)
      requires Valid()
      modifies this`pc, this`sp, this`labelDepth, stack
      ensures Agrees(DoBranch(old(View()), depth), r, View())
      ensures r.Trap? ==> Steady(old(View()), View())
    {
      hide Windows;
      if depth >= labelDepth { return Trap(InvalidBranch); }
      var idx := labelDepth - 1 - depth;
      if idx < frames[frameDepth - 1].labelBase { return Trap(InvalidBranch); }
      var l := labels[idx];
      if l.isLoop {
        sp, pc := l.height, l.target;
        return Continue;
      }
      var keep := l.arity > 0 && sp > 0;
      var v := if keep then stack[sp - 1] else 0;
      sp := l.height;
      labelDepth := labelDepth - (depth + 1);
      r := Continue;
      if keep { r := PushValue(v); }
      pc := l.target;
    }

    method LeaveFrame() returns (r: Verdict)
      requires Valid()
      modifies this`pc, this`sp, this`labelDepth, this`frameDepth, stack
      ensures Agrees(LeaveFunction(old(View())), r, View())
      ensures r.Trap? ==> Steady(old(View()), View())
    {
      hide Windows;
      var f := frames[frameDepth - 1];
      var result := if f.arity > 0 && sp > 0 then Some(stack[sp - 1]) else None;
      sp := f.height;
      if result.Some? {
        r := PushValue(result.value);
        if r.Trap? { return; }
      }
      labelDepth := f.labelBase;
      frameDepth := frameDepth - 1;
      if frameDepth == 0 { return Finish(result); }
      pc := f.returnPc;
      r := Continue;
    }

    method DoEnd() returns (r: Verdict)
      requires Valid()
      modifies this`pc, this`sp, this`labelDepth, this`frameDepth, stack
      ensures Agrees(StepEnd(old(View())), r, View())
      ensures r.Trap? ==> Steady(old(View()), View())
    {
      hide Windows;
      if labelDepth == 0 { return Finish(if sp > 0 then Some(stack[sp - 1]) else None); }
      if labelDepth - 1 == frames[frameDepth - 1].labelBase {
        r := LeaveFrame();
        return;
      }
      var l := labels[labelDepth - 1];
      r := Continue;
      if !l.isLoop && l.arity > 0 && sp > l.height {
        var v := stack[sp - 1];
        sp := l.height;
        r := PushValue(v);
      } else if sp > l.height + l.arity {
        sp := l.height;
      }
      labelDepth := labelDepth - 1;
    }

    method DoElse() returns (r: Verdict)
      requires Valid()
      modifies this`pc, this`sp, this`labelDepth, stack
      ensures Agrees(StepElse(old(View())), r, View())
      ensures r.Trap? ==> Steady(old(View()), View())
    {
      hide Windows;
      r := Continue;
      if labelDepth == 0 { return; }
      var l := labels[labelDepth - 1];
      var keep := l.arity > 0 && sp > l.height;
      var v := if keep then stack[sp - 1] else 0;
      sp := l.height;
      if keep { var ignored := PushValue(v); }
      labelDepth := labelDepth - 1;
      pc := l.target;
    }

    // ---------- Blocks ----------

    method DoBlock() returns (r: Verdict)
      requires Valid()
      modifies this`pc, this`labelDepth, labels
      ensures Agrees(StepBlock(env, old(View())), r, View())
      ensures r.Trap? ==> Steady(old(View()), View())
    {
      hide Windows, Skip;
      if pc >= |env.code| { return Trap(UnexpectedEnd); }
      var kind := env.code[pc];
      pc := pc + 1;
      var f := SkipBlock(env.code, pc, false);
      if !f.FoundEnd? { return Trap(UnexpectedEnd); }
      r := AddLabel(Label(f.next, sp, Arity(kind), false));
    }

    method DoLoop() returns (r: Verdict)
      requires Valid()
      modifies this`pc, this`labelDepth, labels
      ensures Agrees(StepLoop(env, old(View())), r, View())
      ensures r.Trap? ==> Steady(old(View()), View())
    {
      hide Windows;
      if pc >= |env.code| { return Trap(UnexpectedEnd); }
      pc := pc + 1;
      r := AddLabel(Label(pc, sp, 0, true));
    }

    method DoIf() returns (r: Verdict)
      requires Valid()
      modifies this`pc, this`sp, this`labelDepth, labels
      ensures Agrees(StepIf(env, old(View())), r, View())
      ensures r.Trap? ==> Steady(old(View()), View())
    {
      hide Windows, Skip;
      if pc >= |env.code| { return Trap(UnexpectedEnd); }
      var kind := env.code[pc];
      pc := pc + 1;
      if sp == 0 { return Trap(StackUnderflow); }
      sp := sp - 1;
      var taken := stack[sp] % U32_LIMIT != 0;
      var f := SkipBlock(env.code, pc, false);
      if !f.FoundEnd? { return Trap(UnexpectedEnd); }
      if !taken {
        var g := SkipBlock(env.code, pc, true);
        if g.Lost? { return Trap(UnexpectedEnd); }
        pc := g.next;
        if g.FoundEnd? { return Continue; }
      }
      r := AddLabel(Label(f.next, sp, Arity(kind), false));
    }

    method DoBr(conditional: bool) returns (r: Verdict)
      requires Valid()
      modifies this`pc, this`sp, this`labelDepth, stack
      ensures Agrees(if conditional then StepBrIf(env, old(View())) else StepBr(env, old(View())), r, View())
      ensures r.Trap? ==> Steady(old(View()), View())
    {
      hide Windows, ReadUnsigned, DoBranch;
      var d := DecodeU32(env.code, pc);
      if d.Short? { return Trap(UnexpectedEnd); }
      pc := d.next;
      if conditional {
        if sp == 0 { return Trap(StackUnderflow); }
        sp := sp - 1;
        if stack[sp] % U32_LIMIT == 0 { return Continue; }
      }
      r := Branch(d.value);
    }

    // ---------- Calls ----------

    /** Arguments into a fresh window of the locals, then zeros. */
    method FillLocals(base: nat, height: nat, params: nat, declared: nat)
      requires Shape() && height + params <= MAX_STACK && base + params + declared <= LOCAL_SLOTS
      modifies locals
      ensures locals[..] == old(locals[..])[..base] + (stack[height..height + params] + seq(declared, _ => 0))
                            + old(locals[..])[base + (params + declared)..]
    {
      CopyArgs(base, height, params);
      ZeroLocals(base + params, declared);
      Spliced(old(locals[..]), locals[..], base, stack[height..height + params], declared);
    }

    method CopyArgs(base: nat, height: nat, n: nat)
      requires Shape() && height + n <= MAX_STACK && base + n <= LOCAL_SLOTS
      modifies locals
      ensures locals[..base] == old(locals[..base]) && locals[base + n..] == old(locals[base + n..])
      ensures locals[base..base + n] == stack[height..height + n]
    {
      for i := 0 to n
        invariant locals[..base] == old(locals[..base]) && locals[base + i..] == old(locals[base + i..])
        invariant locals[base..base + i] == stack[height..height + i]
      {
        locals[base + i] := stack[height + i];
        assert locals[base..base + i + 1] == locals[base..base + i] + [stack[height + i]];
      }
    }

    method ZeroLocals(from: nat, n: nat)
      requires Shape() && from + n <= LOCAL_SLOTS
      modifies locals
      ensures locals[..from] == old(locals[..from]) && locals[from + n..] == old(locals[from + n..])
      ensures locals[from..from + n] == seq(n, _ => 0)
    {
      for i := 0 to n
        invariant locals[..from] == old(locals[..from]) && locals[from + i..] == old(locals[from + i..])
        invariant locals[from..from + i] == seq(i, _ => 0)
      {
        locals[from + i] := 0;
        assert locals[from..from + i + 1] == locals[from..from + i] + [0];
        assert seq(i + 1, _ => 0) == seq(i, _ => 0) + [0];
      }
    }

    method PushFrame(f: nat, returnPc: nat, base: nat, params: nat, declared: nat, arity: nat)
      requires Shape() && params <= sp <= MAX_STACK && frameDepth < MAX_CALL_DEPTH
      requires base == NextLocalsBase(View()) && base + params + declared <= LOCAL_SLOTS
      modifies this`sp, this`frameDepth, locals, frames
      ensures View() == OpenFrame(old(View()), f, returnPc, params, declared, arity, pc)
    {
      hide Accepted;
      FillLocals(base, sp - params, params, declared);
      sp := sp - params;
      frames[frameDepth] := Frame(returnPc, f, base, params + declared, sp, arity, labelDepth);
      frameDepth := frameDepth + 1;
    }

    /** `enter_function`, on the fresh interpreter and inside a run. */
    method EnterFrame(f: nat, returnPc: nat) returns (r: Verdict)
      requires Shape() && sp <= MAX_STACK && frameDepth <= MAX_CALL_DEPTH && labelDepth <= MAX_LABELS
      modifies this`pc, this`sp, this`frameDepth, this`labelDepth, locals, frames, labels
      ensures match EnterFunction(env, old(View()), f, returnPc)
              case Ok(m) => r == Continue && View() == m
              case Err(k) => r == Trap(k)
      ensures r.Trap? && old(Callable(View())) ==> Callable(View())
    {
      hide Accepted, ReadUnsigned, ReadGroups, OpenFrame, FuncTypeOf, BodyOf, Callable;
      CallableIgnoresPc(View());
      if frameDepth >= MAX_CALL_DEPTH { return Trap(CallStackOverflow); }
      if f < env.imports || f - env.imports >= |env.mod.funcTypes| { return Trap(InvalidFunction); }
      if env.mod.funcTypes[f - env.imports] >= |env.mod.types| { return Trap(TypeMismatch); }
      var ft := FuncTypeOf(env, f);
      var params, arity := |ft.params|, |ft.results|;
      var body := BodyOf(env.mod, f - env.imports);
      pc := body.offset;
      var groups := DecodeU32(env.code, pc);
      if groups.Short? { return Trap(UnexpectedEnd); }
      var d := SkipGroups(env.code, groups.next, groups.value);
      if d.Truncated? { return Trap(UnexpectedEnd); }
      pc := d.next;
      var total := params + d.first;
      if total > MAX_LOCALS { return Trap(InvalidLocal); }
      var base := if frameDepth > 0 then frames[frameDepth - 1].localsBase + frames[frameDepth - 1].localCount else 0;
      if base + total > LOCAL_SLOTS { return Trap(InvalidLocal); }
      if sp < params { return Trap(StackUnderflow); }
      FrameFacts(old(View()), pc, f, returnPc, params, d.first, arity, pc);
      assert View() == old(View()).(pc := pc);
      PushFrame(f, returnPc, base, params, d.first, arity);
      OpenFrameIsCallable(old(View()), f, returnPc, params, d.first, arity, pc);
      r := AddLabel(Label(body.offset + body.length, sp, arity, false));
    }

    /** The host may change the memory it is given, but not its length. */
    method CallImport(f: nat) returns (r: Verdict)
      requires Valid() && f < env.imports
      modifies this`sp, this`world, stack, memory
      ensures Agrees(CallHost(env, old(View()), f), r, View())
      ensures r.Trap? ==> Steady(old(View()), View())
    {
      hide Windows;
      var n := |env.mod.types[env.mod.imports[f].typeIdx].params|;
      if sp < n { return Trap(StackUnderflow); }
      var reply := env.host(world, f, stack[sp - n..sp], memory[..]);
      sp := sp - n;
      world := reply.world;
      if |reply.memory| == memory.Length { Overwrite(memory, reply.memory); }
      match reply.result
      case HostErr(code) => return Trap(HostCallError(code));
      case HostOk(None) => return Continue;
      case HostOk(Some(v)) => r := PushValue(v);
    }

    method DoCall() returns (r: Verdict)
      requires Valid()
      modifies this, stack, locals, frames, labels, memory
      ensures Agrees(StepCall(env, old(View())), r, View())
      ensures r.Trap? ==> Callable(View())
    {
      hide Windows, ReadUnsigned, CallHost, EnterFunction;
      var target := DecodeU32(env.code, pc);
      if target.Short? { return Trap(UnexpectedEnd); }
      pc := target.next;
      if target.value < env.imports {
        r := CallImport(target.value);
      } else {
        r := EnterFrame(target.value, pc);
      }
    }

    // ---------- Instructions without control flow ----------

    /** The writes of an instruction to its locals and to the memory, in place. */
    method WriteBack(op: Byte, a: nat, b: nat, args: seq<U64>, base: nat, count: nat)
      requires Shape() && base + count <= LOCAL_SLOTS && IsPlainOp(op) && |args| == Operands(op)
      requires op == I32_CONST || op == I64_CONST ==> a < U64_LIMIT
      requires Evaluate(env, op, a, b, args, locals[base..base + count], memory[..]).Ok?
      modifies locals, memory
      ensures var eff := old(Evaluate(env, op, a, b, args, locals[base..base + count], memory[..]).value);
              && |eff.locals| == count
              && locals[..] == old(locals[..])[..base] + eff.locals + old(locals[..])[base + count..]
              && memory[..] == eff.memory
    {
      hide Evaluate, IsPlainOp, Operands, AccessWidth, IsStore;
      Writes(env, op, a, b, args, locals[base..base + count], memory[..]);
      if op == LOCAL_SET || op == LOCAL_TEE {
        locals[base + a] := args[0];
      } else if IsStore(op) {
        StoreBytes(memory, args[0] % U32_LIMIT + b, ToBytes(args[1], AccessWidth(op)));
      }
    }

    method DoPlain(op: Byte) returns (r: Verdict)
      requires Valid() && IsPlainOp(op)
      modifies this`pc, this`sp, stack, locals, memory
      ensures Agrees(StepPlain(env, old(View()), op), r, View())
      ensures r.Trap? ==> Steady(old(View()), View())
    {
      hide Windows, DecodeImmediates, Evaluate, IsPlainOp, Operands, CarryOut, ImmediatesOf, Agrees;
      var d := ReadImmediates(ImmediatesOf(op), env.code, pc);
      if d.Truncated? { TrapAgrees(UnexpectedEnd, View()); return Trap(UnexpectedEnd); }
      var n := Operands(op);
      if sp < n { TrapAgrees(StackUnderflow, View()); return Trap(StackUnderflow); }
      var args, base, count := stack[sp - n..sp], frames[frameDepth - 1].localsBase, frames[frameDepth - 1].localCount;
      WindowInRange(old(View()));
      ConstInRange(env.code, old(pc), op);
      var e := Evaluate(env, op, d.first, d.second, args, locals[base..base + count], memory[..]);
      if e.Err? { TrapAgrees(e.trap, View()); return Trap(e.trap); }
      r := Apply(op, d, args, base, count);
    }

    /** An evaluated instruction: its writes, then its result in place of its operands. */
    method Apply(op: Byte, d: Decoded, args: seq<U64>, base: nat, count: nat) returns (r: Verdict)
      requires Valid() && IsPlainOp(op) && |args| == Operands(op) <= sp && d.Decoded?
      requires op == I32_CONST || op == I64_CONST ==> d.first < U64_LIMIT
      requires base == TopFrame(View()).localsBase && count == TopFrame(View()).localCount
               && base + count <= LOCAL_SLOTS
      requires Evaluate(env, op, d.first, d.second, args, locals[base..base + count], memory[..]).Ok?
      modifies this`pc, this`sp, stack, locals, memory
      ensures var eff := old(Evaluate(env, op, d.first, d.second, args, locals[base..base + count], memory[..]).value);
              |eff.locals| == count && Agrees(CarryOut(old(View()), |args|, eff, d.next), r, View())
      ensures r.Trap? ==> Steady(old(View()), View())
    {
      hide Windows, Evaluate, IsPlainOp, Operands;
      var eff := Evaluate(env, op, d.first, d.second, args, locals[base..base + count], memory[..]).value;
      WriteBack(op, d.first, d.second, args, base, count);
      pc, sp := d.next, sp - |args|;
      r := Continue;
      if eff.results != [] { r := PushValue(eff.results[0]); }
    }

    // ---------- The main loop ----------

    /** One instruction. */
    method Execute() returns (r: Verdict)
      requires Valid()
      modifies this, stack, locals, frames, labels, memory
      ensures Agrees(Step(env, old(View())), r, View())
      ensures Shape() && Callable(View()) && (r == Continue ==> Valid())
    {
      hide Windows, StepBlock, StepLoop, StepIf, StepElse, StepEnd, StepBr, StepBrIf, LeaveFunction, StepCall;
      hide StepPlain, IsPlainOp, Callable;
      StepKeepsSound(env, View());
      SoundIsCallable(View());
      if pc >= |env.code| { return Trap(UnexpectedEnd); }
      var op := env.code[pc];
      pc := pc + 1;
      if op == UNREACHABLE { r := Trap(TrapUnreachable); }
      else if op == BLOCK { r := DoBlock(); }
      else if op == LOOP { r := DoLoop(); }
      else if op == IF { r := DoIf(); }
      else if op == ELSE { r := DoElse(); }
      else if op == END { r := DoEnd(); }
      else if op == BR { r := DoBr(false); }
      else if op == BR_IF { r := DoBr(true); }
      else if op == RETURN { r := LeaveFrame(); }
      else if op == CALL { r := DoCall(); }
      else if IsPlainOp(op) { r := DoPlain(op); }
      else { r := Trap(UnknownOpcode(op)); }
      StillCallable(env, old(View()), r, View());
    }

    /** `run`, for at most `fuel` instructions. */
    method Run(fuel: nat) returns (r: Verdict)
      requires Valid()
      modifies this, stack, locals, frames, labels, memory
      ensures Agrees(RunN(env, old(View()), fuel), r, View())
      ensures Callable(View())
    {
      hide Step, Sound, Callable;
      ghost var start := View();
      SoundIsCallable(start);
      for i := 0 to fuel
        invariant Valid() && Callable(View()) && RunN(env, start, fuel) == RunN(env, View(), fuel - i)
      {
        r := Execute();
        if r != Continue { return; }
      }
      r := Continue;
    }

    /** `call_function`, on a new interpreter or on one that has been called before, however
        that call ended. On a new one it is the start of the program theorem. */
    method CallFunction(f: nat, args: seq<U64>, fuel: nat) returns (r: Verdict)
      requires Shape() && Callable(View())
      modifies this, stack, locals, frames, labels, memory
      ensures match InterpreterPrograms.StartFrom(env, old(View()), f, args)
              case Err(k) => r == Trap(k)
              case Ok(m) => Sound(m) && Agrees(RunN(env, m, fuel), r, View())
      ensures Callable(View())
    {
      hide EnterFunction, RunN, Sound, Callable;
      ghost var m0 := View();
      Sizes(m0);
      for i := 0 to |args|
        invariant Shape() && sp <= MAX_STACK && frameDepth <= MAX_CALL_DEPTH && labelDepth <= MAX_LABELS
        invariant View() == m0.(stack := stack[..], sp := sp)
        invariant PushAll(m0, args) == PushAll(View(), args[i..])
      {
        r := PushValue(args[i]);
        if r.Trap? { CallableVaries(m0, View()); return; }
        assert args[i..][1..] == args[i + 1..];
      }
      ghost var m1 := View();
      CallableVaries(m0, m1);
      r := EnterFrame(f, 0);
      if r.Trap? { return; }
      StartIsSound(env, m0, m1, f);
      r := Run(fuel);
    }
  }

  /** What a trap inside an instruction leaves: the frames and labels as they were, the
      stacks within their sizes. */
  ghost predicate Steady(m: Machine, m1: Machine) {
    && m1.frames == m.frames && m1.frameDepth == m.frameDepth && m1.labels == m.labels
    && m1.sp <= MAX_STACK == |m1.stack| && m1.labelDepth <= MAX_LABELS && |m1.locals| == |m.locals|
  }

  lemma CallableVaries(m: Machine, m1: Machine)
    requires Callable(m) && Steady(m, m1)
    ensures Callable(m1)
  {
    hide Windows;
  }

  lemma SoundIsCallable(m: Machine)
    requires Sound(m)
    ensures Callable(m)
  {
    hide Windows;
  }

  lemma StillCallable(env: Env, m: Machine, r: Verdict, m1: Machine)
    requires ValidEnv(env) && Sound(m) && Agrees(Step(env, m), r, m1)
    requires r.Trap? ==> Steady(m, m1) || Callable(m1)
    ensures Callable(m1)
  {
    hide Step, Sound, Callable;
    SoundIsCallable(m);
    if r.Trap? && Steady(m, m1) { CallableVaries(m, m1); }
    else if r.Finish? { FinishedIsCallable(env, m); }
    else if r.Continue? {
      StepKeepsSound(env, m);
      SoundIsCallable(m1);
    }
  }

  lemma CallableIgnoresPc(m: Machine)
    ensures forall pc :: Callable(m) ==> Callable(m.(pc := pc))
  {
    hide Windows;
  }

  lemma OpenFrameIsCallable(m: Machine, f: nat, next: nat, params: nat, declared: nat, arity: nat, start: nat)
    requires m.sp <= |m.stack| && params <= m.sp && m.frameDepth < |m.frames| && params + declared <= MAX_LOCALS
    requires NextLocalsBase(m) + params + declared <= |m.locals|
    ensures Callable(m) ==> Callable(OpenFrame(m, f, next, params, declared, arity, start))
  {
    if Callable(m) {
      var m1, d := OpenFrame(m, f, next, params, declared, arity, start), m.frameDepth;
      assert forall i :: 0 <= i < d ==> m1.frames[i] == m.frames[i];
      if d > 0 {
        assert m.frames[d - 1].localsBase <= (d - 1) * MAX_LOCALS && m.frames[d - 1].localCount <= MAX_LOCALS;
      }
      assert forall i :: 0 < i < d && Adjoins(m.frames, i) ==> Adjoins(m1.frames, i);
      assert d > 0 ==> Adjoins(m1.frames, d);
      assert Windows(m1.frames, d + 1);
    }
  }

  lemma Sizes(m: Machine)
    requires Callable(m)
    ensures m.sp <= MAX_STACK && m.frameDepth <= MAX_CALL_DEPTH && m.labelDepth <= MAX_LABELS
  {
  }

  lemma StartIsSound(env: Env, m0: Machine, m: Machine, f: nat)
    requires ValidEnv(env) && Callable(m0) && m.sp <= MAX_STACK && |m.stack| == MAX_STACK
    requires m == m0.(stack := m.stack, sp := m.sp)
    ensures EnterFunction(env, m, f, 0).Ok? ==> Sound(EnterFunction(env, m, f, 0).value)
  {
    hide EnterFunction, Windows;
    EnterKeepsSound(env, m, f, 0);
  }

  lemma Spliced(was: seq<U64>, now: seq<U64>, base: nat, args: seq<U64>, declared: nat)
    requires |was| == |now| && base + |args| + declared <= |was|
    requires now[..base] == was[..base] && now[base..base + |args|] == args
    requires now[base + |args|..base + |args| + declared] == seq(declared, _ => 0)
    requires now[base + |args| + declared..] == was[base + |args| + declared..]
    ensures now == was[..base] + (args + seq(declared, _ => 0)) + was[base + (|args| + declared)..]
  {
    var p, q := base + |args|, base + |args| + declared;
    assert now == now[..base] + now[base..p] + now[p..q] + now[q..];
  }

  /** Opening a frame does not depend on where the machine was, and leaves the labels alone. */
  lemma FrameFacts(m: Machine, pc: nat, f: nat, returnPc: nat, params: nat, declared: nat, arity: nat, start: nat)
    requires m.sp <= |m.stack| && params <= m.sp && m.frameDepth < |m.frames|
    requires NextLocalsBase(m) + params + declared <= |m.locals|
    ensures NextLocalsBase(m.(pc := pc)) == NextLocalsBase(m)
    ensures var m1 := OpenFrame(m, f, returnPc, params, declared, arity, start);
            && m1 == OpenFrame(m.(pc := pc), f, returnPc, params, declared, arity, start)
            && m1.sp == m.sp - params && m1.labels == m.labels && m1.labelDepth == m.labelDepth
  {
  }

  /** Which locals and memory an instruction writes. */
  lemma Writes(env: Env, op: Byte, a: nat, b: nat, args: seq<U64>, locals: seq<U64>, memory: seq<Byte>)
    requires IsPlainOp(op) && |args| == Operands(op)
    requires op == I32_CONST || op == I64_CONST ==> a < U64_LIMIT
    requires Evaluate(env, op, a, b, args, locals, memory).Ok?
    ensures var eff := Evaluate(env, op, a, b, args, locals, memory).value;
            if op == LOCAL_SET || op == LOCAL_TEE then
              a < |locals| && |args| == 1 && eff.locals == locals[a := args[0]] && eff.memory == memory
            else if IsStore(op) then
              && |args| == 2 && eff.locals == locals
              && var ea, n := args[0] % U32_LIMIT + b, AccessWidth(op);
                 ea + n <= |memory| && eff.memory == memory[..ea] + ToBytes(args[1], n) + memory[ea + n..]
            else eff.locals == locals && eff.memory == memory
  {
  }

  method StoreBytes(memory: array<Byte>, at: nat, bytes: seq<Byte>)
    requires at + |bytes| <= memory.Length
    modifies memory
    ensures memory[..] == old(memory[..])[..at] + bytes + old(memory[..])[at + |bytes|..]
  {
    for i := 0 to |bytes|
      invariant memory[..at] == old(memory[..at]) && memory[at..at + i] == bytes[..i]
      invariant memory[at + i..] == old(memory[at + i..])
    {
      memory[at + i] := bytes[i];
      assert memory[at..at + i + 1] == memory[at..at + i] + [bytes[i]];
    }
    assert memory[..] == memory[..at] + memory[at..at + |bytes|] + memory[at + |bytes|..];
  }

  method Overwrite(memory: array<Byte>, bytes: seq<Byte>)
    requires |bytes| == memory.Length
    modifies memory
    ensures memory[..] == bytes
  {
    for i := 0 to |bytes|
      invariant memory[..i] == bytes[..i]
    {
      memory[i] := bytes[i];
    }
  }

  /** The local declarations at the start of a body. */
  method SkipGroups(code: seq<Byte>, pc: nat, n: nat) returns (d: Decoded)
    ensures d == ReadGroups(code, pc, n, 0)
  {
    hide ReadUnsigned;
    var p: nat, total: nat := pc, 0;
    for i := 0 to n
      invariant ReadGroups(code, pc, n, 0) == ReadGroups(code, p, n - i, total)
    {
      var count := DecodeU32(code, p);
      if count.Short? { return Truncated; }
      if count.next >= |code| { return Truncated; }
      p, total := count.next + 1, total + count.value;
    }
    return Decoded(total, 0, p);
  }
}
