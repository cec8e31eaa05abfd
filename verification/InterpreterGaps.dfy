/** The three constructs that the interpreter does not follow: for each, exactly when the
    machine is in the state that the semantics asks for, and a program on which it ends
    differently. Code that follows may still make up for a wrong state: a RETURN, say, drops
    the labels that a branch left open. */
module InterpreterGaps {
  import opened Words
  import opened Leb128
  import opened WasmCode
  import opened WasmFormat
  import opened Interpreter
  import opened InterpreterSafety
  import opened WasmSemantics
  import opened Simulation
  import opened InterpreterCorrectness
  import opened InterpreterPrograms

  // ---------- A branch to a loop ----------

  /** `m` stands somewhere in the body of the loop that `m0` was about to enter and `m1`
      has entered, inside further constructs `inner`. */
  ghost predicate InLoop(
      m0: Machine, m1: Machine, l: Label, base: seq<U64>, st0: Store, ctx: seq<Kind>,
      m: Machine, low: seq<U64>, st: Store, inner: seq<Kind>)
  {
    && Match(m0, base, st0, ctx) && Sound(m1) && Opened(m0, m1, l) && l == Label(m1.pc, m0.sp, 0, true)
    && Match(m, low, st, inner + ([Back] + ctx))
    && SameFrames(m1, m) && SameLabels(m1, m, m1.labelDepth) && SameStack(m1, m, l.height) && l.height <= |low|
  }

  /** A branch to the loop puts the machine back where the body starts, with the operands
      below the loop and the labels around it, if and only if no construct lies between. */
  lemma LoopBranchFollowsIffInnermost(
      m0: Machine, m1: Machine, l: Label, base: seq<U64>, st0: Store, ctx: seq<Kind>,
      m: Machine, low: seq<U64>, st: Store, inner: seq<Kind>)
    requires InLoop(m0, m1, l, base, st0, ctx, m, low, st, inner)
    ensures var s := DoBranch(m, |inner|);
            && s.Running? && s.m.pc == m1.pc
            && (Match(s.m, base + st0.vs, st.(vs := []), [Back] + ctx) <==> inner == [])
  {
    hide Windows, DoBranch, AfterJump, LabelsMatch, DataMatch, StackIs;
    var d, all := |inner|, inner + ([Back] + ctx);
    assert all[d] == Back;
    LabelDepths(m, low, st, all);
    LabelDepths(m0, base, st0, ctx);
    LabelAt(m, all, |low|, d);
    LabelsPrefix(m1, m, m1.labelDepth, m1.labelDepth);
    OpenedTop(m0, m1, l);
    assert m.labels[m.labelDepth - 1 - d] == l;
    LoopBranchLands(m, d, st, low, l);
    var m2 := DoBranch(m, d).m;
    JumpFacts(m, m2, d, st);
    if inner == [] {
      assert all == [Back] + ctx;
      JumpTrans(m1, m, m2, 0, st, l.height);
      LoopAgain(m0, m1, m2, l, base, st0, st, ctx);
      var m3 := m2.(labelDepth := m0.labelDepth);
      MatchIsSound(m3, base, st.(vs := st0.vs), ctx);
      InsideMatches(m3, m2, l, base, st.(vs := st0.vs), ctx);
    } else if Match(m2, base + st0.vs, st.(vs := []), [Back] + ctx) {
      LabelDepths(m2, base + st0.vs, st.(vs := []), [Back] + ctx);
      assert false;
    }
  }

  lemma LabelDepths(m: Machine, base: seq<U64>, st: Store, ctx: seq<Kind>)
    requires Match(m, base, st, ctx)
    ensures Sound(m) && LabelsMatch(m, ctx, |base|) && StackIs(m, base + st.vs) && DataMatch(m, st)
    ensures TopFrame(m).labelBase + |ctx| == m.labelDepth
  {
  }

  lemma JumpFacts(m: Machine, m2: Machine, d: nat, st: Store)
    requires Sound(m) && d < m.labelDepth && AfterJump(m, m2, d, st) && m.labels[m.labelDepth - 1 - d].isLoop
    ensures Sound(m2) && m2.labelDepth == m.labelDepth && TopFrame(m2) == TopFrame(m)
    ensures m2.pc == m.labels[m.labelDepth - 1 - d].target
  {
    hide Windows, DataMatch, StackIs;
  }

  // ---------- The end of a loop ----------

  /** At its END a loop hands over the operands that its body left, as a construct with so
      many results does, if and only if there are none. */
  lemma LoopEndFollowsIffNoResults(
      m0: Machine, m1: Machine, m2: Machine, l: Label, base: seq<U64>, st0: Store, st: Store, ctx: seq<Kind>)
    requires Match(m0, base, st0, ctx) && Sound(m1) && Opened(m0, m1, l)
    requires l.height == m0.sp && l.arity == 0 && l.isLoop
    requires Match(m2, base + st0.vs, st, [Back] + ctx) && Keeps(m1, m2, |base + st0.vs|)
    ensures m2.labelDepth > 0 && CloseBlock(m2).Running?
    ensures Leave(st0.vs, Normal(st), |st.vs|) == Normal(st.(vs := st0.vs + st.vs))
    ensures Match(CloseBlock(m2).m, base, st.(vs := st0.vs + st.vs), ctx) <==> st.vs == []
  {
    hide Windows, LabelsMatch, DataMatch;
    LabelDepths(m0, base, st0, ctx);
    LabelDepths(m2, base + st0.vs, st, [Back] + ctx);
    OpenedTop(m0, m1, l);
    LabelsPrefix(m1, m2, m1.labelDepth, m1.labelDepth);
    LabelsPrefix(m1, m2, m1.labelDepth, m0.labelDepth);
    assert m2.labels[m2.labelDepth - 1] == l;
    CloseKeepsSound(m2);
    var m3, out := CloseBlock(m2).m, st.(vs := st0.vs + st.vs);
    if st.vs == [] {
      assert m3 == m2.(labelDepth := m2.labelDepth - 1);
      assert base + st0.vs + st.vs == base + (st0.vs + st.vs);
      SameData(m2, m3, st, out);
      StackPrefix(m1, m2, |base + st0.vs|, |base|);
      BackOutside(m0, m1, m3, l, base, st0, out, ctx);
    } else if Match(m3, base, out, ctx) {
      LabelDepths(m3, base, out, ctx);
      assert false;
    }
  }

  lemma SameData(m: Machine, m1: Machine, st: Store, st1: Store)
    requires Sound(m) && Sound(m1) && DataMatch(m, st) && st1 == st.(vs := st1.vs)
    requires m1 == m.(labelDepth := m1.labelDepth)
    ensures DataMatch(m1, st1)
  {
    WindowInRange(m);
  }

  // ---------- A branch to the function body ----------

  /** `m` runs a body that ends at `end`, with the operands that its results need. */
  ghost predicate InBody(m: Machine, base: seq<U64>, st: Store, ctx: seq<Kind>, end: nat) {
    && Match(m, base, st, ctx) && ctx[|ctx| - 1].Whole? && |st.vs| >= TopFrame(m).arity
    && TopFrame(m).labelBase < |m.labels|
    && m.labels[TopFrame(m).labelBase] == Label(end, TopFrame(m).height, TopFrame(m).arity, false)
  }

  /** `m` just behind its body: its result on top of what was there before the call, all of
      its labels closed, and its frame still there. */
  ghost function BehindBody(m: Machine, end: nat): Machine
    requires Sound(m) && (TopFrame(m).arity > 0 ==> m.sp > TopFrame(m).height)
  {
    var f := TopFrame(m);
    if f.arity > 0 then
      m.(pc := end, stack := m.stack[f.height := m.stack[m.sp - 1]], sp := f.height + 1, labelDepth := f.labelBase)
    else m.(pc := end, sp := f.height, labelDepth := f.labelBase)
  }

  /** Entering a function opens that label. */
  lemma EntryOpensBody(env: Env, m: Machine, f: nat, returnPc: nat)
    requires ValidEnv(env) && Callable(m) && EnterFunction(env, m, f, returnPc).Ok?
    ensures var m1, body := EnterFunction(env, m, f, returnPc).value, BodyOf(env.mod, f - env.imports);
            && Sound(m1) && TopFrame(m1).labelBase == m.labelDepth < |m1.labels| && m1.labelDepth == m.labelDepth + 1
            && m1.labels[m.labelDepth]
               == Label(body.offset + body.length, TopFrame(m1).height, TopFrame(m1).arity, false)
  {
    hide ReadU32, ReadGroups, Accepted, Windows;
    EnterKeepsSound(env, m, f, returnPc);
  }

  /** For the semantics a branch to the label of the body is a return. The machine goes on
      behind the body instead. */
  lemma BodyBranchGoesOn(m: Machine, base: seq<U64>, st: Store, ctx: seq<Kind>, end: nat)
    requires InBody(m, base, st, ctx, end)
    ensures m.sp >= TopFrame(m).height + TopFrame(m).arity
    ensures DoBranch(m, |ctx| - 1) == Running(BehindBody(m, end)) && Sound(BehindBody(m, end))
  {
    hide Windows, DataMatch;
    BranchKeepsSound(m, |ctx| - 1);
  }

  /** The byte behind the body returns from it: a RETURN, or an END where the function was
      called from outside and no operand below hides that it has no result. */
  ghost predicate ReturnsBehind(env: Env, m: Machine, end: nat)
    requires Sound(m)
  {
    var f := TopFrame(m);
    && end < |env.code|
    && (|| env.code[end] == RETURN
        || (env.code[end] == END && m.frameDepth == 1 && f.labelBase == 0 && (f.arity > 0 || f.height == 0)))
  }

  /** A branch to the body is made good by the next instruction if and only if the byte
      behind the body happens to be one of these. */
  lemma BodyBranchReturnsIff(env: Env, m: Machine, base: seq<U64>, st: Store, ctx: seq<Kind>, end: nat)
    requires ValidEnv(env) && InBody(m, base, st, ctx, end)
    ensures AfterReturn(m, LeaveFunction(m), st)
    ensures m.sp >= TopFrame(m).height + TopFrame(m).arity && Sound(BehindBody(m, end))
    ensures AfterReturn(m, Step(env, BehindBody(m, end)), st) <==> ReturnsBehind(env, m, end)
  {
    hide Windows, AfterReturn, LeaveFunction, Step, StepEnd, ValidEnv;
    ReturnLands(m, st, base, ctx);
    BodyBranchGoesOn(m, base, st, ctx, end);
    var m1 := BehindBody(m, end);
    if end >= |env.code| {
      OffTheEnd(env, m1);
      OnlyReturnsReturn(m, Trapped(UnexpectedEnd), st);
    } else {
      StepIsExecute(env, m1);
      var op, m2 := env.code[end], m1.(pc := end + 1);
      if op == RETURN {
        ReturnBehind(m, m2, end, st);
      } else if op == END {
        EndBehind(m, m2, base, end, st);
      } else {
        OthersStay(env, m2, op);
        OnlyReturnsReturn(m, Execute(env, m2, op), st);
      }
    }
  }

  lemma OnlyReturnsReturn(m: Machine, s: Status, st: Store)
    requires Sound(m)
    ensures AfterReturn(m, s, st) ==> s.Finished? || (s.Running? && s.m.frameDepth < m.frameDepth)
  {
    hide Sound;
  }

  /** Only END and RETURN finish the run or leave a frame. */
  lemma OthersStay(env: Env, m: Machine, op: Byte)
    requires ValidEnv(env) && Sound(m) && op != END && op != RETURN
    ensures var s := Execute(env, m, op); !s.Finished? && (s.Running? ==> s.m.frameDepth >= m.frameDepth)
  {
    hide StepPlain, StepBlock, StepLoop, StepIf, StepElse, StepBr, StepBrIf, StepCall;
    hide Accepted, IsPlainOp, Windows;
    OnlyEndFinishes(env, m, op);
    OpenersKeepSound(env, m);
    IfKeepsSound(env, m);
    BranchesKeepSound(env, m);
    CallsStay(env, m);
    if IsPlainOp(op) { PlainKeepsSound(env, m, op); }
  }

  lemma CallsStay(env: Env, m: Machine)
    requires ValidEnv(env) && Sound(m)
    ensures StepCall(env, m).Running? ==> StepCall(env, m).m.frameDepth >= m.frameDepth
  {
    hide EnterFunction, ReadU32, Accepted, CallHost, Windows;
    var r := ReadU32(env.code, m.pc);
    if r.Done? {
      var m0 := m.(pc := r.next);
      if r.value < env.imports { HostKeepsSound(env, m0, r.value); }
      else {
        assert Callable(m0) by { LeavingIsCallable(m0); }
        EnterKeepsSound(env, m0, r.value, r.next);
      }
    }
  }

  /** Behind the body RETURN does what it would have done in it. */
  lemma ReturnBehind(m: Machine, m2: Machine, end: nat, st: Store)
    requires Sound(m) && Sound(m2) && m.sp >= TopFrame(m).height + TopFrame(m).arity
    requires m2 == BehindBody(m, end).(pc := end + 1) && AfterReturn(m, LeaveFunction(m), st)
    ensures AfterReturn(m, LeaveFunction(m2), st)
  {
    hide Windows;
    var f := TopFrame(m);
    if f.arity > 0 {
      var v := m.stack[m.sp - 1];
      assert m.stack[f.height := v][f.height := v] == m.stack[f.height := v];
    }
  }

  lemma EndBehind(m: Machine, m2: Machine, base: seq<U64>, end: nat, st: Store)
    requires Sound(m) && Sound(m2) && StackIs(m, base + st.vs) && |st.vs| >= TopFrame(m).arity
    requires m.sp >= TopFrame(m).height + TopFrame(m).arity && TopFrame(m).arity <= 1
    requires m2 == BehindBody(m, end).(pc := end + 1) && m.memory == st.memory && m.world == st.world
    ensures var f := TopFrame(m);
            AfterReturn(m, StepEnd(m2), st)
            <==> m.frameDepth == 1 && f.labelBase == 0 && (f.arity > 0 || f.height == 0)
  {
    hide Windows;
    var f := TopFrame(m);
    if f.labelBase > 0 {
      CloseKeepsSound(m2);
      assert !CloseBlock(m2).Finished?;
      OnlyReturnsReturn(m, StepEnd(m2), st);
    } else if f.arity > 0 {
      TopOperand(m, base, st.vs);
    }
  }

  // ---------- Programs ----------

  /** A module of one function that takes `params` i32s and returns one, its body the first
      `len` bytes. */
  ghost function OneFunction(
      code: seq<Byte>, len: nat, params: nat, alu: (Byte, seq<U64>) -> Outcome<U64>,
      host: (int, nat, seq<U64>, seq<Byte>) -> HostReply): Env
  {
    Env(code,
        EMPTY_MODULE.(types := [FuncType(seq(params, _ => 0x7F), [0x7F])], funcTypes := [0],
                      bodies := [FuncBody(0, len)]),
        0, alu, host)
  }

  const SEVEN := Plain(I32_CONST, [Leb(7, [7])])

  /** (i32.const 7) (br 0), where label 0 is the function body. */
  const BRANCH_TO_BODY := Func(0, 1, Leb(0, [0]), [], [SEVEN, Br(Leb(0, [0]))])

  /** (loop (result i32) (i32.const 7)). */
  const LOOP_WITH_RESULT := Func(0, 1, Leb(0, [0]), [], [Loop(0x7F, [SEVEN])])

  /** The machine that has just entered the function with at most one argument, with its
      body's label. */
  ghost function Inside(pc: nat, len: nat, args: seq<U64>, memory: seq<Byte>, world: int): Machine
    requires |args| <= 1
  {
    var m := Fresh(memory, world);
    m.(pc := pc, stack := args + m.stack[|args|..], locals := args + m.locals[|args|..],
       frames := m.frames[0 := Frame(0, 0, 0, |args|, 0, 1, 0)], frameDepth := 1,
       labels := m.labels[0 := Label(len, 0, 1, false)], labelDepth := 1)
  }

  lemma StartsInside(
      code: seq<Byte>, len: nat, args: seq<U64>, alu: (Byte, seq<U64>) -> Outcome<U64>,
      host: (int, nat, seq<U64>, seq<Byte>) -> HostReply, memory: seq<Byte>, world: int)
    requires 1 <= len <= |code| && code[0] == 0 && |args| <= 1
    ensures ValidEnv(OneFunction(code, len, |args|, alu, host)) && Sound(Inside(1, len, args, memory, world))
    ensures Start(OneFunction(code, len, |args|, alu, host), 0, args, memory, world)
            == Ok(Inside(1, len, args, memory, world))
  {
    hide ReadU32, ReadGroups, PushAll, Windows;
    var env := OneFunction(code, len, |args|, alu, host);
    var m := Fresh(memory, world);
    NoGroups(code);
    var m1 := m.(stack := args + m.stack[|args|..], sp := |args|);
    PushesArgs(m, args);
    assert Windows(m1.frames, 0) by { NoWindows(m1.frames); }
    assert m1.locals[..0] + (m1.stack[0..|args|] + seq(0, _ => 0)) + m1.locals[|args|..] == args + m1.locals[|args|..];
    EnterKeepsSound(env, m1, 0, 0);
  }

  lemma NoGroups(code: seq<Byte>)
    requires |code| >= 1 && code[0] == 0
    ensures ReadU32(code, 0) == Done(0, 1) && ReadGroups(code, 1, 0, 0) == Decoded(0, 0, 1)
  {
  }

  lemma NoWindows(frames: seq<Frame>)
    ensures Windows(frames, 0)
  {
  }

  lemma PushesArgs(m: Machine, args: seq<U64>)
    requires |m.stack| == MAX_STACK && m.sp == 0 && |args| <= 1
    ensures PushAll(m, args) == Ok(m.(stack := args + m.stack[|args|..], sp := |args|))
  {
    if args == [] {
      assert [] + m.stack[0..] == m.stack;
    } else {
      var m1 := Push(m, args[0]).value;
      assert PushAll(m1, args[1..]) == Ok(m1);
      assert m.stack[0 := args[0]] == args + m.stack[1..];
    }
  }

  // ---------- Single steps ----------

  /** A one-byte number. */
  lemma SmallDecodes(code: seq<Byte>, pc: nat, v: Byte)
    requires pc < |code| && code[pc] == v && v < 64
    ensures DecodeImmediates(ImmediatesOf(I32_CONST), code, pc) == Decoded(v, 0, pc + 1)
    ensures DecodeImmediates(ImmediatesOf(LOCAL_GET), code, pc) == Decoded(v, 0, pc + 1)
    ensures DecodeImmediates(ImmediatesOf(LOCAL_SET), code, pc) == Decoded(v, 0, pc + 1)
    ensures ReadU32(code, pc) == Done(v, pc + 1)
  {
  }

  ghost predicate Reads(env: Env, m: Machine, op: Byte, v: Byte) {
    m.pc + 1 < |env.code| && env.code[m.pc] == op && env.code[m.pc + 1] == v
  }

  lemma StepIsPlain(env: Env, m: Machine)
    requires ValidEnv(env) && Sound(m) && m.pc < |env.code| && IsPlainOp(env.code[m.pc])
    ensures Sound(m.(pc := m.pc + 1)) && Step(env, m) == StepPlain(env, m.(pc := m.pc + 1), env.code[m.pc])
  {
    hide Sound, ValidEnv, StepPlain, IsPlainOp, Step;
    StepIsExecute(env, m);
    PlainIsNotControl(env.code[m.pc]);
  }

  /** The effects of the three instructions that the programs use. */
  lemma SmallEffects(env: Env, v: Byte, x: U64, locals: seq<U64>, memory: seq<Byte>)
    ensures IsPlainOp(I32_CONST) && IsPlainOp(LOCAL_GET) && IsPlainOp(LOCAL_SET)
    ensures Operands(I32_CONST) == 0 && Operands(LOCAL_GET) == 0 && Operands(LOCAL_SET) == 1
    ensures Evaluate(env, I32_CONST, v, 0, [], locals, memory) == Ok(Effect([v], locals, memory))
    ensures |locals| > 0 ==>
            Evaluate(env, LOCAL_GET, 0, 0, [], locals, memory) == Ok(Effect([locals[0]], locals, memory))
    ensures |locals| > 0 ==>
            Evaluate(env, LOCAL_SET, 0, 0, [x], locals, memory) == Ok(Effect([], locals[0 := x], memory))
  {
  }

  /** (i32.const v). */
  lemma StepConst(env: Env, m: Machine, v: Byte)
    requires ValidEnv(env) && Sound(m) && Reads(env, m, I32_CONST, v) && v < 64 && m.sp < MAX_STACK
    ensures Step(env, m) == Running(m.(pc := m.pc + 2, stack := m.stack[m.sp := v], sp := m.sp + 1))
  {
    hide Windows, Step, DecodeImmediates, ImmediatesOf, ValidEnv, Evaluate, IsPlainOp, Operands;
    SmallDecodes(env.code, m.pc + 1, v);
    WindowInRange(m);
    SmallEffects(env, v, 0, Window(m), m.memory);
    StepIsPlain(env, m);
    assert m.stack[m.sp - 0..m.sp] == [];
    var m0 := m.(pc := m.pc + 1);
    assert SetWindow(m0, Window(m0)) == m0;
  }

  /** (local.get 0). */
  lemma StepGet(env: Env, m: Machine)
    requires ValidEnv(env) && Sound(m) && Reads(env, m, LOCAL_GET, 0) && m.sp < MAX_STACK
    requires TopFrame(m).localsBase == 0 && TopFrame(m).localCount == 1
    ensures Step(env, m) == Running(m.(pc := m.pc + 2, stack := m.stack[m.sp := m.locals[0]], sp := m.sp + 1))
  {
    hide Windows, Step, DecodeImmediates, ImmediatesOf, ValidEnv, Evaluate, IsPlainOp, Operands;
    SmallDecodes(env.code, m.pc + 1, 0);
    WindowInRange(m);
    SmallEffects(env, 0, 0, Window(m), m.memory);
    StepIsPlain(env, m);
    assert m.stack[m.sp - 0..m.sp] == [];
    var m0 := m.(pc := m.pc + 1);
    assert SetWindow(m0, Window(m0)) == m0;
    assert Window(m0)[0] == m.locals[0];
  }

  /** (local.set 0). */
  lemma StepSet(env: Env, m: Machine)
    requires ValidEnv(env) && Sound(m) && Reads(env, m, LOCAL_SET, 0) && m.sp >= 1
    requires TopFrame(m).localsBase == 0 && TopFrame(m).localCount == 1
    ensures Step(env, m) == Running(m.(pc := m.pc + 2, sp := m.sp - 1, locals := m.locals[0 := m.stack[m.sp - 1]]))
  {
    hide Windows, Step, DecodeImmediates, ImmediatesOf, ValidEnv, Evaluate, IsPlainOp, Operands;
    SmallDecodes(env.code, m.pc + 1, 0);
    WindowInRange(m);
    SmallEffects(env, 0, m.stack[m.sp - 1], Window(m), m.memory);
    StepIsPlain(env, m);
    var m0, v := m.(pc := m.pc + 1), m.stack[m.sp - 1];
    assert m.stack[m.sp - 1..m.sp] == [v];
    assert SetWindow(m0, Window(m0)[0 := v]).locals == m.locals[0 := v];
  }

  /** (br_if d). */
  lemma StepsBrIf(env: Env, m: Machine, d: Byte)
    requires ValidEnv(env) && Sound(m) && Reads(env, m, BR_IF, d) && d < 64 && m.sp >= 1
    ensures var m1 := m.(pc := m.pc + 2, sp := m.sp - 1);
            Sound(m1) && Step(env, m) == if m.stack[m.sp - 1] % U32_LIMIT != 0 then DoBranch(m1, d) else Running(m1)
  {
    hide Windows, Step, ReadU32, ValidEnv, DoBranch;
    SmallDecodes(env.code, m.pc + 1, d);
    StepIsExecute(env, m);
  }

  /** The END of a construct inside the function. */
  lemma StepCloses(env: Env, m: Machine)
    requires ValidEnv(env) && Sound(m) && m.pc < |env.code| && env.code[m.pc] == END
    requires TopFrame(m).labelBase < m.labelDepth - 1
    ensures Sound(m.(pc := m.pc + 1)) && Step(env, m) == CloseBlock(m.(pc := m.pc + 1))
  {
    hide Windows, Step, ValidEnv, CloseBlock, LeaveFunction;
    StepIsExecute(env, m);
  }

  lemma StepOpens(env: Env, m: Machine, end: nat)
    requires ValidEnv(env) && Sound(m) && m.labelDepth < MAX_LABELS
    ensures m.pc + 1 < |env.code| && env.code[m.pc] == LOOP ==>
              Step(env, m)
                  == Running(m.(pc := m.pc + 2, labels := m.labels[m.labelDepth := Label(m.pc + 2, m.sp, 0, true)],
                                         labelDepth := m.labelDepth + 1))
    ensures Reads(env, m, BLOCK, VOID) && Skip(env.code, m.pc + 2, 1, false) == FoundEnd(end) ==>
              Step(env, m) == Running(m.(pc := m.pc + 2, labels := m.labels[m.labelDepth := Label(end, m.sp, 0, false)],
                                         labelDepth := m.labelDepth + 1))
  {
    hide Windows, Step, ValidEnv, Skip;
    if m.pc < |env.code| { StepIsExecute(env, m); }
  }

  lemma Advance(env: Env, m: Machine, m1: Machine, n: nat)
    requires ValidEnv(env) && Sound(m) && Step(env, m) == Running(m1)
    ensures Sound(m1) && RunN(env, m, 1 + n) == RunN(env, m1, n)
  {
    hide Step, Sound, ValidEnv;
    RunFrom(env, m, n);
    StepKeepsSound(env, m);
  }

  /** A concrete run that ends in a trap where the semantics returns 7. */
  lemma BranchToBodyDiverges(
      alu: (Byte, seq<U64>) -> Outcome<U64>, host: (int, nat, seq<U64>, seq<Byte>) -> HostReply,
      memory: seq<Byte>, world: int)
    ensures var code := [0, I32_CONST, 7, BR, 0, END];
            var env, m1 := OneFunction(code, 6, 0, alu, host), Inside(1, 6, [], memory, world);
            && EncodeFunc(BRANCH_TO_BODY) == code && ValidEnv(env) && Sound(m1)
            && ExecCall(env, [BRANCH_TO_BODY], 1, 0, Store([], [], memory, world))
                == Normal(Store([7], [], memory, world))
            && Start(env, 0, [], memory, world) == Ok(m1)
            && RunN(env, m1, 3) == Trapped(UnexpectedEnd)
  {
    hide Step, Sound, ValidEnv, RunN, ExecCall, Start, EncodeFunc;
    var code: seq<Byte> := [0, I32_CONST, 7, BR, 0, END];
    var env, m1 := OneFunction(code, 6, 0, alu, host), Inside(1, 6, [], memory, world);
    StartsInside(code, 6, [], alu, host, memory, world);
    BranchToBodyMeaning(env, memory, world);
    var m3 := BranchToBodyRun(env, m1);
    OffTheEnd(env, m3);
  }

  /** The same function in front of a byte 15, such as the size of the next body, or 11, such
      as the number of a data section: the first is RETURN and the second END, and the machine
      returns 7 as it should. */
  lemma BranchToBodyReturns(
      tail: Byte, alu: (Byte, seq<U64>) -> Outcome<U64>, host: (int, nat, seq<U64>, seq<Byte>) -> HostReply,
      memory: seq<Byte>, world: int)
    requires tail == RETURN || tail == END
    ensures var code := [0, I32_CONST, 7, BR, 0, END, tail];
            var env, m1 := OneFunction(code, 6, 0, alu, host), Inside(1, 6, [], memory, world);
            && EncodeFunc(BRANCH_TO_BODY) == code[..6] && ValidEnv(env) && Sound(m1)
            && ExecCall(env, [BRANCH_TO_BODY], 1, 0, Store([], [], memory, world))
                == Normal(Store([7], [], memory, world))
            && Start(env, 0, [], memory, world) == Ok(m1)
            && RunN(env, m1, 3).Finished? && RunN(env, m1, 3).result == Some(7)
            && RunN(env, m1, 3).m.memory == memory && RunN(env, m1, 3).m.world == world
  {
    hide Step, Sound, ValidEnv, RunN, ExecCall, Start, EncodeFunc;
    var code: seq<Byte> := [0, I32_CONST, 7, BR, 0, END, tail];
    var env, m1 := OneFunction(code, 6, 0, alu, host), Inside(1, 6, [], memory, world);
    StartsInside(code, 6, [], alu, host, memory, world);
    BranchToBodyMeaning(env, memory, world);
    var m3 := BranchToBodyRun(env, m1);
    StepReturnsBehind(env, m3);
  }

  lemma StepReturnsBehind(env: Env, m: Machine)
    requires ValidEnv(env) && Sound(m) && m.pc < |env.code| && (env.code[m.pc] == RETURN || env.code[m.pc] == END)
    requires m.frameDepth == 1 && m.labelDepth == 0 && m.sp == 1 && m.stack[0] == 7
    requires TopFrame(m).arity == 1 && TopFrame(m).height == 0
    ensures var s := Step(env, m);
            s.Finished? && s.result == Some(7) && s.m.memory == m.memory && s.m.world == m.world
  {
    hide Windows, Step, ValidEnv;
    StepIsExecute(env, m);
  }

  /** Two instructions, and the machine is behind the body. */
  lemma BranchToBodyRun(env: Env, m: Machine) returns (m2: Machine)
    requires ValidEnv(env) && [0, I32_CONST, 7, BR, 0, END] <= env.code && Sound(m) && m.pc == 1 && m.sp == 0
    requires m.labelDepth == 1 && m.labels[0] == Label(6, 0, 1, false) && TopFrame(m).labelBase == 0
    ensures Sound(m2) && m2 == m.(pc := 6, stack := m.stack[0 := 7], sp := 1, labelDepth := 0)
    ensures RunN(env, m, 3) == Step(env, m2)
  {
    hide Step, ValidEnv, RunN, Windows;
    StepConst(env, m, 7);
    StepKeepsSound(env, m);
    var m1 := m.(pc := 3, stack := m.stack[0 := 7], sp := 1);
    Advance(env, m, m1, 2);
    m2 := m1.(pc := 6, labelDepth := 0);
    StepBranchOut(env, m1, m2);
    StepKeepsSound(env, m1);
    Advance(env, m1, m2, 1);
    RunOne(env, m2);
  }

  lemma StepBranchOut(env: Env, m2: Machine, m3: Machine)
    requires ValidEnv(env) && Sound(m2) && [0, I32_CONST, 7, BR, 0, END] <= env.code && m2.pc == 3
    requires m2.sp == 1 && m2.stack[0] == 7 && m2.labelDepth == 1 && m2.labels[0] == Label(6, 0, 1, false)
    requires TopFrame(m2).labelBase == 0 && m3 == m2.(pc := 6, labelDepth := 0)
    ensures Step(env, m2) == Running(m3)
  {
    StepIsExecute(env, m2);
    assert ReadU32(env.code, 4) == Done(0, 5);
    hide ReadU32, Step, Windows;
    assert m2.stack[0 := 7] == m2.stack;
  }

  lemma BranchToBodyBytes()
    ensures EncodeFunc(BRANCH_TO_BODY) == [0, I32_CONST, 7, BR, 0, END]
  {
    hide Encode, EncodeSeq, ImmBytes;
    var br, ins := Br(Leb(0, [0])), BRANCH_TO_BODY.body;
    assert ins[1..] == [br] && [br][1..] == [];
    OneImmediate(I32_CONST, Leb(7, [7]));
    NoBytes(0, VOID, [], []);
    FirstBytes(ins);
    FirstBytes([br]);
  }

  lemma BranchToBodyMeaning(env: Env, memory: seq<Byte>, world: int)
    requires ValidEnv(env) && env.imports == 0
    ensures EncodeFunc(BRANCH_TO_BODY) == [0, I32_CONST, 7, BR, 0, END]
    ensures ExecCall(env, [BRANCH_TO_BODY], 1, 0, Store([], [], memory, world)) == Normal(Store([7], [], memory, world))
  {
    hide ValidEnv, ExecPlain, Encode, EncodeSeq, ImmBytes, EncodeFunc;
    BranchToBodyBytes();
    var br, ins, prog := Br(Leb(0, [0])), BRANCH_TO_BODY.body, [BRANCH_TO_BODY];
    var st, st1 := Store([], [], memory, world), Store([7], [], memory, world);
    assert ins[1..] == [br] && [] + [7] == [7];
    ConstMeaning(env, prog, 0, 7, st);
    SeqStep(env, prog, 0, ins, st, st1);
    assert ExecSeq(env, prog, 0, [br], st1) == Jump(0, st1);
    assert Last([], 0) + seq(0, _ => 0) == [] && ButLast([], 0) == [];
    assert [] + Last([7], 1) == [7];
  }

  /** A concrete run that returns nothing where the semantics returns 7. */
  lemma LoopResultDiverges(
      alu: (Byte, seq<U64>) -> Outcome<U64>, host: (int, nat, seq<U64>, seq<Byte>) -> HostReply,
      memory: seq<Byte>, world: int)
    ensures var code := [0, LOOP, 0x7F, I32_CONST, 7, END, END];
            var env, m1 := OneFunction(code, 7, 0, alu, host), Inside(1, 7, [], memory, world);
            && EncodeFunc(LOOP_WITH_RESULT) == code && ValidEnv(env) && Sound(m1)
            && ExecCall(env, [LOOP_WITH_RESULT], 1, 0, Store([], [], memory, world))
                == Normal(Store([7], [], memory, world))
            && Start(env, 0, [], memory, world) == Ok(m1)
            && RunN(env, m1, 4).Finished? && RunN(env, m1, 4).result == None
  {
    hide Step, Sound, ValidEnv, RunN, ExecCall, Start, EncodeFunc;
    var code: seq<Byte> := [0, LOOP, 0x7F, I32_CONST, 7, END, END];
    var env, m1 := OneFunction(code, 7, 0, alu, host), Inside(1, 7, [], memory, world);
    StartsInside(code, 7, [], alu, host, memory, world);
    LoopResultMeaning(env, memory, world);
    LoopResultRun(env, m1);
  }

  lemma LoopResultRun(env: Env, m: Machine)
    requires ValidEnv(env) && env.code == [0, LOOP, 0x7F, I32_CONST, 7, END, END] && Sound(m) && m.pc == 1 && m.sp == 0
    requires m.labelDepth == 1 && m.frameDepth == 1 && TopFrame(m) == Frame(0, 0, 0, 0, 0, 1, 0)
    ensures RunN(env, m, 4).Finished? && RunN(env, m, 4).result == None
  {
    hide Step, ValidEnv, RunN, Windows;
    StepOpens(env, m, 0);
    StepKeepsSound(env, m);
    var m1 := m.(pc := 3, labels := m.labels[1 := Label(3, 0, 0, true)], labelDepth := 2);
    Advance(env, m, m1, 3);
    StepConst(env, m1, 7);
    StepKeepsSound(env, m1);
    var m2 := m1.(pc := 5, stack := m1.stack[0 := 7], sp := 1);
    Advance(env, m1, m2, 2);
    StepCloses(env, m2);
    StepKeepsSound(env, m2);
    var m3 := m2.(pc := 6, sp := 0, labelDepth := 1);
    Advance(env, m2, m3, 1);
    RunOne(env, m3);
    StepReturns(env, m3);
  }

  /** The END of the body, with nothing on the stack. */
  lemma StepReturns(env: Env, m: Machine)
    requires ValidEnv(env) && Sound(m) && m.pc < |env.code| && env.code[m.pc] == END && m.sp == 0
    requires m.labelDepth == 1 && m.frameDepth == 1 && TopFrame(m).labelBase == 0
    ensures Step(env, m).Finished? && Step(env, m).result == None
  {
    hide Step, ValidEnv, Windows;
    StepIsExecute(env, m);
  }

  lemma LoopResultMeaning(env: Env, memory: seq<Byte>, world: int)
    requires ValidEnv(env) && env.imports == 0
    ensures EncodeFunc(LOOP_WITH_RESULT) == [0, LOOP, 0x7F, I32_CONST, 7, END, END]
    ensures ExecCall(env, [LOOP_WITH_RESULT], 1, 0, Store([], [], memory, world))
            == Normal(Store([7], [], memory, world))
  {
    hide ValidEnv, ExecPlain, Encode, EncodeSeq, ImmBytes, Exec, ExecSeq;
    var loop, ins, prog := Loop(0x7F, [SEVEN]), LOOP_WITH_RESULT.body, [LOOP_WITH_RESULT];
    var st, st1 := Store([], [], memory, world), Store([7], [], memory, world);
    assert [SEVEN][1..] == [] && ins[1..] == [];
    OneImmediate(I32_CONST, Leb(7, [7]));
    NoBytes(0, 0x7F, [], [SEVEN]);
    FirstBytes(ins);
    FirstBytes([SEVEN]);
    assert [] + [7] == [7];
    ConstMeaning(env, prog, 0, 7, st);
    SeqStep(env, prog, 0, [SEVEN], st, st1);
    assert ExecLoop(env, prog, 0, 0x7F, [SEVEN], st) == Normal(st1);
    LoopIsLoop(env, prog, 0, 0x7F, [SEVEN], st);
    SeqStep(env, prog, 0, ins, st, st1);
    assert Last([], 0) + seq(0, _ => 0) == [] && ButLast([], 0) == [];
  }

  lemma LoopIsLoop(env: Env, prog: seq<Func>, fuel: nat, kind: Byte, body: seq<Instr>, st: Store)
    requires ValidEnv(env)
    ensures Exec(env, prog, fuel, Loop(kind, body), st) == ExecLoop(env, prog, fuel, kind, body, st)
  {
    hide ValidEnv, ExecLoop;
  }

  // ---------- A loop left open from inside ----------

  /** (local.get 0) (i32.const 0) (local.set 0) (br_if 1). */
  const TURN: seq<Instr> :=
    [Plain(LOCAL_GET, [Leb(0, [0])]), Plain(I32_CONST, [Leb(0, [0])]), Plain(LOCAL_SET, [Leb(0, [0])]),
        BrIf(Leb(1, [1]))]

  /** (loop (block TURN)) (i32.const 7): once more around the loop if the argument is not 0. */
  const NESTED_BRANCH := Func(1, 1, Leb(0, [0]), [], [Loop(VOID, [Block(VOID, TURN)]), SEVEN])

  const NESTED_CODE: seq<Byte> :=
    [0, LOOP, VOID, BLOCK, VOID, LOCAL_GET, 0, I32_CONST, 0, LOCAL_SET, 0, BR_IF, 1, END, END, I32_CONST, 7, END]

  const BLOCK_LABEL := Label(14, 0, 0, false)

  lemma TurnBytes()
    ensures EncodeFunc(NESTED_BRANCH) == NESTED_CODE
  {
    hide EncodeSeq, Encode;
    BodyBytes();
    NoBytes(1, VOID, [], []);
  }

  lemma BodyBytes()
    ensures EncodeSeq(NESTED_BRANCH.body) == NESTED_CODE[1..17]
  {
    hide EncodeSeq, Encode, ImmBytes;
    var block := Block(VOID, TURN);
    BlockBytes();
    OneImmediate(I32_CONST, Leb(7, [7]));
    NoBytes(1, VOID, TURN, [block]);
    FirstBytes([SEVEN]);
    assert [SEVEN][1..] == [] && NESTED_BRANCH.body[1..] == [SEVEN];
    FirstBytes(NESTED_BRANCH.body);
    assert NESTED_CODE[1..17] == [LOOP, VOID] + (NESTED_CODE[3..14] + [END]) + [I32_CONST, 7];
  }

  lemma BlockBytes()
    ensures EncodeSeq([Block(VOID, TURN)]) == NESTED_CODE[3..14]
  {
    hide EncodeSeq, Encode, ImmBytes;
    var block := Block(VOID, TURN);
    TurnInstrs();
    NoBytes(1, VOID, TURN, []);
    FirstBytes([block]);
    assert [block][1..] == [];
    assert NESTED_CODE[3..14] == [BLOCK, VOID] + (EncodeSeq(TURN) + [END]) + [];
  }

  lemma TurnInstrs()
    ensures EncodeSeq(TURN) == [LOCAL_GET, 0, I32_CONST, 0, LOCAL_SET, 0, BR_IF, 1]
  {
    hide EncodeSeq, Encode, ImmBytes;
    OneImmediate(LOCAL_GET, Leb(0, [0]));
    OneImmediate(I32_CONST, Leb(0, [0]));
    OneImmediate(LOCAL_SET, Leb(0, [0]));
    NoBytes(1, VOID, [], []);
    FirstBytes(TURN);
    FirstBytes(TURN[1..]);
    FirstBytes(TURN[2..]);
    FirstBytes(TURN[3..]);
    assert TURN[1..][1..] == TURN[2..] && TURN[2..][1..] == TURN[3..] && TURN[3..][1..] == [];
  }

  lemma FirstBytes(ins: seq<Instr>)
    requires ins != []
    ensures EncodeSeq(ins) == Encode(ins[0]) + EncodeSeq(ins[1..])
  {
  }

  lemma NoBytes(d: Byte, kind: Byte, inner: seq<Instr>, body: seq<Instr>)
    ensures EncodeSeq([]) == [] && EncodeDecls([]) == []
    ensures Encode(Br(Leb(d, [d]))) == [BR, d] && Encode(BrIf(Leb(d, [d]))) == [BR_IF, d]
    ensures Encode(Block(kind, inner)) == [BLOCK, kind] + (EncodeSeq(inner) + [END])
    ensures Encode(Loop(kind, body)) == [LOOP, kind] + (EncodeSeq(body) + [END])
  {
  }

  lemma OneImmediate(op: Byte, l: Leb)
    ensures Encode(Plain(op, [l])) == [op] + l.bytes
  {
    assert [l][1..] == [];
    assert ImmBytes([l]) == l.bytes + ImmBytes([]);
    assert l.bytes + [] == l.bytes;
  }

  lemma TurnEnds()
    ensures Skip(NESTED_CODE, 5, 1, false) == FoundEnd(14)
  {
    hide Skip, EncodeSeq;
    TurnInstrs();
    assert NESTED_CODE[5..14] == EncodeSeq(TURN) + [END];
    assert WellFormedSeq(TURN) by { TurnIsWellFormed(); }
    SkipFindsOwnEnd(NESTED_CODE, 5, TURN);
  }

  lemma TurnIsWellFormed()
    ensures WellFormedSeq(TURN)
  {
    var t1, t2, t3 := TURN[1..], TURN[2..], TURN[3..];
    assert t1[1..] == t2 && t2[1..] == t3 && t3[1..] == [];
    assert SpellsU32(Leb(0, [0])) && SpellsI32(Leb(0, [0])) && SpellsU32(Leb(1, [1]));
    hide SpellsU32, SpellsI32;
    assert WellFormedSeq([]);
    assert WellFormed(t3[0]);
    assert WellFormedSeq(t3);
    assert WellFormed(t2[0]);
    assert WellFormedSeq(t2);
    assert WellFormed(t1[0]);
    assert WellFormedSeq(t1);
  }

  /** The machine at the start of the loop body, and the labels that are open then. */
  ghost predicate AtBody(env: Env, m: Machine) {
    && ValidEnv(env) && env.code == NESTED_CODE && Sound(m) && m.pc == 3 && m.sp == 0
    && TopFrame(m).localsBase == 0 && TopFrame(m).localCount == 1 && TopFrame(m).labelBase == 0
    && 2 <= m.labelDepth < MAX_LABELS
  }

  /** One turn up to its br_if: the argument is on the stack, the local is 0, and the block
      has put its label on top. */
  ghost function AfterTurn(m: Machine): Machine
    requires Sound(m) && m.sp == 0 && m.labelDepth < MAX_LABELS
  {
    m.(pc := 11, stack := m.stack[0 := m.locals[0]][1 := 0], sp := 1, locals := m.locals[0 := 0],
       labels := m.labels[m.labelDepth := BLOCK_LABEL], labelDepth := m.labelDepth + 1)
  }

  lemma TurnRuns(env: Env, m: Machine, n: nat)
    requires AtBody(env, m)
    ensures Sound(AfterTurn(m)) && RunN(env, m, 4 + n) == RunN(env, AfterTurn(m), n)
  {
    hide Step, Windows, ValidEnv, Skip, RunN;
    TurnSteps(env, m);
    var m1 := m.(pc := 5, labels := m.labels[m.labelDepth := BLOCK_LABEL], labelDepth := m.labelDepth + 1);
    var m2 := m1.(pc := 7, stack := m1.stack[0 := m.locals[0]], sp := 1);
    var m3 := m2.(pc := 9, stack := m2.stack[1 := 0], sp := 2);
    Advance(env, m, m1, 3 + n);
    Advance(env, m1, m2, 2 + n);
    Advance(env, m2, m3, 1 + n);
    Advance(env, m3, AfterTurn(m), n);
  }

  lemma TurnSteps(env: Env, m: Machine)
    requires AtBody(env, m)
    ensures var m1 := m.(pc := 5, labels := m.labels[m.labelDepth := BLOCK_LABEL], labelDepth := m.labelDepth + 1);
            var m2 := m1.(pc := 7, stack := m1.stack[0 := m.locals[0]], sp := 1);
            var m3 := m2.(pc := 9, stack := m2.stack[1 := 0], sp := 2);
            && Step(env, m) == Running(m1) && Sound(m1) && Step(env, m1) == Running(m2) && Sound(m2)
            && Step(env, m2) == Running(m3) && Sound(m3) && Step(env, m3) == Running(AfterTurn(m))
  {
    hide Step, ValidEnv, Skip, Windows;
    TurnEnds();
    StepOpens(env, m, 14);
    StepKeepsSound(env, m);
    var m1 := Step(env, m).m;
    StepGet(env, m1);
    StepKeepsSound(env, m1);
    var m2 := Step(env, m1).m;
    StepConst(env, m2, 0);
    StepKeepsSound(env, m2);
    var m3 := Step(env, m2).m;
    StepSet(env, m3);
  }

  /** A concrete run that ends in a trap where the semantics returns 7: the branch back from
      inside the block leaves the block's label open, so that the END of the function closes
      the loop instead, and the machine runs off the end of the code. */
  lemma NestedLoopBranchDiverges(
      alu: (Byte, seq<U64>) -> Outcome<U64>, host: (int, nat, seq<U64>, seq<Byte>) -> HostReply,
      memory: seq<Byte>, world: int)
    ensures var env, m := OneFunction(NESTED_CODE, 18, 1, alu, host), Inside(1, 18, [1], memory, world);
            && EncodeFunc(NESTED_BRANCH) == NESTED_CODE && ValidEnv(env) && Sound(m)
            && ExecCall(env, [NESTED_BRANCH], 2, 0, Store([1], [], memory, world))
                == Normal(Store([7], [], memory, world))
            && Start(env, 0, [1], memory, world) == Ok(m)
            && RunN(env, m, 16) == Trapped(UnexpectedEnd)
  {
    hide Step, Sound, ValidEnv, RunN, ExecCall, Start, EncodeFunc;
    var env, m := OneFunction(NESTED_CODE, 18, 1, alu, host), Inside(1, 18, [1], memory, world);
    TurnBytes();
    StartsInside(NESTED_CODE, 18, [1], alu, host, memory, world);
    NestedMeaning(env, memory, world);
    var m1 := FirstTurn(env, m);
    SecondTurn(env, m1);
  }

  /** Into the loop and once around it. */
  lemma FirstTurn(env: Env, m: Machine) returns (m1: Machine)
    requires ValidEnv(env) && env.code == NESTED_CODE && Sound(m) && m.pc == 1 && m.sp == 0 && m.labelDepth == 1
    requires TopFrame(m).localsBase == 0 && TopFrame(m).localCount == 1 && TopFrame(m).labelBase == 0
             && m.locals[0] == 1
    ensures AtBody(env, m1) && m1.locals[0] == 0 && m1.labelDepth == 3
    ensures m1.labels[1] == Label(3, 0, 0, true) && m1.labels[2] == BLOCK_LABEL
    ensures RunN(env, m, 16) == RunN(env, m1, 10)
  {
    hide Step, ValidEnv, RunN, Windows;
    StepOpens(env, m, 0);
    StepKeepsSound(env, m);
    var m2 := Step(env, m).m;
    Advance(env, m, m2, 15);
    TurnRuns(env, m2, 11);
    var m3 := AfterTurn(m2);
    StepsBrIf(env, m3, 1);
    StepKeepsSound(env, m3);
    m1 := Step(env, m3).m;
    assert DoBranch(m3.(pc := 13, sp := 0), 1) == Running(m3.(pc := 3, sp := 0));
    Advance(env, m3, m1, 10);
  }

  /** Around it again, and out through the ENDs. */
  lemma SecondTurn(env: Env, m: Machine)
    requires AtBody(env, m) && m.locals[0] == 0 && m.labelDepth == 3
    requires m.labels[1] == Label(3, 0, 0, true) && m.labels[2] == BLOCK_LABEL
    ensures RunN(env, m, 10) == Trapped(UnexpectedEnd)
  {
    hide Step, ValidEnv, RunN, Windows;
    TurnRuns(env, m, 6);
    var m1 := AfterTurn(m);
    StepsBrIf(env, m1, 1);
    StepKeepsSound(env, m1);
    var m2 := m1.(pc := 13, sp := 0);
    Advance(env, m1, m2, 5);
    StepCloses(env, m2);
    StepKeepsSound(env, m2);
    var m3 := m2.(pc := 14, labelDepth := 3);
    Advance(env, m2, m3, 4);
    StepCloses(env, m3);
    StepKeepsSound(env, m3);
    var m4 := m3.(pc := 15, labelDepth := 2);
    Advance(env, m3, m4, 3);
    LastSteps(env, m4);
  }

  lemma LastSteps(env: Env, m: Machine)
    requires ValidEnv(env) && env.code == NESTED_CODE && Sound(m) && m.pc == 15 && m.sp == 0 && m.labelDepth == 2
    requires m.labels[1] == Label(3, 0, 0, true) && TopFrame(m).labelBase == 0
    ensures RunN(env, m, 3) == Trapped(UnexpectedEnd)
  {
    hide Step, ValidEnv, RunN, Windows;
    StepConst(env, m, 7);
    StepKeepsSound(env, m);
    var m1 := m.(pc := 17, stack := m.stack[0 := 7], sp := 1);
    Advance(env, m, m1, 2);
    StepCloses(env, m1);
    StepKeepsSound(env, m1);
    var m2 := m1.(pc := 18, sp := 0, labelDepth := 1);
    Advance(env, m1, m2, 1);
    RunOne(env, m2);
    OffTheEnd(env, m2);
  }

  lemma OffTheEnd(env: Env, m: Machine)
    requires ValidEnv(env) && Sound(m) && m.pc >= |env.code|
    ensures Step(env, m) == Trapped(UnexpectedEnd)
  {
    hide Sound, ValidEnv;
  }

  lemma SeqStep(env: Env, prog: seq<Func>, fuel: nat, ins: seq<Instr>, st: Store, st1: Store)
    requires ValidEnv(env) && ins != [] && Exec(env, prog, fuel, ins[0], st) == Normal(st1)
    ensures ExecSeq(env, prog, fuel, ins, st) == ExecSeq(env, prog, fuel, ins[1..], st1)
    ensures ExecSeq(env, prog, fuel, [], st1) == Normal(st1)
  {
    hide ValidEnv;
  }

  lemma ConstMeaning(env: Env, prog: seq<Func>, fuel: nat, v: Byte, st: Store)
    requires ValidEnv(env)
    ensures Exec(env, prog, fuel, Plain(I32_CONST, [Leb(v, [v])]), st) == Normal(st.(vs := st.vs + [v]))
  {
    hide ValidEnv, Evaluate, IsPlainOp, Operands;
    SmallEffects(env, v, 0, st.locals, st.memory);
    assert ButLast(st.vs, 0) == st.vs && Last(st.vs, 0) == [];
  }

  lemma LocalMeaning(env: Env, prog: seq<Func>, fuel: nat, st: Store, x: U64)
    requires ValidEnv(env) && st.locals == [x]
    ensures Exec(env, prog, fuel, Plain(LOCAL_GET, [Leb(0, [0])]), st) == Normal(st.(vs := st.vs + [x]))
    ensures |st.vs| > 0 ==> Exec(env, prog, fuel, Plain(LOCAL_SET, [Leb(0, [0])]), st)
                            == Normal(st.(vs := st.vs[..|st.vs| - 1], locals := [st.vs[|st.vs| - 1]]))
  {
    hide ValidEnv, Evaluate, IsPlainOp, Operands;
    SmallEffects(env, 0, 0, st.locals, st.memory);
    assert ButLast(st.vs, 0) == st.vs && Last(st.vs, 0) == [];
    if |st.vs| > 0 {
      var y := st.vs[|st.vs| - 1];
      SmallEffects(env, 0, y, st.locals, st.memory);
      assert Last(st.vs, 1) == [y] && [x][0 := y] == [y];
      assert ButLast(st.vs, 1) + [] == st.vs[..|st.vs| - 1];
    }
  }

  /** What the semantics makes of the body of the block. */
  lemma TurnMeaning(env: Env, prog: seq<Func>, fuel: nat, x: U64, memory: seq<Byte>, world: int)
    requires ValidEnv(env) && x < 2
    ensures ExecSeq(env, prog, fuel, TURN, Store([], [x], memory, world))
            == if x == 1 then Jump(1, Store([], [0], memory, world)) else Normal(Store([], [0], memory, world))
  {
    hide ValidEnv, ExecPlain, Exec;
    var t1, t2, t3 := TURN[1..], TURN[2..], TURN[3..];
    assert t1[1..] == t2 && t2[1..] == t3 && t3[1..] == [];
    var st0, st1 := Store([], [x], memory, world), Store([x], [x], memory, world);
    var st2, st3 := Store([x, 0], [x], memory, world), Store([x], [0], memory, world);
    assert [] + [x] == [x] && [x] + [0] == [x, 0] && [x, 0][..1] == [x];
    LocalMeaning(env, prog, fuel, st0, x);
    ConstMeaning(env, prog, fuel, 0, st1);
    LocalMeaning(env, prog, fuel, st2, x);
    SeqStep(env, prog, fuel, TURN, st0, st1);
    SeqStep(env, prog, fuel, t1, st1, st2);
    SeqStep(env, prog, fuel, t2, st2, st3);
    BrIfMeaning(env, prog, fuel, t3, st3, x);
  }

  lemma BrIfMeaning(env: Env, prog: seq<Func>, fuel: nat, ins: seq<Instr>, st: Store, x: U64)
    requires ValidEnv(env) && ins == [BrIf(Leb(1, [1]))] && st.vs == [x] && x < 2
    ensures ExecSeq(env, prog, fuel, ins, st) == if x == 1 then Jump(1, st.(vs := [])) else Normal(st.(vs := []))
  {
    hide ValidEnv;
    assert Last(st.vs, 1)[0] == x && ButLast(st.vs, 1) == [];
    assert ins[1..] == [];
  }

  lemma NestedMeaning(env: Env, memory: seq<Byte>, world: int)
    requires ValidEnv(env) && env.imports == 0
    ensures ExecCall(env, [NESTED_BRANCH], 2, 0, Store([1], [], memory, world)) == Normal(Store([7], [], memory, world))
  {
    hide ValidEnv, ExecSeq, Exec;
    var prog, body := [NESTED_BRANCH], NESTED_BRANCH.body;
    var st1, st0, st7 := Store([], [1], memory, world), Store([], [0], memory, world), Store([7], [0], memory, world);
    LoopMeaning(env, prog, memory, world);
    assert body[1..] == [SEVEN] && [SEVEN][1..] == [] && [] + [7] == [7];
    ConstMeaning(env, prog, 1, 7, st0);
    SeqStep(env, prog, 1, body, st1, st0);
    SeqStep(env, prog, 1, [SEVEN], st0, st7);
    assert Last([1], 1) + seq(0, _ => 0) == [1] && ButLast([1], 1) == [];
  }

  lemma LoopMeaning(env: Env, prog: seq<Func>, memory: seq<Byte>, world: int)
    requires ValidEnv(env)
    ensures Exec(env, prog, 1, Loop(VOID, [Block(VOID, TURN)]), Store([], [1], memory, world))
            == Normal(Store([], [0], memory, world))
  {
    hide ValidEnv;
    var block := Block(VOID, TURN);
    var st1, st0 := Store([], [1], memory, world), Store([], [0], memory, world);
    assert [block][1..] == [];
    var none: seq<U64> := [];
    assert none + none == none;
    TurnMeaning(env, prog, 1, 1, memory, world);
    TurnMeaning(env, prog, 0, 0, memory, world);
    hide Evaluate;
    assert Exec(env, prog, 1, block, st1) == Jump(0, st0);
    assert ExecSeq(env, prog, 1, [block], st1) == Jump(0, st0);
    assert Exec(env, prog, 0, block, st0) == Normal(st0);
    assert ExecSeq(env, prog, 0, [block], st0) == Normal(st0);
    assert ExecLoop(env, prog, 0, VOID, [block], st0) == Normal(st0);
    assert ExecLoop(env, prog, 1, VOID, [block], st1) == Normal(st0);
  }
}
