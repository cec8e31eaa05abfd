/** The interpreter, run on the bytes of a structured program, computes what the
    structured semantics says, or stops at one of its fixed limits. */
module Simulation {
  import opened Words
  import opened Leb128
  import opened WasmCode
  import opened Interpreter
  import opened InterpreterSafety
  import opened WasmSemantics

  /** The traps that only the interpreter's fixed sizes cause. */
  predicate IsLimit(k: TrapKind) {
    k.StackOverflow? || k.CallStackOverflow? || k.LabelStackOverflow?
  }

  // ---------- Machine states and stores ----------

  /** The labels of the running frame are those of the enclosing constructs `ctx`,
      innermost first, all opened at or below stack height `h`. */
  ghost predicate LabelsMatch(m: Machine, ctx: seq<Kind>, h: nat)
    requires Sound(m)
  {
    && |ctx| >= 1
    && TopFrame(m).labelBase + |ctx| == m.labelDepth
    && TopFrame(m).height <= h && TopFrame(m).arity <= 1
    && forall j :: 0 <= j < |ctx| ==> LabelFits(m, ctx[j], h, j)
  }

  /** Label number `j`, counted from the innermost, belongs to a construct of kind `k`. */
  ghost predicate LabelFits(m: Machine, k: Kind, h: nat, j: nat) {
    && j < m.labelDepth <= |m.labels|
    && var l := m.labels[m.labelDepth - 1 - j];
       l.height <= h && l.arity <= 1 && (l.isLoop <==> k.Back?)
  }

  ghost predicate DataMatch(m: Machine, st: Store)
    requires Sound(m)
  {
    WindowInRange(m);
    Window(m) == st.locals && m.memory == st.memory && m.world == st.world
  }

  /** The operand stack is `vs` on top of the stack `base` of the enclosing constructs. */
  ghost predicate StackIs(m: Machine, s: seq<U64>) {
    m.sp == |s| && m.sp <= |m.stack| && m.stack[..m.sp] == s
  }

  ghost predicate Match(m: Machine, base: seq<U64>, st: Store, ctx: seq<Kind>) {
    Sound(m) && StackIs(m, base + st.vs) && DataMatch(m, st) && LabelsMatch(m, ctx, |base|)
  }

  /** What execution inside a frame never changes: the frames, the open labels, the stack
      below `h` and the locals of the callers. */
  ghost predicate Keeps(m: Machine, m1: Machine, h: nat)
    requires Sound(m) && Sound(m1)
  {
    && SameFrames(m, m1)
    && m1.labelDepth == m.labelDepth && SameLabels(m, m1, m.labelDepth)
    && SameStack(m, m1, h)
  }

  ghost predicate SameFrames(m: Machine, m1: Machine)
    requires Sound(m) && Sound(m1)
  {
    && m1.frameDepth == m.frameDepth
    && m1.frames[..m.frameDepth] == m.frames[..m.frameDepth]
    && TopFrame(m1) == TopFrame(m)
    && SameLocals(m, m1, TopFrame(m).localsBase)
  }

  ghost predicate SameLocals(m: Machine, m1: Machine, b: nat) {
    b <= |m.locals| == |m1.locals| && m1.locals[..b] == m.locals[..b]
  }

  ghost predicate SameLabels(m: Machine, m1: Machine, n: nat) {
    n <= |m.labels| == |m1.labels| && m1.labels[..n] == m.labels[..n]
  }

  ghost predicate SameStack(m: Machine, m1: Machine, h: nat) {
    h <= |m.stack| == |m1.stack| && m1.stack[..h] == m.stack[..h]
  }

  /** `m1` is `m` after a branch out to label number `d` with store `st`. */
  ghost predicate AfterJump(m: Machine, m1: Machine, d: nat, st: Store)
    requires Sound(m) && d < m.labelDepth
  {
    var l := m.labels[m.labelDepth - 1 - d];
    && Sound(m1) && SameFrames(m, m1)
    && m1.pc == l.target
    && m1.labelDepth == (if l.isLoop then m.labelDepth else m.labelDepth - (d + 1))
    && SameLabels(m, m1, m1.labelDepth)
    && SameStack(m, m1, l.height)
    && DataMatch(m1, st)
    && StackIs(m1, m.stack[..l.height] + (if l.isLoop || l.arity == 0 || st.vs == [] then [] else Last(st.vs, 1)))
  }

  ghost function ResultOf(f: Frame, st: Store): seq<U64> {
    if f.arity == 0 || st.vs == [] then [] else Last(st.vs, 1)
  }

  /** `s` is what `m` becomes when its running frame returns with store `st`. */
  ghost predicate AfterReturn(m: Machine, s: Status, st: Store)
    requires Sound(m)
  {
    var f := TopFrame(m);
    if m.frameDepth == 1 then
      && s.Finished? && s.m.memory == st.memory && s.m.world == st.world
      && s.result == (if ResultOf(f, st) == [] then None else Some(ResultOf(f, st)[0]))
    else
      && s.Running? && Sound(s.m)
      && s.m.frameDepth == m.frameDepth - 1 && s.m.frames[..m.frameDepth - 1] == m.frames[..m.frameDepth - 1]
      && s.m.pc == f.returnPc
      && s.m.labelDepth == f.labelBase && SameLabels(m, s.m, f.labelBase)
      && SameStack(m, s.m, f.height) && SameLocals(m, s.m, f.localsBase)
      && StackIs(s.m, m.stack[..f.height] + ResultOf(f, st))
      && s.m.memory == st.memory && s.m.world == st.world
  }

  /** Status `s`, reached from `m`, is what result `r` asks for. A branch or a return that
      lacks its operand is left open: the construct that receives it is then stuck. */
  ghost predicate Conclude(m: Machine, s: Status, r: Result, endPc: nat, base: seq<U64>, ctx: seq<Kind>)
    requires Sound(m)
  {
    || (s.Trapped? && IsLimit(s.kind))
    || match r
       case Normal(st) => s.Running? && Match(s.m, base, st, ctx) && Keeps(m, s.m, |base|) && s.m.pc == endPc
       case Jump(d, st) =>
         && CanTarget(ctx, d) && d < m.labelDepth
         && (|st.vs| >= m.labels[m.labelDepth - 1 - d].arity || m.labels[m.labelDepth - 1 - d].isLoop ==>
               s.Running? && AfterJump(m, s.m, d, st))
       case Ret(st) => |st.vs| >= TopFrame(m).arity ==> AfterReturn(m, s, st)
       case Abort(k) => s == Trapped(k)
       case Stuck => true
       case Timeout => s.Running?
  }

  /** A stuck execution promises nothing; a limit trap satisfies everything; one that timed
      out is still going; a trap of the program is the same trap of the machine. */
  lemma ConcludeEasy(m: Machine, s: Status, r: Result, endPc: nat, base: seq<U64>, ctx: seq<Kind>)
    requires Sound(m)
    ensures r.Stuck? || (r.Timeout? && s.Running?) || (s.Trapped? && IsLimit(s.kind))
            || (r.Abort? && s == Trapped(r.kind)) ==>
            Conclude(m, s, r, endPc, base, ctx)
  {
  }

  /** Fuel is paid for in steps: unless a limit stopped the machine, an execution that
      timed out took at least `fuel` of them, and one that ended in a branch at least one. */
  ghost predicate Paid(s: Status, r: Result, n: nat, fuel: nat) {
    || (s.Trapped? && IsLimit(s.kind))
    || ((r.Timeout? ==> n >= fuel) && (r.Jump? ==> n >= 1))
  }

  /** A machine that has stopped while the execution has not, stopped at a limit. */
  lemma StoppedEarly(m: Machine, s: Status, r: Result, endPc: nat, base: seq<U64>, ctx: seq<Kind>)
    requires Sound(m) && Conclude(m, s, r, endPc, base, ctx)
    ensures r.Timeout? && !s.Running? ==> s.Trapped? && IsLimit(s.kind)
  {
    hide Sound;
  }

  // ---------- Composition ----------

  lemma {:induction false} RunSplit(env: Env, m: Machine, a: nat, b: nat)
    requires ValidEnv(env) && Sound(m)
    ensures RunN(env, m, a).Running? ==> Sound(RunN(env, m, a).m)
    ensures RunN(env, m, a + b)
            == (if RunN(env, m, a).Running? then RunKeepsSound(env, m, a); RunN(env, RunN(env, m, a).m, b)
                else RunN(env, m, a))
    decreases a
  {
    hide Step, Sound, ValidEnv;
    RunKeepsSound(env, m, a);
    if a > 0 && Step(env, m).Running? {
      StepKeepsSound(env, m);
      RunSplit(env, Step(env, m).m, a - 1, b);
    }
  }

  lemma RunOne(env: Env, m: Machine)
    requires ValidEnv(env) && Sound(m)
    ensures RunN(env, m, 1) == Step(env, m)
  {
    hide Step, Sound, ValidEnv;
    if Step(env, m).Running? {
      StepKeepsSound(env, m);
      assert RunN(env, Step(env, m).m, 0) == Running(Step(env, m).m);
    }
  }

  lemma KeepsTrans(m: Machine, m1: Machine, m2: Machine, h: nat)
    requires Sound(m) && Sound(m1) && Sound(m2) && Keeps(m, m1, h) && Keeps(m1, m2, h)
    ensures Keeps(m, m2, h)
  {
    hide Sound;
  }

  lemma PrefixOfSame(s: seq<U64>, t: seq<U64>, h: nat, k: nat)
    requires k <= h <= |s| && h <= |t| && s[..h] == t[..h]
    ensures s[..k] == t[..k]
  {
    assert s[..k] == s[..h][..k];
    assert t[..k] == t[..h][..k];
  }

  lemma LabelsPrefix(m: Machine, m1: Machine, n: nat, k: nat)
    requires SameLabels(m, m1, n) && k <= n
    ensures SameLabels(m, m1, k)
    ensures forall i :: 0 <= i < k ==> m1.labels[i] == m.labels[i]
  {
    assert m1.labels[..k] == m1.labels[..n][..k];
    assert m.labels[..k] == m.labels[..n][..k];
    forall i | 0 <= i < k ensures m1.labels[i] == m.labels[i] {
      assert m1.labels[..k][i] == m.labels[..k][i];
    }
  }

  lemma StackPrefix(m: Machine, m1: Machine, h: nat, k: nat)
    requires SameStack(m, m1, h) && k <= h
    ensures SameStack(m, m1, k)
  {
    PrefixOfSame(m1.stack, m.stack, h, k);
  }

  /** A branch from a later state of the same frame is a branch from the earlier one. */
  lemma JumpTrans(m: Machine, m1: Machine, m2: Machine, d: nat, st: Store, h: nat)
    requires Sound(m) && Sound(m1) && Keeps(m, m1, h) && d < m.labelDepth
    requires m.labels[m.labelDepth - 1 - d].height <= h
    requires AfterJump(m1, m2, d, st)
    ensures AfterJump(m, m2, d, st) && m1.labels[m1.labelDepth - 1 - d] == m.labels[m.labelDepth - 1 - d]
  {
    var i := m.labelDepth - 1 - d;
    LabelsPrefix(m, m1, m.labelDepth, m.labelDepth);
    assert m1.labels[i] == m.labels[i];
    LabelsPrefix(m, m1, m.labelDepth, m2.labelDepth);
    StackPrefix(m, m1, h, m.labels[i].height);
    hide Sound;
  }

  lemma ReturnTrans(m: Machine, m1: Machine, s: Status, st: Store, h: nat)
    requires Sound(m) && Sound(m1) && Keeps(m, m1, h) && TopFrame(m).height <= h
             && TopFrame(m).labelBase <= m.labelDepth
    requires AfterReturn(m1, s, st)
    ensures AfterReturn(m, s, st)
  {
    var f := TopFrame(m);
    StackPrefix(m, m1, h, f.height);
    LabelsPrefix(m, m1, m.labelDepth, f.labelBase);
    assert m1.frames[..m.frameDepth - 1] == m1.frames[..m.frameDepth][..m.frameDepth - 1];
    assert m.frames[..m.frameDepth - 1] == m.frames[..m.frameDepth][..m.frameDepth - 1];
    hide Sound;
  }

  lemma ConcludeTrans(m: Machine, m1: Machine, s: Status, r: Result, endPc: nat, base: seq<U64>, ctx: seq<Kind>)
    requires Sound(m) && Sound(m1) && Keeps(m, m1, |base|) && LabelsMatch(m, ctx, |base|)
    requires Conclude(m1, s, r, endPc, base, ctx)
    ensures Conclude(m, s, r, endPc, base, ctx)
  {
    if !(s.Trapped? && IsLimit(s.kind)) {
      match r
      case Normal(st) => KeepsTrans(m, m1, s.m, |base|);
      case Jump(d, st) =>
        var i := m.labelDepth - 1 - d;
        assert LabelFits(m, ctx[d], |base|, d);
        LabelsPrefix(m, m1, m.labelDepth, m.labelDepth);
        assert m1.labels[i] == m.labels[i];
        if |st.vs| >= m.labels[i].arity || m.labels[i].isLoop {
          JumpTrans(m, m1, s.m, d, st, |base|);
        }
      case Ret(st) =>
        if |st.vs| >= TopFrame(m).arity { ReturnTrans(m, m1, s, st, |base|); }
      case _ =>
    }
  }

  // ---------- Stack arithmetic ----------

  lemma TakeOperands(m: Machine, base: seq<U64>, vs: seq<U64>, n: nat)
    requires StackIs(m, base + vs) && n <= |vs|
    ensures m.stack[m.sp - n..m.sp] == Last(vs, n)
    ensures StackIs(m.(sp := m.sp - n), base + ButLast(vs, n))
  {
    var s := m.stack[..m.sp];
    assert m.stack[m.sp - n..m.sp] == s[m.sp - n..];
    assert m.stack[..m.sp - n] == s[..m.sp - n];
  }

  lemma TopOperand(m: Machine, base: seq<U64>, vs: seq<U64>)
    requires StackIs(m, base + vs) && |vs| >= 1
    ensures m.sp >= 1 && m.stack[m.sp - 1] == Last(vs, 1)[0] && Last(vs, 1) == [m.stack[m.sp - 1]]
  {
    TakeOperands(m, base, vs, 1);
    assert m.stack[m.sp - 1..m.sp][0] == m.stack[m.sp - 1];
  }

  lemma PushOnto(m: Machine, s: seq<U64>, v: U64)
    requires StackIs(m, s) && |m.stack| == MAX_STACK && Push(m, v).Ok?
    ensures StackIs(Push(m, v).value, s + [v])
    ensures SameStack(m, Push(m, v).value, |s|)
  {
    var m1 := Push(m, v).value;
    assert m1.stack[..m.sp] == m.stack[..m.sp];
    assert m1.stack[..m1.sp] == m.stack[..m.sp] + [v];
  }

  lemma CutStack(m: Machine, s: seq<U64>, h: nat)
    requires StackIs(m, s) && h <= |s|
    ensures m.stack[..h] == s[..h] && StackIs(m.(sp := h), s[..h])
  {
    assert m.stack[..h] == m.stack[..m.sp][..h];
  }

  // ---------- Plain instructions ----------

  lemma WindowOfSet(m: Machine, w: seq<U64>)
    requires 1 <= m.frameDepth <= |m.frames| && TopFrame(m).localsBase + TopFrame(m).localCount <= |m.locals|
    requires |w| == TopFrame(m).localCount
    ensures Window(SetWindow(m, w)) == w
    ensures SameLocals(m, SetWindow(m, w), TopFrame(m).localsBase)
  {
  }

  lemma PlainStep(env: Env, m: Machine, op: Byte, imm: seq<Leb>)
    requires ValidEnv(env) && Sound(m) && IsPlainOp(op) && WellSpelled(ImmediatesOf(op), imm)
    requires At(env.code, m.pc, [op] + ImmBytes(imm))
    ensures var next := m.pc + 1 + |ImmBytes(imm)|;
            && Step(env, m) == StepPlain(env, m.(pc := m.pc + 1), op)
            && DecodeImmediates(ImmediatesOf(op), env.code, m.pc + 1)
               == Decoded(if |imm| > 0 then imm[0].value else 0, if |imm| > 1 then imm[1].value else 0, next)
  {
    AtFirst(env.code, m.pc, [op] + ImmBytes(imm));
    assert ([op] + ImmBytes(imm))[1..] == ImmBytes(imm);
    ImmediatesInPlace(ImmediatesOf(op), imm, env.code, m.pc + 1);
    PlainIsNotControl(op);
    hide StepPlain, DecodeImmediates, IsPlainOp, WellSpelled;
  }

  /** A step that touches only the operand stack and the running frame's locals. */
  lemma SameControl(m: Machine, m1: Machine, ctx: seq<Kind>, h: nat)
    requires Sound(m) && Sound(m1)
    requires m1.frames == m.frames && m1.frameDepth == m.frameDepth && m1.labels == m.labels
             && m1.labelDepth == m.labelDepth
    requires SameLocals(m, m1, TopFrame(m).localsBase) && SameStack(m, m1, h) && LabelsMatch(m, ctx, h)
    ensures LabelsMatch(m1, ctx, h) && Keeps(m, m1, h)
  {
    hide Windows;
  }

  lemma SimCarryOut(m: Machine, base: seq<U64>, st: Store, ctx: seq<Kind>, n: nat, eff: Effect, next: nat, s: Status)
    requires Match(m, base, st, ctx) && n <= |st.vs|
    requires |eff.results| <= 1 && |eff.locals| == |st.locals|
    requires s == CarryOut(m, n, eff, next) && (s.Running? ==> Sound(s.m))
    ensures Conclude(m, s,
                     Normal(st.(vs := ButLast(st.vs, n) + eff.results, locals := eff.locals, memory := eff.memory)),
                     next, base, ctx)
  {
    WindowInRange(m);
    var m1 := SetWindow(m, eff.locals).(pc := next, sp := m.sp - n, memory := eff.memory);
    WindowOfSet(m, eff.locals);
    TakeOperands(m, base, st.vs, n);
    var low := base + ButLast(st.vs, n);
    assert StackIs(m1, low) && SameStack(m, m1, |base|);
    hide SetWindow, LabelsMatch, Keeps;
    if s.Running? {
      if eff.results == [] {
        assert ButLast(st.vs, n) + eff.results == ButLast(st.vs, n);
      } else {
        PushOnto(m1, low, eff.results[0]);
        assert low + [eff.results[0]] == base + (ButLast(st.vs, n) + eff.results);
        StackPrefix(m1, s.m, |low|, |base|);
      }
      SameControl(m, s.m, ctx, |base|);
      assert Window(s.m) == eff.locals;
    }
  }

  /** Decoding and operands of a plain instruction agree with the semantics. */
  lemma PlainEvaluates(env: Env, m: Machine, op: Byte, imm: seq<Leb>, st: Store, base: seq<U64>, next: nat)
    requires Sound(m) && StackIs(m, base + st.vs) && DataMatch(m, st) && IsPlainOp(op)
    requires DecodeImmediates(ImmediatesOf(op), env.code, m.pc)
             == Decoded(if |imm| > 0 then imm[0].value else 0, if |imm| > 1 then imm[1].value else 0, next)
    requires |st.vs| >= Operands(op)
    ensures var n := Operands(op);
            var a, b := if |imm| > 0 then imm[0].value else 0, if |imm| > 1 then imm[1].value else 0;
            && ((op == I32_CONST || op == I64_CONST) ==> a < U64_LIMIT)
            && var e := Evaluate(env, op, a, b, Last(st.vs, n), st.locals, st.memory);
               && (e.Ok? ==> |e.value.locals| == TopFrame(m).localCount
                             && StepPlain(env, m, op) == CarryOut(m, n, e.value, next))
               && (e.Err? ==> StepPlain(env, m, op) == Trapped(e.trap))
  {
    hide DecodeImmediates, Evaluate, CarryOut, IsPlainOp, Operands, Windows, ImmediatesOf;
    var n := Operands(op);
    TakeOperands(m, base, st.vs, n);
    WindowInRange(m);
    ConstInRange(env.code, m.pc, op);
  }

  lemma SimPlainStep(
      env: Env, m: Machine, op: Byte, imm: seq<Leb>, st: Store, base: seq<U64>, ctx: seq<Kind>, s: Status, next: nat)
    requires Match(m, base, st, ctx) && IsPlainOp(op) && Sound(m.(pc := m.pc + 1))
    requires DecodeImmediates(ImmediatesOf(op), env.code, m.pc + 1)
             == Decoded(if |imm| > 0 then imm[0].value else 0, if |imm| > 1 then imm[1].value else 0, next)
    requires s == StepPlain(env, m.(pc := m.pc + 1), op) && (s.Running? ==> Sound(s.m))
    ensures Conclude(m, s, ExecPlain(env, op, imm, st), next, base, ctx)
  {
    hide IsPlainOp, DecodeImmediates, StepPlain, Evaluate, Sound, LabelsMatch, Conclude, CarryOut;
    var n := Operands(op);
    var r := ExecPlain(env, op, imm, st);
    ConcludeEasy(m, s, r, next, base, ctx);
    if !r.Stuck? {
      PlainEvaluates(env, m.(pc := m.pc + 1), op, imm, st, base, next);
      if r.Normal? {
        var a, b := if |imm| > 0 then imm[0].value else 0, if |imm| > 1 then imm[1].value else 0;
        var eff := Evaluate(env, op, a, b, Last(st.vs, n), st.locals, st.memory).value;
        CarryOutIgnoresPc(m, n, eff, next);
        SimCarryOut(m, base, st, ctx, n, eff, next, s);
      }
    }
  }

  lemma SimPlain(env: Env, m: Machine, op: Byte, imm: seq<Leb>, st: Store, base: seq<U64>, ctx: seq<Kind>)
    requires ValidEnv(env) && Match(m, base, st, ctx) && IsPlainOp(op) && WellSpelled(ImmediatesOf(op), imm)
    requires At(env.code, m.pc, [op] + ImmBytes(imm))
    ensures Conclude(m, Step(env, m), ExecPlain(env, op, imm, st), m.pc + 1 + |ImmBytes(imm)|, base, ctx)
  {
    hide IsPlainOp, WellSpelled, At, DecodeImmediates, Step, StepPlain, ExecPlain, ValidEnv, Conclude, Windows;
    PlainStep(env, m, op, imm);
    StepKeepsSound(env, m);
    SoundIgnoresPc(m, m.pc + 1);
    SimPlainStep(env, m, op, imm, st, base, ctx, Step(env, m), m.pc + 1 + |ImmBytes(imm)|);
  }

  lemma CarryOutIgnoresPc(m: Machine, n: nat, eff: Effect, next: nat)
    requires Sound(m) && Sound(m.(pc := m.pc + 1)) && n <= m.sp && |eff.locals| == TopFrame(m).localCount
    ensures CarryOut(m.(pc := m.pc + 1), n, eff, next) == CarryOut(m, n, eff, next)
  {
    hide Windows;
  }

  // ---------- Branches and returns ----------

  lemma LabelAt(m: Machine, ctx: seq<Kind>, h: nat, d: nat)
    requires Sound(m) && LabelsMatch(m, ctx, h) && d < |ctx|
    ensures TopFrame(m).labelBase <= m.labelDepth - 1 - d
    ensures var l := m.labels[m.labelDepth - 1 - d];
            l.height <= h && l.arity <= 1 && (l.isLoop <==> ctx[d].Back?)
  {
    assert LabelFits(m, ctx[d], h, d);
  }

  lemma LoopBranchLands(m: Machine, d: nat, st: Store, base: seq<U64>, l: Label)
    requires Sound(m) && StackIs(m, base + st.vs) && DataMatch(m, st) && d < m.labelDepth
    requires l == m.labels[m.labelDepth - 1 - d] && l.isLoop && l.height <= |base|
    requires TopFrame(m).labelBase <= m.labelDepth - 1 - d
    ensures DoBranch(m, d).Running? && AfterJump(m, DoBranch(m, d).m, d, st)
  {
    hide Windows;
    BranchKeepsSound(m, d);
    WindowInRange(m);
    CutStack(m, base + st.vs, l.height);
    var m1 := m.(sp := l.height, pc := l.target);
    assert DoBranch(m, d) == Running(m1);
    assert StackIs(m1, m.stack[..l.height] + []);
  }

  lemma ForwardBranchLands(m: Machine, d: nat, st: Store, base: seq<U64>, l: Label)
    requires Sound(m) && StackIs(m, base + st.vs) && DataMatch(m, st) && d < m.labelDepth
    requires l == m.labels[m.labelDepth - 1 - d] && !l.isLoop && l.height <= |base| && l.arity <= 1
             && |st.vs| >= l.arity
    requires TopFrame(m).labelBase <= m.labelDepth - 1 - d
    ensures DoBranch(m, d).Running? && AfterJump(m, DoBranch(m, d).m, d, st)
  {
    hide Windows;
    BranchKeepsSound(m, d);
    WindowInRange(m);
    CutStack(m, base + st.vs, l.height);
    var low := m.stack[..l.height];
    var m1 := m.(sp := l.height, labelDepth := m.labelDepth - (d + 1));
    assert StackIs(m1, low);
    if l.arity > 0 {
      TopOperand(m, base, st.vs);
      PushOnto(m1, low, m.stack[m.sp - 1]);
      assert DoBranch(m, d) == Running(Push(m1, m.stack[m.sp - 1]).value.(pc := l.target));
    } else {
      assert DoBranch(m, d) == Running(m1.(pc := l.target));
      assert low + [] == low;
    }
    hide DoBranch;
  }

  lemma BranchLands(m: Machine, d: nat, st: Store, base: seq<U64>, ctx: seq<Kind>)
    requires Match(m, base, st, ctx) && CanTarget(ctx, d)
    ensures d < m.labelDepth
    ensures var l := m.labels[m.labelDepth - 1 - d];
            |st.vs| >= l.arity || l.isLoop ==> DoBranch(m, d).Running? && AfterJump(m, DoBranch(m, d).m, d, st)
  {
    LabelAt(m, ctx, |base|, d);
    hide Windows, DoBranch, AfterJump, LabelsMatch;
    var l := m.labels[m.labelDepth - 1 - d];
    if l.isLoop { LoopBranchLands(m, d, st, base, l); }
    else if |st.vs| >= l.arity { ForwardBranchLands(m, d, st, base, l); }
  }

  lemma ReturnLands(m: Machine, st: Store, base: seq<U64>, ctx: seq<Kind>)
    requires Match(m, base, st, ctx) && |st.vs| >= TopFrame(m).arity
    ensures AfterReturn(m, LeaveFunction(m), st)
  {
    hide Windows, LabelsMatch, LeaveFunction, DataMatch;
    var f := TopFrame(m);
    LabelsFacts(m, ctx, |base|);
    LeaveKeepsSound(m);
    LeaveGives(m);
    DataFacts(m, st);
    FrameFits(m);
    hide Sound;
    if f.arity > 0 {
      TopOperand(m, base, st.vs);
      var v := m.stack[m.sp - 1];
      assert m.stack[f.height := v][..f.height + 1] == m.stack[..f.height] + [v];
      assert m.stack[f.height := v][..f.height] == m.stack[..f.height];
    } else {
      assert m.stack[..f.height] + [] == m.stack[..f.height];
    }
  }

  lemma DataFacts(m: Machine, st: Store)
    requires Sound(m) && DataMatch(m, st)
    ensures m.memory == st.memory && m.world == st.world
  {
    hide Windows;
  }

  lemma FrameFits(m: Machine)
    requires Sound(m)
    ensures TopFrame(m).localsBase <= |m.locals| && TopFrame(m).labelBase <= |m.labels|
    ensures TopFrame(m).height <= |m.stack| && m.sp <= |m.stack|
  {
    WindowInRange(m);
  }

  /** The result, if there is one, replaces everything above the height of the frame. */
  lemma LeaveGives(m: Machine)
    requires Sound(m) && m.sp >= TopFrame(m).height + TopFrame(m).arity && TopFrame(m).arity <= 1
    ensures var f := TopFrame(m);
            var m1 := m.(stack := if f.arity > 0 then m.stack[f.height := m.stack[m.sp - 1]] else m.stack,
                         sp := f.height + f.arity, labelDepth := f.labelBase, frameDepth := m.frameDepth - 1);
            LeaveFunction(m) == if m.frameDepth == 1
              then Finished(if f.arity > 0 then Some(m.stack[m.sp - 1]) else None, m1)
              else Running(m1.(pc := f.returnPc))
  {
    hide Windows;
  }

  lemma LabelsFacts(m: Machine, ctx: seq<Kind>, h: nat)
    requires Sound(m) && LabelsMatch(m, ctx, h)
    ensures TopFrame(m).height <= h && TopFrame(m).arity <= 1 && TopFrame(m).labelBase <= m.labelDepth
  {
    hide Windows;
  }

  /** `AfterJump` and `AfterReturn` look at neither the pc nor the height of the start. */
  lemma StartIgnoresPc(m: Machine, m0: Machine, d: nat, s: Status, st: Store)
    requires Sound(m) && Sound(m0) && m0 == m.(pc := m0.pc, sp := m0.sp)
    ensures d < m.labelDepth && s.Running? && AfterJump(m0, s.m, d, st) ==> AfterJump(m, s.m, d, st)
    ensures AfterReturn(m0, s, st) ==> AfterReturn(m, s, st)
  {
    hide Sound;
  }

  lemma MatchIgnoresPc(m: Machine, pc: nat, base: seq<U64>, st: Store, ctx: seq<Kind>)
    requires Match(m, base, st, ctx)
    ensures Match(m.(pc := pc), base, st, ctx)
  {
    SoundIgnoresPc(m, pc);
    hide Sound;
  }

  /** The same store with its top operand taken. */
  lemma MatchPops(m: Machine, pc: nat, base: seq<U64>, st: Store, ctx: seq<Kind>)
    requires Match(m, base, st, ctx) && |st.vs| >= 1
    ensures Match(m.(pc := pc, sp := m.sp - 1), base, st.(vs := ButLast(st.vs, 1)), ctx)
    ensures m.sp >= 1 && m.stack[m.sp - 1] == Last(st.vs, 1)[0]
    ensures Keeps(m, m.(pc := pc, sp := m.sp - 1), |base|)
  {
    TakeOperands(m, base, st.vs, 1);
    TopOperand(m, base, st.vs);
    var m1 := m.(pc := pc, sp := m.sp - 1);
    assert Sound(m1) by { hide Windows; }
    WindowInRange(m);
    hide Sound;
  }

  lemma ReadsOpcode(env: Env, m: Machine, op: Byte, l: Leb)
    requires SpellsU32(l) && At(env.code, m.pc, [op] + l.bytes)
    ensures m.pc < |env.code| && env.code[m.pc] == op
    ensures ReadU32(env.code, m.pc + 1) == Done(l.value, m.pc + 1 + |l.bytes|)
  {
    AtFirst(env.code, m.pc, [op] + l.bytes);
    assert ([op] + l.bytes)[1..] == l.bytes;
    U32InPlace(l, env.code, m.pc + 1);
  }

  lemma StepBrIs(env: Env, m: Machine, l: Leb)
    requires ValidEnv(env) && Sound(m) && SpellsU32(l) && At(env.code, m.pc, [BR] + l.bytes)
    ensures var m1 := m.(pc := m.pc + 1 + |l.bytes|);
            Sound(m1) && Step(env, m) == DoBranch(m1, l.value)
  {
    hide ReadU32, DoBranch, Sound, At, SpellsU32, Step, ValidEnv;
    ReadsOpcode(env, m, BR, l);
    StepIsExecute(env, m);
    SoundIgnoresPc(m, m.pc + 1 + |l.bytes|);
  }

  lemma SimBr(env: Env, m: Machine, l: Leb, st: Store, base: seq<U64>, ctx: seq<Kind>, endPc: nat)
    requires ValidEnv(env) && Match(m, base, st, ctx) && SpellsU32(l) && CanTarget(ctx, l.value)
    requires At(env.code, m.pc, [BR] + l.bytes)
    ensures Conclude(m, Step(env, m), Jump(l.value, st), endPc, base, ctx)
  {
    hide Step, DoBranch, AfterJump, Sound, LabelsMatch, At, SpellsU32, ValidEnv;
    var m1 := m.(pc := m.pc + 1 + |l.bytes|);
    MatchIgnoresPc(m, m1.pc, base, st, ctx);
    StepBrIs(env, m, l);
    BranchLands(m1, l.value, st, base, ctx);
    StartIgnoresPc(m, m1, l.value, Step(env, m), st);
  }

  lemma StepBrIfIs(env: Env, m: Machine, l: Leb, cond: U64)
    requires ValidEnv(env) && Sound(m) && SpellsU32(l) && At(env.code, m.pc, [BR_IF] + l.bytes)
    requires m.sp >= 1 && m.stack[m.sp - 1] == cond
    ensures var m1 := m.(pc := m.pc + 1 + |l.bytes|, sp := m.sp - 1);
            && Sound(m1)
            && Step(env, m) == (if cond % U32_LIMIT != 0 then DoBranch(m1, l.value) else Running(m1))
  {
    hide ReadU32, DoBranch, Windows, At, SpellsU32, Step, ValidEnv;
    ReadsOpcode(env, m, BR_IF, l);
    StepIsExecute(env, m);
  }

  lemma SimBrIf(env: Env, m: Machine, l: Leb, st: Store, base: seq<U64>, ctx: seq<Kind>)
    requires ValidEnv(env) && Match(m, base, st, ctx) && SpellsU32(l) && CanTarget(ctx, l.value) && st.vs != []
    requires At(env.code, m.pc, [BR_IF] + l.bytes)
    ensures var st1 := st.(vs := ButLast(st.vs, 1));
            var r := if Last(st.vs, 1)[0] % U32_LIMIT != 0 then Jump(l.value, st1) else Normal(st1);
            Conclude(m, Step(env, m), r, m.pc + 1 + |l.bytes|, base, ctx)
  {
    hide Step, DoBranch, AfterJump, Sound, LabelsMatch, At, SpellsU32, ValidEnv;
    var next := m.pc + 1 + |l.bytes|;
    MatchPops(m, next, base, st, ctx);
    StepBrIfIs(env, m, l, Last(st.vs, 1)[0]);
    var m1 := m.(pc := next, sp := m.sp - 1);
    var st1 := st.(vs := ButLast(st.vs, 1));
    BranchLands(m1, l.value, st1, base, ctx);
    StartIgnoresPc(m, m1, l.value, Step(env, m), st1);
  }

  lemma SimReturn(env: Env, m: Machine, st: Store, base: seq<U64>, ctx: seq<Kind>, endPc: nat)
    requires ValidEnv(env) && Match(m, base, st, ctx) && At(env.code, m.pc, [RETURN])
    ensures Conclude(m, Step(env, m), Ret(st), endPc, base, ctx)
  {
    hide LeaveFunction, AfterReturn, AfterJump, Windows, LabelsMatch, At, Step, ValidEnv, StackIs, DataMatch;
    AtFirst(env.code, m.pc, [RETURN]);
    StepIsExecute(env, m);
    MatchIgnoresPc(m, m.pc + 1, base, st, ctx);
    var m0 := m.(pc := m.pc + 1);
    if |st.vs| >= TopFrame(m).arity {
      ReturnLands(m0, st, base, ctx);
      StartIgnoresPc(m, m0, 0, LeaveFunction(m0), st);
    }
  }

  // ---------- Blocks ----------

  /** `m1` is `m0` with one more label. */
  ghost predicate Opened(m0: Machine, m1: Machine, l: Label)
    requires Sound(m0) && Sound(m1)
  {
    && m1.stack == m0.stack && m1.sp == m0.sp
    && m1.frames == m0.frames && m1.frameDepth == m0.frameDepth
    && m1.locals == m0.locals && m1.memory == m0.memory && m1.world == m0.world
    && m1.labelDepth == m0.labelDepth + 1 && m1.labels[m0.labelDepth] == l
    && SameLabels(m0, m1, m0.labelDepth)
  }

  lemma OpenLabel(m0: Machine, l: Label)
    requires Sound(m0) && l.height <= MAX_STACK
    ensures var s := WithLabel(m0, l);
            || (s.Trapped? && IsLimit(s.kind))
            || (s.Running? && Sound(s.m) && Opened(m0, s.m, l) && s.m.pc == m0.pc)
  {
    hide Windows;
    LabelKeepsSound(m0, l);
  }

  /** Inside the new label, the operands so far belong to the enclosing stack. */
  lemma InsideMatches(m0: Machine, m1: Machine, l: Label, base: seq<U64>, st: Store, ctx: seq<Kind>)
    requires Match(m0, base, st, ctx) && Sound(m1) && Opened(m0, m1, l) && l.height == m0.sp && l.arity <= 1
    ensures Match(m1, base + st.vs, st.(vs := []), [if l.isLoop then Back else Forward] + ctx)
  {
    var k := if l.isLoop then Back else Forward;
    var ctx1 := [k] + ctx;
    assert base + st.vs + [] == base + st.vs;
    WindowInRange(m0);
    LabelsPrefix(m0, m1, m0.labelDepth, m0.labelDepth);
    forall j | 0 <= j < |ctx1| ensures LabelFits(m1, ctx1[j], m0.sp, j) {
      if j > 0 {
        LabelAt(m0, ctx, |base|, j - 1);
        assert m1.labels[m1.labelDepth - 1 - j] == m0.labels[m0.labelDepth - 1 - (j - 1)];
      }
    }
    hide Windows;
    assert LabelsMatch(m1, ctx1, |base + st.vs|);
    assert DataMatch(m1, st.(vs := []));
    assert StackIs(m1, base + st.vs + []);
  }

  /** Dropping the labels above `m0`'s own gives back `m0`'s view. */
  lemma BackOutside(m0: Machine, m1: Machine, m2: Machine, l: Label, base: seq<U64>, st0: Store, st2: Store,
        ctx: seq<Kind>)
    requires Match(m0, base, st0, ctx) && Sound(m1) && Opened(m0, m1, l)
    requires Sound(m2) && SameFrames(m1, m2) && SameStack(m1, m2, |base|)
    requires m2.labelDepth == m0.labelDepth && SameLabels(m1, m2, m0.labelDepth)
    requires DataMatch(m2, st2) && StackIs(m2, base + st2.vs)
    ensures Match(m2, base, st2, ctx) && Keeps(m0, m2, |base|)
  {
    LabelsPrefix(m0, m1, m0.labelDepth, m0.labelDepth);
    LabelsPrefix(m1, m2, m0.labelDepth, m0.labelDepth);
    forall j | 0 <= j < |ctx| ensures LabelFits(m2, ctx[j], |base|, j) {
      LabelAt(m0, ctx, |base|, j);
      assert m2.labels[m2.labelDepth - 1 - j] == m0.labels[m0.labelDepth - 1 - j];
    }
    assert m2.labels[..m0.labelDepth] == m0.labels[..m0.labelDepth];
    hide Windows;
    assert TopFrame(m2) == TopFrame(m0);
    assert LabelsMatch(m2, ctx, |base|);
    assert SameFrames(m0, m2);
    assert SameStack(m0, m2, |base|);
  }

  lemma StepIsExecute(env: Env, m: Machine)
    requires ValidEnv(env) && Sound(m) && m.pc < |env.code|
    ensures Sound(m.(pc := m.pc + 1)) && Step(env, m) == Execute(env, m.(pc := m.pc + 1), env.code[m.pc])
  {
    hide Sound, Execute, ValidEnv;
    SoundIgnoresPc(m, m.pc + 1);
  }

  lemma EndCloses(m: Machine, l: Label, base: seq<U64>, vs: seq<U64>)
    requires Sound(m) && StackIs(m, base + vs) && |vs| == l.arity <= 1 && l.height == |base| && !l.isLoop
    requires TopFrame(m).labelBase < m.labelDepth - 1 && m.labels[m.labelDepth - 1] == l
    ensures StepEnd(m) == Running(m.(labelDepth := m.labelDepth - 1))
    ensures StepElse(m) == Running(m.(labelDepth := m.labelDepth - 1, pc := l.target))
  {
    hide Windows, LeaveFunction;
    if l.arity == 1 {
      TopOperand(m, base, vs);
      assert m.stack[l.height := m.stack[m.sp - 1]] == m.stack;
    }
  }

  /** The step that closes a block: END, or the ELSE that follows a taken first part. */
  lemma CloseStep(env: Env, m: Machine, l: Label, base: seq<U64>, st: Store, arity: nat)
    requires ValidEnv(env) && Sound(m) && m.pc < |env.code|
    requires StackIs(m, base + st.vs) && |st.vs| == arity == l.arity <= 1 && l.height == |base| && !l.isLoop
    requires TopFrame(m).labelBase < m.labelDepth - 1 && m.labels[m.labelDepth - 1] == l
    requires (env.code[m.pc] == END && l.target == m.pc + 1) || env.code[m.pc] == ELSE
    ensures var s := Step(env, m);
            && s.Running? && Sound(s.m)
            && s.m == m.(pc := l.target, labelDepth := m.labelDepth - 1)
  {
    StepKeepsSound(env, m);
    StepIsExecute(env, m);
    hide Sound, ValidEnv, Step, StepEnd, StepElse;
    EndCloses(m.(pc := m.pc + 1), l, base, st.vs);
  }

  lemma ScopeNormal(
      env: Env, m0: Machine, m1: Machine, m2: Machine, l: Label, base: seq<U64>, st0: Store, st: Store, ctx: seq<Kind>)
    requires ValidEnv(env) && Match(m0, base, st0, ctx) && Sound(m1) && Opened(m0, m1, l)
    requires l.height == m0.sp && l.arity <= 1 && !l.isLoop
    requires Match(m2, base + st0.vs, st, [Forward] + ctx) && Keeps(m1, m2, |base + st0.vs|) && m2.pc < |env.code|
    requires (env.code[m2.pc] == END && l.target == m2.pc + 1) || env.code[m2.pc] == ELSE
    requires |st.vs| == l.arity
    ensures Conclude(m0, Step(env, m2), Normal(st.(vs := st0.vs + st.vs)), l.target, base, ctx)
  {
    LabelsPrefix(m1, m2, m1.labelDepth, m1.labelDepth);
    LabelsPrefix(m1, m2, m1.labelDepth, m0.labelDepth);
    assert m2.labels[m2.labelDepth - 1] == l;
    CloseStep(env, m2, l, base + st0.vs, st, l.arity);
    var m3 := Step(env, m2).m;
    hide Step, Windows, LabelsMatch;
    assert base + st0.vs + st.vs == base + (st0.vs + st.vs);
    WindowInRange(m2);
    StackPrefix(m1, m2, |base + st0.vs|, |base|);
    BackOutside(m0, m1, m3, l, base, st0, st.(vs := st0.vs + st.vs), ctx);
  }

  lemma ScopeJumpHere(m0: Machine, m1: Machine, m2: Machine, l: Label, base: seq<U64>, st0: Store, st: Store,
        ctx: seq<Kind>)
    requires Match(m0, base, st0, ctx) && Sound(m1) && Opened(m0, m1, l)
    requires l.height == m0.sp && l.arity <= 1 && !l.isLoop && |st.vs| >= l.arity
    requires AfterJump(m1, m2, 0, st)
    ensures Conclude(m0, Running(m2), Normal(st.(vs := st0.vs + Last(st.vs, l.arity))), l.target, base, ctx)
  {
    var vs := st0.vs + Last(st.vs, l.arity);
    assert m1.stack[..l.height] == base + st0.vs;
    assert base + st0.vs + Last(st.vs, l.arity) == base + vs;
    if l.arity == 0 { assert Last(st.vs, 0) == []; }
    WindowInRange(m2);
    StackPrefix(m1, m2, l.height, |base|);
    BackOutside(m0, m1, m2, l, base, st0, st.(vs := vs), ctx);
    hide Windows, LabelsMatch;
  }

  lemma ScopeJumpOut(m0: Machine, m1: Machine, m2: Machine, l: Label, base: seq<U64>, st0: Store, d: nat, st: Store,
        ctx: seq<Kind>)
    requires Match(m0, base, st0, ctx) && Sound(m1) && Opened(m0, m1, l) && d < |ctx| && d < m0.labelDepth
    requires AfterJump(m1, m2, d + 1, st) && !m0.labels[m0.labelDepth - 1 - d].isLoop
    ensures AfterJump(m0, m2, d, st)
  {
    var i := m0.labelDepth - 1 - d;
    LabelsPrefix(m0, m1, m0.labelDepth, m0.labelDepth);
    assert m1.labels[m1.labelDepth - 1 - (d + 1)] == m0.labels[i];
    LabelsPrefix(m0, m1, m0.labelDepth, m2.labelDepth);
    hide Windows, LabelsMatch;
  }

  lemma ScopeReturn(m0: Machine, m1: Machine, s: Status, l: Label, st: Store)
    requires Sound(m0) && Sound(m1) && Opened(m0, m1, l) && AfterReturn(m1, s, st)
             && TopFrame(m0).labelBase <= m0.labelDepth
    ensures AfterReturn(m0, s, st)
  {
    LabelsPrefix(m0, m1, m0.labelDepth, TopFrame(m0).labelBase);
    hide Windows;
  }

  /** The closing step is taken exactly when the body ended normally. */
  ghost predicate Closed(env: Env, s1: Status, r1: Result, s2: Status) {
    if s1.Running? && r1.Normal? then ValidEnv(env) && Sound(s1.m) && s2 == Step(env, s1.m) else s2 == s1
  }

  /** A block's body, run under its label and closed, does what `Leave` says. */
  lemma ScopeConcludes(
      env: Env, m0: Machine, m1: Machine, s1: Status, s2: Status, l: Label, r1: Result, closePc: nat,
      base: seq<U64>, st0: Store, ctx: seq<Kind>)
    requires ValidEnv(env) && Match(m0, base, st0, ctx) && Sound(m1) && Opened(m0, m1, l)
    requires l.height == m0.sp && l.arity <= 1 && !l.isLoop
    requires Conclude(m1, s1, r1, closePc, base + st0.vs, [Forward] + ctx)
    requires closePc < |env.code|
    requires (env.code[closePc] == END && l.target == closePc + 1) || env.code[closePc] == ELSE
    requires Closed(env, s1, r1, s2)
    ensures Conclude(m0, s2, Leave(st0.vs, r1, l.arity), l.target, base, ctx)
  {
    var r := Leave(st0.vs, r1, l.arity);
    ConcludeEasy(m0, s2, r, l.target, base, ctx);
    hide Step, AfterJump, AfterReturn, Keeps, LabelsMatch, Windows, Opened, ValidEnv;
    if !r.Stuck? && !(s1.Trapped? && IsLimit(s1.kind)) {
      match r1
      case Normal(st) => ScopeNormal(env, m0, m1, s1.m, l, base, st0, st, ctx);
      case Jump(d, st) => ScopeJump(m0, m1, s1, l, d, st, base, st0, ctx);
      case Ret(st) =>
        OpenedTop(m0, m1, l);
        if |st.vs| >= TopFrame(m0).arity { MatchLabelBase(m0, base, st0, ctx); ScopeReturn(m0, m1, s1, l, st); }
      case _ =>
    }
  }

  lemma OpenedTop(m0: Machine, m1: Machine, l: Label)
    requires Sound(m0) && Sound(m1) && Opened(m0, m1, l)
    ensures TopFrame(m1) == TopFrame(m0) && m1.labelDepth == m0.labelDepth + 1
    ensures m1.labels[m0.labelDepth] == l
    ensures forall i :: 0 <= i < m0.labelDepth ==> m1.labels[i] == m0.labels[i]
  {
    LabelsPrefix(m0, m1, m0.labelDepth, m0.labelDepth);
  }

  lemma MatchLabelBase(m: Machine, base: seq<U64>, st: Store, ctx: seq<Kind>)
    requires Match(m, base, st, ctx)
    ensures TopFrame(m).labelBase <= m.labelDepth
  {
  }

  lemma ScopeJump(m0: Machine, m1: Machine, s1: Status, l: Label, d: nat, st: Store,
                  base: seq<U64>, st0: Store, ctx: seq<Kind>)
    requires Match(m0, base, st0, ctx) && Sound(m1) && Opened(m0, m1, l)
    requires l.height == m0.sp && l.arity <= 1 && !l.isLoop
    requires !(s1.Trapped? && IsLimit(s1.kind))
    requires Conclude(m1, s1, Jump(d, st), 0, base + st0.vs, [Forward] + ctx)
    requires !Leave(st0.vs, Jump(d, st), l.arity).Stuck?
    ensures Conclude(m0, s1, Leave(st0.vs, Jump(d, st), l.arity), l.target, base, ctx)
  {
    hide AfterJump, AfterReturn, Keeps, Windows;
    OpenedTop(m0, m1, l);
    if d == 0 {
      ScopeJumpHere(m0, m1, s1.m, l, base, st0, st, ctx);
    } else {
      assert ([Forward] + ctx)[d] == ctx[d - 1];
      LabelAt(m0, ctx, |base|, d - 1);
      var x := m0.labels[m0.labelDepth - 1 - (d - 1)];
      assert m1.labels[m1.labelDepth - 1 - d] == x;
      if |st.vs| >= x.arity || x.isLoop {
        ScopeJumpOut(m0, m1, s1.m, l, base, st0, d - 1, st, ctx);
      }
    }
  }
}
