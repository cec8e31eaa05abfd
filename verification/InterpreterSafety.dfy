/** Safety of the interpreter on arbitrary bytes: every index stays in range, frames
    own disjoint windows of locals, and a callee never touches its caller's. */
module InterpreterSafety {
  import opened Words
  import opened Leb128
  import opened WasmCode
  import opened WasmFormat
  import opened Interpreter

  /** The check `locals_base + total_locals > locals.len()` can never fire: 32 frames
      of at most 32 locals fill the array exactly. */
  lemma SharedLocalsNeverOverflow(m: Machine, total: nat)
    requires Sound(m) && m.frameDepth < MAX_CALL_DEPTH && total <= MAX_LOCALS
    ensures NextLocalsBase(m) + total <= LOCAL_SLOTS
  {
    var i := m.frameDepth - 1;
    assert m.frames[i].localsBase <= i * MAX_LOCALS;
  }

  /** A machine that can take a call: a new one, one that has finished, or one that runs. */
  ghost predicate Callable(m: Machine) {
    && |m.stack| == MAX_STACK && m.sp <= MAX_STACK
    && |m.frames| == MAX_CALL_DEPTH && m.frameDepth <= MAX_CALL_DEPTH
    && |m.locals| == LOCAL_SLOTS
    && |m.labels| == MAX_LABELS && m.labelDepth <= MAX_LABELS
    && Windows(m.frames, m.frameDepth)
    && (forall i :: 0 <= i < m.frameDepth ==> m.frames[i].height <= MAX_STACK && m.frames[i].labelBase <= MAX_LABELS)
    && (forall i :: 0 <= i < MAX_LABELS ==> m.labels[i].height <= MAX_STACK)
  }

  lemma EnterKeepsSound(env: Env, m: Machine, f: nat, returnPc: nat)
    requires ValidEnv(env) && Callable(m)
    ensures EnterFunction(env, m, f, returnPc).Ok? ==>
              var m1 := EnterFunction(env, m, f, returnPc).value;
              && Sound(m1) && m1.frameDepth == m.frameDepth + 1
              && TopFrame(m1).localsBase == NextLocalsBase(m) <= LOCAL_SLOTS
              && m1.locals[..NextLocalsBase(m)] == m.locals[..NextLocalsBase(m)]
              && m1.frames[..m.frameDepth] == m.frames[..m.frameDepth]
  {
    hide Accepted, ReadU32, ReadGroups;
    var r := EnterFunction(env, m, f, returnPc);
    if r.Ok? {
      var m1 := r.value;
      var d := m.frameDepth;
      assert m1.frames[..d] == m.frames[..d];
      assert forall i :: 0 <= i < d ==> m1.frames[i] == m.frames[i];
      if d > 0 {
        assert m.frames[d - 1].localsBase <= (d - 1) * MAX_LOCALS && m.frames[d - 1].localCount <= MAX_LOCALS;
      }
      assert forall i :: 0 < i < d && Adjoins(m.frames, i) ==> Adjoins(m1.frames, i);
      assert d > 0 ==> Adjoins(m1.frames, d);
      assert Windows(m1.frames, d + 1);
    }
  }

  lemma PlainKeepsSound(env: Env, m: Machine, op: Byte)
    requires ValidEnv(env) && Sound(m) && IsPlainOp(op)
    ensures var s := StepPlain(env, m, op);
            s.Running? ==> Sound(s.m) && s.m.frames == m.frames && s.m.frameDepth == m.frameDepth
                           && s.m.locals[..TopFrame(m).localsBase] == m.locals[..TopFrame(m).localsBase]
  {
    WindowInRange(m);
    hide Evaluate, DecodeImmediates, IsPlainOp, Operands, Accepted;
    var s := StepPlain(env, m, op);
    if s.Running? {
      assert s.m.locals[..TopFrame(m).localsBase] == m.locals[..TopFrame(m).localsBase];
    }
  }

  /** If the machine goes on, it is sound, in the same frames and with the same locals. */
  ghost predicate StaysInFrame(m: Machine, s: Status) {
    s.Running? ==> Sound(s.m) && s.m.frames == m.frames && s.m.frameDepth == m.frameDepth && s.m.locals == m.locals
  }

  lemma LabelKeepsSound(m: Machine, l: Label)
    requires Sound(m) && l.height <= MAX_STACK
    ensures StaysInFrame(m, WithLabel(m, l))
  {
    hide Windows;
  }

  lemma BranchKeepsSound(m: Machine, depth: nat)
    requires Sound(m)
    ensures StaysInFrame(m, DoBranch(m, depth))
  {
    hide Windows;
  }

  lemma OpenersKeepSound(env: Env, m: Machine)
    requires Sound(m)
    ensures StaysInFrame(m, StepBlock(env, m))
    ensures StaysInFrame(m, StepLoop(env, m))
  {
    hide Windows, Skip, WithLabel;
    if m.pc < |env.code| {
      var m1 := m.(pc := m.pc + 1);
      LabelKeepsSound(m1, Label(m.pc + 1, m.sp, 0, true));
      var f := Skip(env.code, m1.pc, 1, false);
      if f.FoundEnd? {
        LabelKeepsSound(m1, Label(f.next, m.sp, Arity(env.code[m.pc]), false));
      }
    }
  }

  lemma IfKeepsSound(env: Env, m: Machine)
    requires Sound(m)
    ensures StaysInFrame(m, StepIf(env, m))
  {
    hide Windows, Skip, WithLabel;
    if m.pc < |env.code| && m.sp > 0 {
      var m1 := m.(pc := m.pc + 1, sp := m.sp - 1);
      var f, g := Skip(env.code, m1.pc, 1, false), Skip(env.code, m1.pc, 1, true);
      if f.FoundEnd? {
        var l := Label(f.next, m1.sp, Arity(env.code[m.pc]), false);
        LabelKeepsSound(m1, l);
        if g.FoundElse? { LabelKeepsSound(m1.(pc := g.next), l); }
      }
    }
  }

  lemma BranchesKeepSound(env: Env, m: Machine)
    requires Sound(m)
    ensures StaysInFrame(m, StepBr(env, m)) && StaysInFrame(m, StepBrIf(env, m)) && StaysInFrame(m, StepElse(m))
  {
    hide Windows, DoBranch, ReadU32;
    var r := ReadU32(env.code, m.pc);
    if r.Done? {
      BranchKeepsSound(m.(pc := r.next), r.value);
      if m.sp > 0 { BranchKeepsSound(m.(pc := r.next, sp := m.sp - 1), r.value); }
    }
  }

  lemma LeaveKeepsSound(m: Machine)
    requires Sound(m)
    ensures var s := LeaveFunction(m);
            && (s.Finished? ==> m.frameDepth == 1)
            && (s.Running? ==> Sound(s.m) && s.m.frameDepth == m.frameDepth - 1 && s.m.frames == m.frames
                               && s.m.locals == m.locals)
  {
    assert m.frames[m.frameDepth - 1].height <= MAX_STACK;
  }

  lemma CloseKeepsSound(m: Machine)
    requires Sound(m) && m.labelDepth > 0
    ensures StaysInFrame(m, CloseBlock(m))
  {
    hide Windows;
  }

  lemma HostKeepsSound(env: Env, m: Machine, f: nat)
    requires ValidEnv(env) && Sound(m) && f < env.imports
    ensures StaysInFrame(m, CallHost(env, m, f))
    ensures CallHost(env, m, f).Running? ==> |CallHost(env, m, f).m.memory| == |m.memory|
  {
    hide Windows;
  }

  /** What one step leaves alone: the frames below, and every local below the running
      frame's window (below the new window, when the step is a call). */
  ghost predicate LeavesCallersAlone(m: Machine, m1: Machine)
    requires Sound(m) && Sound(m1)
  {
    && m1.frameDepth <= m.frameDepth + 1 && m.frameDepth <= m1.frameDepth + 1
    && (forall i {:trigger m1.frames[i]} :: 0 <= i < m.frameDepth && i < m1.frameDepth ==> m1.frames[i] == m.frames[i])
    && (forall k {:trigger m1.locals[k]} :: 0 <= k < TopFrame(m).localsBase && k < LOCAL_SLOTS ==>
        m1.locals[k] == m.locals[k])
    && (m1.frameDepth == m.frameDepth + 1 ==>
          forall k {:trigger m1.locals[k]} :: 0 <= k < TopFrame(m1).localsBase && k < LOCAL_SLOTS ==>
              m1.locals[k] == m.locals[k])
  }

  lemma InFrameLeavesCallersAlone(m: Machine, s: Status)
    requires Sound(m) && StaysInFrame(m, s) && s.Running?
    ensures LeavesCallersAlone(m, s.m)
  {
    hide Windows;
  }

  lemma ReturnLeavesCallersAlone(m: Machine)
    requires Sound(m) && LeaveFunction(m).Running?
    ensures Sound(LeaveFunction(m).m) && LeavesCallersAlone(m, LeaveFunction(m).m)
  {
    LeaveKeepsSound(m);
    hide Windows, LeaveFunction;
  }

  lemma ExecuteKeepsSound(env: Env, m: Machine, op: Byte)
    requires ValidEnv(env) && Sound(m)
    ensures var s := Execute(env, m, op); s.Running? ==> Sound(s.m) && LeavesCallersAlone(m, s.m)
  {
    hide StepPlain, StepBlock, StepLoop, StepIf, StepElse, StepBr, StepBrIf, LeaveFunction, CloseBlock, StepCall;
    hide LeavesCallersAlone, Accepted, IsPlainOp;
    var s := Execute(env, m, op);
    if s.Running? {
      if op == BLOCK || op == LOOP { OpenersKeepSound(env, m); InFrameLeavesCallersAlone(m, s); }
      else if op == IF { IfKeepsSound(env, m); InFrameLeavesCallersAlone(m, s); }
      else if op == BR || op == BR_IF || op == ELSE { BranchesKeepSound(env, m); InFrameLeavesCallersAlone(m, s); }
      else if op == END && m.labelDepth - 1 != TopFrame(m).labelBase {
        CloseKeepsSound(m);
        InFrameLeavesCallersAlone(m, s);
      }
      else if op == END || op == RETURN { ReturnLeavesCallersAlone(m); }
      else if op == CALL { CallKeepsSound(env, m); }
      else { PlainLeavesCallersAlone(env, m, op); }
    }
  }

  lemma SoundIgnoresPc(m: Machine, pc: nat)
    requires Sound(m)
    ensures Sound(m.(pc := pc)) && TopFrame(m.(pc := pc)) == TopFrame(m)
  {
    hide Windows;
  }

  /** For any bytes whatever, valid code or not, a step of a sound machine leaves a sound
      machine, or ends it. */
  lemma StepKeepsSound(env: Env, m: Machine)
    requires ValidEnv(env) && Sound(m)
    ensures Step(env, m).Running? ==> Sound(Step(env, m).m) && LeavesCallersAlone(m, Step(env, m).m)
  {
    hide Execute, Sound, Accepted;
    if m.pc < |env.code| {
      SoundIgnoresPc(m, m.pc + 1);
      ExecuteKeepsSound(env, m.(pc := m.pc + 1), env.code[m.pc]);
    }
  }

  lemma PlainLeavesCallersAlone(env: Env, m: Machine, op: Byte)
    requires ValidEnv(env) && Sound(m) && IsPlainOp(op)
    ensures var s := StepPlain(env, m, op); s.Running? ==> Sound(s.m) && LeavesCallersAlone(m, s.m)
  {
    PlainKeepsSound(env, m, op);
    hide StepPlain, Accepted, IsPlainOp, Windows;
    var s, b := StepPlain(env, m, op), TopFrame(m).localsBase;
    if s.Running? {
      forall k | 0 <= k < b && k < LOCAL_SLOTS ensures s.m.locals[k] == m.locals[k] {
        WindowInRange(m);
        assert s.m.locals[..b][k] == m.locals[..b][k];
      }
    }
  }

  lemma CallKeepsSound(env: Env, m: Machine)
    requires ValidEnv(env) && Sound(m)
    ensures StepCall(env, m).Running? ==> Sound(StepCall(env, m).m) && LeavesCallersAlone(m, StepCall(env, m).m)
  {
    hide EnterFunction, ReadU32, Accepted, CallHost;
    var r := ReadU32(env.code, m.pc);
    if r.Done? {
      var m0 := m.(pc := r.next);
      assert Sound(m0);
      if r.value < env.imports {
        HostKeepsSound(env, m0, r.value);
      } else {
        EnterKeepsSound(env, m0, r.value, r.next);
        var e := EnterFunction(env, m0, r.value, r.next);
        hide Windows;
        if e.Ok? {
          EnterLeavesCallersAlone(m, e.value);
        }
      }
    }
  }

  lemma EnterLeavesCallersAlone(m: Machine, m1: Machine)
    requires Sound(m) && Sound(m1) && m1.frameDepth == m.frameDepth + 1 && TopFrame(m1).localsBase == NextLocalsBase(m)
    requires NextLocalsBase(m) <= LOCAL_SLOTS && m1.locals[..NextLocalsBase(m)] == m.locals[..NextLocalsBase(m)]
    requires m1.frames[..m.frameDepth] == m.frames[..m.frameDepth]
    ensures LeavesCallersAlone(m, m1)
  {
    hide Windows;
    forall i | 0 <= i < m.frameDepth ensures m1.frames[i] == m.frames[i] {
      assert m1.frames[..m.frameDepth][i] == m.frames[..m.frameDepth][i];
    }
    var b := NextLocalsBase(m);
    forall k | 0 <= k < b ensures m1.locals[k] == m.locals[k] {
      assert m1.locals[..b][k] == m.locals[..b][k];
    }
  }

  // ---------- Runs ----------

  /** `n` steps, stopping early at a result or a trap. */
  function RunN(env: Env, m: Machine, n: nat): Status
    requires ValidEnv(env) && Sound(m)
    decreases n
  {
    if n == 0 then Running(m)
    else match Step(env, m)
      case Running(m1) => StepKeepsSound(env, m); RunN(env, m1, n - 1)
      case s => s
  }

  lemma {:induction false} RunKeepsSound(env: Env, m: Machine, n: nat)
    requires ValidEnv(env) && Sound(m)
    ensures RunN(env, m, n).Running? ==> Sound(RunN(env, m, n).m)
    decreases n
  {
    hide Step, Sound;
    if n > 0 && Step(env, m).Running? {
      StepKeepsSound(env, m);
      RunKeepsSound(env, Step(env, m).m, n - 1);
    }
  }

  /** The call depth never drops below `d` in the first `n` steps. */
  ghost predicate StaysAbove(env: Env, m: Machine, n: nat, d: nat)
    requires ValidEnv(env) && Sound(m)
    decreases n
  {
    StepKeepsSound(env, m);
    && m.frameDepth >= d
    && (n > 0 && Step(env, m).Running? ==> StaysAbove(env, Step(env, m).m, n - 1, d))
  }

  /** Until the call that opened frame number `d` returns, whatever its code does, its
      callers' frames and all of their locals keep their values. */
  lemma {:induction false} CalleeNeverTouchesCallerLocals(env: Env, m: Machine, n: nat, d: nat)
    requires ValidEnv(env) && Sound(m) && 1 <= d <= m.frameDepth && StaysAbove(env, m, n, d)
    requires RunN(env, m, n).Running?
    ensures var m1 := RunN(env, m, n).m;
            && Sound(m1) && m1.frameDepth >= d
            && (forall i :: 0 <= i < d ==> m1.frames[i] == m.frames[i])
            && (forall k :: 0 <= k < m.frames[d - 1].localsBase && k < LOCAL_SLOTS ==> m1.locals[k] == m.locals[k])
    decreases n
  {
    hide Step, Windows;
    if n > 0 {
      StepKeepsSound(env, m);
      var m1 := Step(env, m).m;
      WindowsAreOrdered(m, d - 1, m.frameDepth - 1);
      assert StaysAbove(env, m1, n - 1, d);
      assert m1.frames[d - 1] == m.frames[d - 1];
      CalleeNeverTouchesCallerLocals(env, m1, n - 1, d);
    }
  }

  lemma {:induction false} WindowsAreOrdered(m: Machine, i: nat, j: nat)
    requires Sound(m) && i <= j < m.frameDepth
    ensures m.frames[i].localsBase <= m.frames[j].localsBase
    ensures i < j ==> m.frames[i].localsBase + m.frames[i].localCount <= m.frames[j].localsBase
    decreases j - i
  {
    if i < j {
      WindowsAreOrdered(m, i, j - 1);
      assert Adjoins(m.frames, j);
    }
  }

  /** A machine that has finished can be called again. */
  lemma FinishedIsCallable(env: Env, m: Machine)
    requires ValidEnv(env) && Sound(m)
    ensures Step(env, m).Finished? ==> Callable(Step(env, m).m)
  {
    hide Accepted, StepBlock, StepLoop, StepIf, StepBr, StepBrIf, StepCall, StepPlain, StepElse, CloseBlock;
    hide LeaveFunction;
    if m.pc < |env.code| {
      var m0, op := m.(pc := m.pc + 1), env.code[m.pc];
      SoundIgnoresPc(m, m.pc + 1);
      LeavingIsCallable(m0);
      OnlyEndFinishes(env, m0, op);
    }
  }

  lemma LeavingIsCallable(m: Machine)
    requires Sound(m)
    ensures Callable(m)
    ensures LeaveFunction(m).Finished? ==> Callable(LeaveFunction(m).m)
  {
    hide Windows;
    NoFrames(m.frames);
  }

  lemma NoFrames(frames: seq<Frame>)
    ensures Windows(frames, 0)
  {
  }

  lemma OnlyEndFinishes(env: Env, m: Machine, op: Byte)
    requires ValidEnv(env) && Sound(m)
    ensures Execute(env, m, op).Finished? ==> op == END || op == RETURN
    ensures !CloseBlockFinishes(m)
  {
    hide Windows, Accepted, Skip, DecodeImmediates, Evaluate, EnterFunction, ReadU32, IsPlainOp, Operands;
  }

  ghost predicate CloseBlockFinishes(m: Machine)
    requires Sound(m)
  {
    m.labelDepth > 0 && CloseBlock(m).Finished?
  }

  lemma {:induction false} RunFinishedIsCallable(env: Env, m: Machine, n: nat)
    requires ValidEnv(env) && Sound(m)
    ensures RunN(env, m, n).Finished? ==> Callable(RunN(env, m, n).m)
    decreases n
  {
    hide Step, Sound, Callable;
    if n > 0 {
      FinishedIsCallable(env, m);
      StepKeepsSound(env, m);
      if Step(env, m).Running? { RunFinishedIsCallable(env, Step(env, m).m, n - 1); }
    }
  }
}
