/** The main theorem about the interpreter: loops, calls and whole programs. */
module InterpreterCorrectness {
  import opened Words
  import opened Leb128
  import opened WasmCode
  import opened WasmFormat
  import opened Interpreter
  import opened InterpreterSafety
  import opened WasmSemantics
  import opened Simulation

  // ---------- Loops ----------

  lemma LoopEnd(
      env: Env, m0: Machine, m1: Machine, m2: Machine, l: Label, base: seq<U64>, st0: Store, st: Store, ctx: seq<Kind>)
    requires ValidEnv(env) && Match(m0, base, st0, ctx) && Sound(m1) && Opened(m0, m1, l)
    requires l.height == m0.sp && l.arity == 0 && l.isLoop
    requires Match(m2, base + st0.vs, st, [Back] + ctx) && Keeps(m1, m2, |base + st0.vs|)
    requires m2.pc < |env.code| && env.code[m2.pc] == END && |st.vs| == 0
    ensures Conclude(m0, Step(env, m2), Normal(st.(vs := st0.vs)), m2.pc + 1, base, ctx)
  {
    LabelsPrefix(m1, m2, m1.labelDepth, m1.labelDepth);
    LabelsPrefix(m1, m2, m1.labelDepth, m0.labelDepth);
    assert m2.labels[m2.labelDepth - 1] == l;
    StepKeepsSound(env, m2);
    StepIsExecute(env, m2);
    assert base + st0.vs + st.vs == base + st0.vs;
    var m3 := m2.(pc := m2.pc + 1, labelDepth := m2.labelDepth - 1);
    assert Step(env, m2) == Running(m3) by { hide Windows, LeaveFunction, Step; }
    hide Step, Windows, LabelsMatch;
    WindowInRange(m2);
    StackPrefix(m1, m2, |base + st0.vs|, |base|);
    BackOutside(m0, m1, m3, l, base, st0, st.(vs := st0.vs), ctx);
  }

  /** After a branch back, the machine stands where the loop was entered, with new data. */
  lemma LoopAgain(m0: Machine, m1: Machine, m2: Machine, l: Label, base: seq<U64>, st0: Store, st: Store,
        ctx: seq<Kind>)
    requires Match(m0, base, st0, ctx) && Sound(m1) && Opened(m0, m1, l)
    requires l == Label(m1.pc, m0.sp, 0, true)
    requires AfterJump(m1, m2, 0, st)
    ensures var m0' := m2.(labelDepth := m0.labelDepth);
            && Match(m0', base, st.(vs := st0.vs), ctx) && Keeps(m0, m0', |base|)
            && Opened(m0', m2, l) && m2.pc == m1.pc && m0'.sp == m0.sp
  {
    var m0' := m2.(labelDepth := m0.labelDepth);
    assert Sound(m0') by { hide Windows; }
    hide Windows, LabelsMatch;
    assert m1.stack[..l.height] == base + st0.vs;
    assert base + st0.vs + [] == base + st0.vs;
    LabelsPrefix(m1, m2, m1.labelDepth, m0.labelDepth);
    LabelsPrefix(m1, m2, m1.labelDepth, m1.labelDepth);
    StackPrefix(m1, m2, l.height, |base|);
    WindowInRange(m2);
    assert DataMatch(m0', st.(vs := st0.vs));
    BackOutside(m0, m1, m0', l, base, st0, st.(vs := st0.vs), ctx);
  }

  /** A loop body that does not branch back. */
  lemma LoopLeaves(
      env: Env, m0: Machine, m1: Machine, s1: Status, s2: Status, l: Label, r1: Result, closePc: nat,
      base: seq<U64>, st0: Store, ctx: seq<Kind>)
    requires ValidEnv(env) && Match(m0, base, st0, ctx) && Sound(m1) && Opened(m0, m1, l)
    requires l.height == m0.sp && l.arity == 0 && l.isLoop
    requires Conclude(m1, s1, r1, closePc, base + st0.vs, [Back] + ctx)
    requires closePc < |env.code| && env.code[closePc] == END
    requires Closed(env, s1, r1, s2) && !(r1.Jump? && r1.depth == 0)
    ensures Conclude(m0, s2, Leave(st0.vs, r1, 0), closePc + 1, base, ctx)
  {
    hide Step, Conclude, Keeps, LabelsMatch, Windows, Opened, ValidEnv, Sound, StackIs, DataMatch;
    var r := Leave(st0.vs, r1, 0);
    if r.Stuck? || (s1.Trapped? && IsLimit(s1.kind)) {
      MatchIsSound(m0, base, st0, ctx);
      ConcludeEasy(m0, s2, r, closePc + 1, base, ctx);
    } else {
      match r1
      case Normal(st) =>
        ConcludeNormal(m1, s1, st, closePc, base + st0.vs, [Back] + ctx);
        assert st0.vs + st.vs == st0.vs;
        LoopEnd(env, m0, m1, s1.m, l, base, st0, st, ctx);
      case Jump(d, st) =>
        ConcludeElsewhere(m1, s1, r1, closePc, 0, base + st0.vs, [Back] + ctx);
        LoopJumpOut(m0, m1, s1, l, d, st, base, st0, ctx);
        ConcludeElsewhere(m0, s1, r, 0, closePc + 1, base, ctx);
      case Ret(_) => PassesOut(m0, m1, s1, l, r1, closePc, closePc + 1, base, st0, [Back] + ctx, ctx);
      case Abort(_) => PassesOut(m0, m1, s1, l, r1, closePc, closePc + 1, base, st0, [Back] + ctx, ctx);
      case Timeout => PassesOut(m0, m1, s1, l, r1, closePc, closePc + 1, base, st0, [Back] + ctx, ctx);
    }
  }

  /** Returns, traps and running out of fuel pass through a construct as they are. */
  lemma PassesOut(m0: Machine, m1: Machine, s: Status, l: Label, r: Result, pc: nat, pc1: nat,
                  base: seq<U64>, st0: Store, ctx1: seq<Kind>, ctx: seq<Kind>)
    requires Match(m0, base, st0, ctx) && Sound(m1) && Opened(m0, m1, l) && !r.Normal? && !r.Jump?
    requires Conclude(m1, s, r, pc, base + st0.vs, ctx1)
    ensures Sound(m0) && Conclude(m0, s, r, pc1, base, ctx)
  {
    hide AfterReturn, Windows, LabelsMatch, StackIs, DataMatch, Opened;
    if r.Ret? && !(s.Trapped? && IsLimit(s.kind)) {
      OpenedTop(m0, m1, l);
      if |r.st.vs| >= TopFrame(m0).arity {
        MatchLabelBase(m0, base, st0, ctx);
        ScopeReturn(m0, m1, s, l, r.st);
      }
    }
  }

  lemma LoopJumpOut(m0: Machine, m1: Machine, s1: Status, l: Label, d: nat, st: Store,
                    base: seq<U64>, st0: Store, ctx: seq<Kind>)
    requires Match(m0, base, st0, ctx) && Sound(m1) && Opened(m0, m1, l) && d > 0
    requires !(s1.Trapped? && IsLimit(s1.kind))
    requires Conclude(m1, s1, Jump(d, st), 0, base + st0.vs, [Back] + ctx)
    ensures Conclude(m0, s1, Jump(d - 1, st), 0, base, ctx)
  {
    hide AfterJump, AfterReturn, Keeps, Windows;
    OpenedTop(m0, m1, l);
    assert ([Back] + ctx)[d] == ctx[d - 1];
    LabelAt(m0, ctx, |base|, d - 1);
    var x := m0.labels[m0.labelDepth - 1 - (d - 1)];
    assert m1.labels[m1.labelDepth - 1 - d] == x;
    if |st.vs| >= x.arity {
      ScopeJumpOut(m0, m1, s1.m, l, base, st0, d - 1, st, ctx);
    }
  }

  // ---------- Calls ----------

  lemma {:induction false} GroupsInPlace(decls: seq<Decl>, code: seq<Byte>, pc: nat, total: nat)
    requires (forall i :: 0 <= i < |decls| ==> SpellsU32(decls[i].count)) && At(code, pc, EncodeDecls(decls))
    ensures ReadGroups(code, pc, |decls|, total) == Decoded(total + DeclaredLocals(decls), 0, pc + |EncodeDecls(decls)|)
    decreases |decls|
  {
    hide ReadU32, SpellsU32, At;
    if decls != [] {
      var c, rest := decls[0].count, [decls[0].valtype] + EncodeDecls(decls[1..]);
      AtSplit(code, pc, c.bytes, rest);
      U32InPlace(c, code, pc);
      AtFirst(code, pc + |c.bytes|, rest);
      assert rest[1..] == EncodeDecls(decls[1..]);
      GroupsInPlace(decls[1..], code, pc + |c.bytes| + 1, total + c.value);
    }
  }

  /** Where a function's parts stand in the code. */
  lemma FuncInPlace(code: seq<Byte>, pc: nat, f: Func)
    requires WellFormedFunc(f) && At(code, pc, EncodeFunc(f))
    ensures ReadU32(code, pc) == Done(|f.decls|, pc + |f.groups.bytes|)
    ensures var start := pc + |f.groups.bytes| + |EncodeDecls(f.decls)|;
            && ReadGroups(code, pc + |f.groups.bytes|, |f.decls|, 0) == Decoded(DeclaredLocals(f.decls), 0, start)
            && At(code, start, EncodeSeq(f.body) + [END])
  {
    hide ReadU32, SpellsU32, At, ReadGroups;
    AtSplit(code, pc, f.groups.bytes, EncodeDecls(f.decls) + (EncodeSeq(f.body) + [END]));
    U32InPlace(f.groups, code, pc);
    AtSplit(code, pc + |f.groups.bytes|, EncodeDecls(f.decls), EncodeSeq(f.body) + [END]);
    GroupsInPlace(f.decls, code, pc + |f.groups.bytes|, 0);
  }

  ghost predicate Called(m: Machine, m1: Machine, f: nat, next: nat, params: nat, total: nat, arity: nat)
    requires Sound(m) && Sound(m1) && params <= m.sp
  {
    && m1.frameDepth == m.frameDepth + 1
    && m1.frames[..m.frameDepth] == m.frames[..m.frameDepth]
    && TopFrame(m1) == Frame(next, f, NextLocalsBase(m), total, m.sp - params, arity, m.labelDepth)
    && m1.labelDepth == m.labelDepth + 1 && SameLabels(m, m1, m.labelDepth)
    && m1.stack == m.stack && SameLocals(m, m1, NextLocalsBase(m))
  }

  lemma FunctionShape(env: Env, prog: seq<Func>, f: nat)
    requires Holds(env, prog) && env.imports <= f < env.imports + |prog|
    ensures var fn := prog[f - env.imports];
            && f - env.imports < |env.mod.funcTypes| && env.mod.funcTypes[f - env.imports] < |env.mod.types|
            && |FuncTypeOf(env, f).params| == fn.params && |FuncTypeOf(env, f).results| == fn.results
            && WellFormedFunc(fn) && At(env.code, BodyOf(env.mod, f - env.imports).offset, EncodeFunc(fn))
  {
    hide At, EncodeFunc, WellFormedFunc;
    var i := f - env.imports;
    assert WellFormedFunc(prog[i]);
    assert env.imports + i == f;
  }

  /** What the program says about its function number `f`. */
  lemma FunctionFacts(env: Env, prog: seq<Func>, f: nat)
    requires Holds(env, prog) && env.imports <= f < env.imports + |prog|
    ensures var fn, body := prog[f - env.imports], BodyOf(env.mod, f - env.imports);
            var start := body.offset + |fn.groups.bytes| + |EncodeDecls(fn.decls)|;
            && f - env.imports < |env.mod.funcTypes| && env.mod.funcTypes[f - env.imports] < |env.mod.types|
            && |FuncTypeOf(env, f).params| == fn.params && |FuncTypeOf(env, f).results| == fn.results <= 1
            && ReadU32(env.code, body.offset) == Done(|fn.decls|, body.offset + |fn.groups.bytes|)
            && ReadGroups(env.code, body.offset + |fn.groups.bytes|, |fn.decls|, 0)
               == Decoded(DeclaredLocals(fn.decls), 0, start)
            && At(env.code, start, EncodeSeq(fn.body) + [END])
            && WellFormedSeq(fn.body) && SupportedSeq(fn.body, [Whole])
  {
    hide ReadU32, ReadGroups, At, EncodeFunc, SpellsU32, WellFormedSeq, SupportedSeq, Holds, EncodeSeq, EncodeDecls;
    FunctionShape(env, prog, f);
    FuncInPlace(env.code, BodyOf(env.mod, f - env.imports).offset, prog[f - env.imports]);
  }

  /** What `EnterFunction` comes down to for a function of the program. */
  lemma EnterComputes(env: Env, prog: seq<Func>, m: Machine, f: nat, returnPc: nat)
    requires Holds(env, prog) && env.imports <= f < env.imports + |prog|
    requires |m.stack| == MAX_STACK && m.sp <= MAX_STACK && |m.frames| == MAX_CALL_DEPTH
    requires |m.locals| == LOCAL_SLOTS && |m.labels| == MAX_LABELS
    ensures var fn, body := prog[f - env.imports], BodyOf(env.mod, f - env.imports);
            var declared := DeclaredLocals(fn.decls);
            var start := body.offset + |fn.groups.bytes| + |EncodeDecls(fn.decls)|;
            var r := EnterFunction(env, m, f, returnPc);
            && At(env.code, start, EncodeSeq(fn.body) + [END]) && fn.results <= 1
            && if m.frameDepth >= MAX_CALL_DEPTH then r == Err(CallStackOverflow)
               else if fn.params + declared > MAX_LOCALS then r == Err(InvalidLocal)
               else if NextLocalsBase(m) + (fn.params + declared) > LOCAL_SLOTS then r == Err(InvalidLocal)
               else if m.sp < fn.params then r == Err(StackUnderflow)
               else
                 var m1 := OpenFrame(m, f, returnPc, fn.params, declared, fn.results, start);
                 r == PushLabel(m1, Label(body.offset + body.length, m1.sp, fn.results, false))
  {
    hide ReadU32, ReadGroups, At, Accepted, WellFormedFunc, EncodeFunc, OpenFrame, PushLabel, Holds;
    hide EncodeSeq, EncodeDecls, DeclaredLocals, WellFormedSeq, SupportedSeq, FuncTypeOf, BodyOf;
    FunctionFacts(env, prog, f);
  }

  lemma OpenFrameData(m: Machine, f: nat, next: nat, params: nat, declared: nat, arity: nat, start: nat)
    requires m.sp <= |m.stack| && params <= m.sp && m.frameDepth < |m.frames|
    requires NextLocalsBase(m) + params + declared <= |m.locals|
    ensures var m1, b := OpenFrame(m, f, next, params, declared, arity, start), NextLocalsBase(m);
            && |m1.locals| == |m.locals| && m1.locals[..b] == m.locals[..b]
            && m1.locals[b..b + (params + declared)] == m.stack[m.sp - params..m.sp] + seq(declared, _ => 0)
            && m1.frames[..m.frameDepth] == m.frames[..m.frameDepth]
            && m1.pc == start && m1.sp == m.sp - params && m1.labels == m.labels && m1.labelDepth == m.labelDepth
  {
  }

  /** Entering function `f` of the program: the arguments become locals of a new frame
      and the body is next. */
  lemma EnterLands(env: Env, prog: seq<Func>, m: Machine, f: nat, next: nat, base: seq<U64>, st: Store, ctx: seq<Kind>)
    requires Holds(env, prog) && Match(m, base, st, ctx) && env.imports <= f < env.imports + |prog|
    requires prog[f - env.imports].params + DeclaredLocals(prog[f - env.imports].decls) <= MAX_LOCALS
    requires |st.vs| >= prog[f - env.imports].params
    ensures var fn := prog[f - env.imports];
            var r := EnterFunction(env, m.(pc := next), f, next);
            || (r.Err? && IsLimit(r.trap))
            || (r.Ok? && Entered(m, r.value, f, next, fn, base, st)
                && At(env.code, r.value.pc, EncodeSeq(fn.body) + [END]))
  {
    hide Holds, ValidEnv, At, EnterFunction, EncodeSeq, EncodeDecls, DeclaredLocals, Windows, LabelsMatch, OpenFrame;
    hide Entered;
    var fn, body := prog[f - env.imports], BodyOf(env.mod, f - env.imports);
    var declared := DeclaredLocals(fn.decls);
    var m0 := m.(pc := next);
    SoundIgnoresPc(m, next);
    HoldsIsValid(env, prog);
    EnterComputes(env, prog, m0, f, next);
    EnterKeepsSound(env, m0, f, next);
    if m.frameDepth < MAX_CALL_DEPTH {
      SharedLocalsNeverOverflow(m, fn.params + declared);
      var start := body.offset + |fn.groups.bytes| + |EncodeDecls(fn.decls)|;
      var m1 := OpenFrame(m0, f, next, fn.params, declared, fn.results, start);
      var l := Label(body.offset + body.length, m1.sp, fn.results, false);
      OpenFrameData(m0, f, next, fn.params, declared, fn.results, start);
      if m.labelDepth < MAX_LABELS {
        FrameMatches(m, m1, l, f, next, fn, base, st);
      }
    }
  }

  lemma HoldsIsValid(env: Env, prog: seq<Func>)
    requires Holds(env, prog)
    ensures ValidEnv(env) && |prog| == |env.mod.funcTypes|
  {
  }

  /** `m1` is about to run the body of `fn`, called from `m`. */
  ghost predicate Entered(m: Machine, m1: Machine, f: nat, next: nat, fn: Func, base: seq<U64>, st: Store)
    requires Sound(m)
  {
    var declared := DeclaredLocals(fn.decls);
    && fn.params <= |st.vs| && fn.params <= m.sp && fn.results <= 1
    && Sound(m1) && Called(m, m1, f, next, fn.params, fn.params + declared, fn.results)
    && Match(m1, base + ButLast(st.vs, fn.params),
             Store([], Last(st.vs, fn.params) + seq(declared, _ => 0), st.memory, st.world), [Whole])
  }

  lemma FrameMatches(m: Machine, m1: Machine, l: Label, f: nat, next: nat, fn: Func, base: seq<U64>, st: Store)
    requires Sound(m) && StackIs(m, base + st.vs) && fn.params <= |st.vs| && fn.results <= 1
             && m.labelDepth < MAX_LABELS
    requires m.frameDepth < MAX_CALL_DEPTH
    requires NextLocalsBase(m) + fn.params + DeclaredLocals(fn.decls) <= |m.locals|
    requires m1 == OpenFrame(m.(pc := next), f, next, fn.params, DeclaredLocals(fn.decls), fn.results, m1.pc)
    requires PushLabel(m1, l).Ok? && Sound(PushLabel(m1, l).value)
    requires l.height == m1.sp && l.arity == fn.results && !l.isLoop
    requires m.memory == st.memory && m.world == st.world
    ensures Entered(m, PushLabel(m1, l).value, f, next, fn, base, st)
  {
    hide DeclaredLocals, Windows;
    var declared, params := DeclaredLocals(fn.decls), fn.params;
    var m2 := PushLabel(m1, l).value;
    var low := base + ButLast(st.vs, params);
    TakeOperands(m, base, st.vs, params);
    OpenFrameData(m.(pc := next), f, next, params, declared, fn.results, m1.pc);
    assert low + [] == low;
    assert m2.labels[m2.labelDepth - 1] == l;
    assert SameLabels(m, m2, m.labelDepth);
    assert StackIs(m2, low + []);
    WindowInRange(m2);
    assert Window(m2) == Last(st.vs, params) + seq(declared, _ => 0);
    assert LabelFits(m2, Whole, |low|, 0);
    assert LabelsMatch(m2, [Whole], |low|);
  }

  /** A return from the called function is a normal end of the call. */
  lemma CallReturns(m: Machine, m1: Machine, s: Status, f: nat, next: nat, params: nat, total: nat, arity: nat,
                    base: seq<U64>, st: Store, st1: Store, ctx: seq<Kind>)
    requires Match(m, base, st, ctx) && Sound(m1) && params <= |st.vs| && arity <= 1
    requires Called(m, m1, f, next, params, total, arity) && AfterReturn(m1, s, st1) && |st1.vs| >= arity
    ensures Conclude(m, s, Normal(st1.(vs := ButLast(st.vs, params) + Last(st1.vs, arity), locals := st.locals)),
                     next, base, ctx)
  {
    var low := base + ButLast(st.vs, params);
    TakeOperands(m, base, st.vs, params);
    var m2 := s.m;
    var d := m.frameDepth;
    assert m2.frames[..d] == m.frames[..d];
    assert TopFrame(m2) == m2.frames[..d][d - 1];
    assert TopFrame(m) == m.frames[..d][d - 1];
    assert ResultOf(TopFrame(m1), st1) == Last(st1.vs, arity);
    assert low + Last(st1.vs, arity) == base + (ButLast(st.vs, params) + Last(st1.vs, arity));
    assert m1.stack[..|low|] == low;
    LabelsPrefix(m, m1, m.labelDepth, m.labelDepth);
    LabelsPrefix(m1, m2, m.labelDepth, m.labelDepth);
    assert SameLabels(m, m2, m.labelDepth);
    CallerLocals(m, m1, m2);
    StackPrefix(m1, m2, |low|, |base|);
    hide Windows;
    forall j | 0 <= j < |ctx| ensures LabelFits(m2, ctx[j], |base|, j) {
      LabelAt(m, ctx, |base|, j);
    }
    assert LabelsMatch(m2, ctx, |base|);
    assert SameFrames(m, m2);
  }

  lemma CallerLocals(m: Machine, m1: Machine, m2: Machine)
    requires Sound(m) && Sound(m1) && Sound(m2)
    requires SameLocals(m, m1, NextLocalsBase(m)) && SameLocals(m1, m2, NextLocalsBase(m))
    requires TopFrame(m2) == TopFrame(m)
    ensures SameLocals(m, m2, TopFrame(m).localsBase)
    ensures TopFrame(m).localsBase + TopFrame(m).localCount <= LOCAL_SLOTS && Window(m2) == Window(m)
  {
    WindowInRange(m);
    WindowInRange(m2);
    var b := NextLocalsBase(m);
    assert m2.locals[..b] == m.locals[..b];
    PrefixOfSame(m2.locals, m.locals, b, TopFrame(m).localsBase);
    assert Window(m) == m.locals[..b][TopFrame(m).localsBase..];
    assert Window(m2) == m2.locals[..b][TopFrame(m).localsBase..];
  }

  lemma SimHostCall(env: Env, m: Machine, f: nat, st: Store, base: seq<U64>, ctx: seq<Kind>)
    requires ValidEnv(env) && Match(m, base, st, ctx) && f < env.imports
    ensures Conclude(m, CallHost(env, m, f), ExecHost(env, f, st), m.pc, base, ctx)
  {
    hide Windows, LabelsMatch, Keeps, StackIs, ValidEnv, Conclude;
    var s, r := CallHost(env, m, f), ExecHost(env, f, st);
    if r.Stuck? {
      ConcludeEasy(m, s, r, m.pc, base, ctx);
    } else {
      var n := HostParams(env, f);
      TakeOperands(m, base, st.vs, n);
      HostAnswers(env, m, f, n, st, base, ctx);
    }
  }

  /** The number of operands that an imported function takes. */
  ghost function HostParams(env: Env, f: nat): nat
    requires ValidEnv(env) && f < env.imports
  {
    |env.mod.types[env.mod.imports[f].typeIdx].params|
  }

  lemma HostAnswers(env: Env, m: Machine, f: nat, n: nat, st: Store, base: seq<U64>, ctx: seq<Kind>)
    requires ValidEnv(env) && Match(m, base, st, ctx) && f < env.imports && n == HostParams(env, f) <= |st.vs|
    requires n <= m.sp && m.stack[m.sp - n..m.sp] == Last(st.vs, n)
    requires StackIs(m.(sp := m.sp - n), base + ButLast(st.vs, n))
    ensures Conclude(m, CallHost(env, m, f), ExecHost(env, f, st), m.pc, base, ctx)
  {
    hide Windows, LabelsMatch, Keeps, ValidEnv;
    var s, r := CallHost(env, m, f), ExecHost(env, f, st);
    var reply := env.host(st.world, f, Last(st.vs, n), st.memory);
    var low := base + ButLast(st.vs, n);
    var m1 := m.(sp := m.sp - n, world := reply.world, memory := GiveBackMemory(m.memory, reply.memory));
    HostKeepsSound(env, m, f);
    WindowInRange(m);
    ConcludeEasy(m, s, r, m.pc, base, ctx);
    if s.Running? {
      if reply.result.value.Some? {
        var v := reply.result.value.value;
        PushOnto(m1, low, v);
        assert low + [v] == base + (ButLast(st.vs, n) + [v]);
        StackPrefix(m1, s.m, |low|, |base|);
      }
      SameControl(m, s.m, ctx, |base|);
      assert Window(s.m) == Window(m);
    }
  }

  // ---------- Which function of the machine a step calls ----------

  lemma StepBlockIs(env: Env, m: Machine, op: Byte, kind: Byte, body: seq<Instr>)
    requires ValidEnv(env) && Sound(m) && WellFormedSeq(body) && (op == BLOCK || op == LOOP)
    requires At(env.code, m.pc, [op, kind] + (EncodeSeq(body) + [END]))
    ensures var end := m.pc + 2 + |EncodeSeq(body)| + 1;
            && end <= |env.code| && env.code[end - 1] == END && At(env.code, m.pc + 2, EncodeSeq(body))
            && Step(env, m) == WithLabel(m.(pc := m.pc + 2),
                                         if op == BLOCK then Label(end, m.sp, Arity(kind), false)
                                         else Label(m.pc + 2, m.sp, 0, true))
  {
    hide Skip, At, WithLabel, Step, ValidEnv, EncodeSeq, WellFormedSeq, Windows;
    OpenBlock(env.code, m.pc, op, kind, EncodeSeq(body) + [END]);
    SkipFindsOwnEnd(env.code, m.pc + 2, body);
    AtSplit(env.code, m.pc + 2, EncodeSeq(body), [END]);
    AtFirst(env.code, m.pc + 2 + |EncodeSeq(body)|, [END]);
    StepIsExecute(env, m);
  }

  lemma StepIfIs(env: Env, m: Machine, kind: Byte, thn: seq<Instr>, cond: U64)
    requires ValidEnv(env) && Sound(m) && WellFormedSeq(thn) && m.sp >= 1 && m.stack[m.sp - 1] == cond
    requires At(env.code, m.pc, [IF, kind] + (EncodeSeq(thn) + [END]))
    ensures var end := m.pc + 2 + |EncodeSeq(thn)| + 1;
            && end <= |env.code| && env.code[end - 1] == END && At(env.code, m.pc + 2, EncodeSeq(thn))
            && Step(env, m) == (if cond % U32_LIMIT != 0
                                then WithLabel(m.(pc := m.pc + 2, sp := m.sp - 1),
                                    Label(end, m.sp - 1, Arity(kind), false))
                                else Running(m.(pc := end, sp := m.sp - 1)))
  {
    hide Skip, At, WithLabel, Step, ValidEnv, EncodeSeq, WellFormedSeq, Windows;
    OpenBlock(env.code, m.pc, IF, kind, EncodeSeq(thn) + [END]);
    SkipFindsOwnEnd(env.code, m.pc + 2, thn);
    AtSplit(env.code, m.pc + 2, EncodeSeq(thn), [END]);
    AtFirst(env.code, m.pc + 2 + |EncodeSeq(thn)|, [END]);
    StepIsExecute(env, m);
  }

  lemma StepIfElseIs(env: Env, m: Machine, kind: Byte, thn: seq<Instr>, els: seq<Instr>, cond: U64)
    requires ValidEnv(env) && Sound(m) && WellFormedSeq(thn) && WellFormedSeq(els)
    requires m.sp >= 1 && m.stack[m.sp - 1] == cond
    requires At(env.code, m.pc, [IF, kind] + (EncodeSeq(thn) + ([ELSE] + (EncodeSeq(els) + [END]))))
    ensures var elsePc := m.pc + 2 + |EncodeSeq(thn)| + 1;
            var end := elsePc + |EncodeSeq(els)| + 1;
            && end <= |env.code| && env.code[elsePc - 1] == ELSE && env.code[end - 1] == END
            && At(env.code, m.pc + 2, EncodeSeq(thn)) && At(env.code, elsePc, EncodeSeq(els))
            && Step(env, m) == WithLabel(m.(pc := if cond % U32_LIMIT != 0 then m.pc + 2 else elsePc, sp := m.sp - 1),
                                         Label(end, m.sp - 1, Arity(kind), false))
  {
    hide Skip, At, WithLabel, Step, ValidEnv, EncodeSeq, WellFormedSeq, Windows;
    var rest := [ELSE] + (EncodeSeq(els) + [END]);
    OpenBlock(env.code, m.pc, IF, kind, EncodeSeq(thn) + rest);
    SkipFindsOwnElse(env.code, m.pc + 2, thn, els);
    AtSplit(env.code, m.pc + 2, EncodeSeq(thn), rest);
    var elsePc := m.pc + 2 + |EncodeSeq(thn)| + 1;
    AtSplit(env.code, elsePc, EncodeSeq(els), [END]);
    AtFirst(env.code, elsePc + |EncodeSeq(els)|, [END]);
    StepIsExecute(env, m);
  }

  lemma StepCallIs(env: Env, m: Machine, f: Leb)
    requires ValidEnv(env) && Sound(m) && SpellsU32(f) && At(env.code, m.pc, [CALL] + f.bytes)
    ensures var next := m.pc + 1 + |f.bytes|;
            && Sound(m.(pc := next))
            && Step(env, m) == (if f.value < env.imports then CallHost(env, m.(pc := next), f.value)
                                else match EnterFunction(env, m.(pc := next), f.value, next)
                                  case Ok(m1) => Running(m1) case Err(k) => Trapped(k))
  {
    hide ReadU32, At, SpellsU32, Step, ValidEnv, EnterFunction, CallHost, Windows;
    ReadsOpcode(env, m, CALL, f);
    StepIsExecute(env, m);
    SoundIgnoresPc(m, m.pc + 1 + |f.bytes|);
  }

  // ---------- The simulation ----------

  /** Take one step, then `n` more. */
  lemma RunFrom(env: Env, m: Machine, n: nat)
    requires ValidEnv(env) && Sound(m)
    ensures Step(env, m).Running? ==> Sound(Step(env, m).m) && RunN(env, m, 1 + n) == RunN(env, Step(env, m).m, n)
    ensures !Step(env, m).Running? ==> RunN(env, m, 1 + n) == Step(env, m)
  {
    hide Step, Sound, ValidEnv;
    StepKeepsSound(env, m);
  }

  /** Take `n` steps, then one more. */
  lemma RunThen(env: Env, m: Machine, n: nat)
    requires ValidEnv(env) && Sound(m)
    ensures RunN(env, m, n).Running? ==> Sound(RunN(env, m, n).m) && RunN(env, m, n + 1) == Step(env, RunN(env, m, n).m)
  {
    hide Step, Sound, ValidEnv;
    RunSplit(env, m, n, 1);
    if RunN(env, m, n).Running? { RunOne(env, RunN(env, m, n).m); }
  }

  lemma MatchIsSound(m: Machine, base: seq<U64>, st: Store, ctx: seq<Kind>)
    requires Match(m, base, st, ctx)
    ensures Sound(m) && LabelsMatch(m, ctx, |base|) && m.sp == |base| + |st.vs| && m.sp <= MAX_STACK
  {
    hide Windows;
  }

  /** Starting elsewhere in the same frame. */
  lemma MovePc(m: Machine, pc: nat, s: Status, r: Result, endPc: nat, base: seq<U64>, st: Store, ctx: seq<Kind>)
    requires Match(m, base, st, ctx)
    requires Sound(m.(pc := pc)) && Conclude(m.(pc := pc), s, r, endPc, base, ctx)
    ensures Conclude(m, s, r, endPc, base, ctx)
  {
    MatchIsSound(m, base, st, ctx);
    assert Keeps(m, m.(pc := pc), |base|) by { hide Sound; }
    hide Conclude, Sound, LabelsMatch, Keeps;
    ConcludeTrans(m, m.(pc := pc), s, r, endPc, base, ctx);
  }

  /** The body of a block, under its label, then its closing opcode. */
  lemma {:induction false} SimScope(
      env: Env, prog: seq<Func>, fuel: nat, body: seq<Instr>, m0: Machine, l: Label, closePc: nat,
      base: seq<U64>, st0: Store, ctx: seq<Kind>) returns (n: nat)
    requires Holds(env, prog) && ValidEnv(env) && Match(m0, base, st0, ctx)
    requires WellFormedSeq(body) && SupportedSeq(body, [Forward] + ctx)
    requires l.height == m0.sp && l.arity <= 1 && !l.isLoop
    requires At(env.code, m0.pc, EncodeSeq(body)) && closePc == m0.pc + |EncodeSeq(body)| < |env.code|
    requires (env.code[closePc] == END && l.target == closePc + 1) || env.code[closePc] == ELSE
    ensures var r := Leave(st0.vs, ExecSeq(env, prog, fuel, body, st0.(vs := [])), l.arity);
            var s := WithLabel(m0, l);
            && (s.Running? ==> Sound(s.m) && Conclude(m0, RunN(env, s.m, n), r, l.target, base, ctx))
            && (s.Running? ==> Paid(RunN(env, s.m, n), r, n, fuel))
            && (!s.Running? ==> Conclude(m0, s, r, l.target, base, ctx))
    decreases fuel, 1, body, 1
  {
    hide Step, Conclude, LabelsMatch, Windows, ValidEnv, Holds, At, WithLabel, Opened, ExecSeq, EncodeSeq;
    hide WellFormedSeq, SupportedSeq, Leave, StackIs, DataMatch;
    MatchIsSound(m0, base, st0, ctx);
    OpenLabel(m0, l);
    var s := WithLabel(m0, l);
    var r1 := ExecSeq(env, prog, fuel, body, st0.(vs := []));
    var r := Leave(st0.vs, r1, l.arity);
    n := 0;
    if s.Running? {
      var m1 := s.m;
      InsideMatches(m0, m1, l, base, st0, ctx);
      var n1 := SimSeq(env, prog, fuel, body, st0.(vs := []), m1, base + st0.vs, [Forward] + ctx);
      RunThen(env, m1, n1);
      var s1 := RunN(env, m1, n1);
      n := if s1.Running? && r1.Normal? then n1 + 1 else n1;
      ScopeConcludes(env, m0, m1, s1, RunN(env, m1, n), l, r1, closePc, base, st0, ctx);
      LeavePays(st0.vs, r1, l.arity);
    } else {
      ConcludeEasy(m0, s, r, l.target, base, ctx);
    }
  }

  /** Leaving a block neither starts a branch nor uses fuel. */
  lemma LeavePays(outer: seq<U64>, r: Result, arity: nat)
    ensures Leave(outer, r, arity).Jump? ==> r.Jump?
    ensures Leave(outer, r, arity).Timeout? ==> r.Timeout?
  {
  }

  lemma {:induction false} SimSeq(
      env: Env, prog: seq<Func>, fuel: nat, ins: seq<Instr>, st: Store, m: Machine, base: seq<U64>, ctx: seq<Kind>)
      returns (n: nat)
    requires Holds(env, prog) && ValidEnv(env) && Match(m, base, st, ctx)
    requires WellFormedSeq(ins) && SupportedSeq(ins, ctx) && At(env.code, m.pc, EncodeSeq(ins))
    ensures Sound(m)
    ensures Conclude(m, RunN(env, m, n), ExecSeq(env, prog, fuel, ins, st), m.pc + |EncodeSeq(ins)|, base, ctx)
    ensures Paid(RunN(env, m, n), ExecSeq(env, prog, fuel, ins, st), n, fuel)
    decreases fuel, 1, ins, 0
  {
    hide Step, Conclude, LabelsMatch, Windows, ValidEnv, Holds, At, StackIs, DataMatch, Exec, Encode, Sound;
    MatchIsSound(m, base, st, ctx);
    var endPc := m.pc + |EncodeSeq(ins)|;
    if ins == [] {
      n := 0;
      ConcludeHere(m, base, st, ctx);
    } else {
      AtSplit(env.code, m.pc, Encode(ins[0]), EncodeSeq(ins[1..]));
      var n1 := SimInstr(env, prog, fuel, ins[0], st, m, base, ctx);
      var r1 := Exec(env, prog, fuel, ins[0], st);
      var s1 := RunN(env, m, n1);
      if s1.Trapped? && IsLimit(s1.kind) {
        n := n1;
        ConcludeEasy(m, s1, ExecSeq(env, prog, fuel, ins, st), endPc, base, ctx);
      } else if r1.Normal? {
        ConcludeNormal(m, s1, r1.st, m.pc + |Encode(ins[0])|, base, ctx);
        var n2 := SimSeq(env, prog, fuel, ins[1..], r1.st, s1.m, base, ctx);
        RunSplit(env, m, n1, n2);
        n := n1 + n2;
        ConcludeTrans(m, s1.m, RunN(env, m, n), ExecSeq(env, prog, fuel, ins, st), endPc, base, ctx);
      } else {
        n := n1;
        ConcludeElsewhere(m, s1, r1, m.pc + |Encode(ins[0])|, endPc, base, ctx);
      }
    }
  }

  lemma ConcludeHere(m: Machine, base: seq<U64>, st: Store, ctx: seq<Kind>)
    requires Match(m, base, st, ctx)
    ensures Conclude(m, Running(m), Normal(st), m.pc, base, ctx)
  {
    hide Windows, LabelsMatch, DataMatch;
    assert SameLocals(m, m, TopFrame(m).localsBase) by { WindowInRange(m); }
  }

  lemma ConcludeNormal(m: Machine, s: Status, st: Store, pc: nat, base: seq<U64>, ctx: seq<Kind>)
    requires Sound(m) && Conclude(m, s, Normal(st), pc, base, ctx) && !(s.Trapped? && IsLimit(s.kind))
    ensures s.Running? && Match(s.m, base, st, ctx) && Sound(s.m) && Keeps(m, s.m, |base|) && s.m.pc == pc
  {
  }

  /** Only a normal end depends on where the code ends. */
  lemma ConcludeElsewhere(m: Machine, s: Status, r: Result, pc: nat, pc1: nat, base: seq<U64>, ctx: seq<Kind>)
    requires Sound(m) && Conclude(m, s, r, pc, base, ctx) && !r.Normal?
    ensures Conclude(m, s, r, pc1, base, ctx)
  {
    hide Sound;
  }

  lemma {:induction false} SimLoop(
      env: Env, prog: seq<Func>, fuel: nat, body: seq<Instr>, m0: Machine, m1: Machine, l: Label,
      base: seq<U64>, st: Store, ctx: seq<Kind>) returns (n: nat)
    requires Holds(env, prog) && ValidEnv(env) && Match(m0, base, st, ctx) && Sound(m1) && Opened(m0, m1, l)
    requires l == Label(m1.pc, m0.sp, 0, true)
    requires WellFormedSeq(body) && SupportedSeq(body, [Back] + ctx)
    requires At(env.code, m1.pc, EncodeSeq(body)) && m1.pc + |EncodeSeq(body)| < |env.code|
    requires env.code[m1.pc + |EncodeSeq(body)|] == END
    ensures Conclude(m0, RunN(env, m1, n), ExecLoop(env, prog, fuel, VOID, body, st), m1.pc + |EncodeSeq(body)| + 1,
            base, ctx)
    ensures Paid(RunN(env, m1, n), ExecLoop(env, prog, fuel, VOID, body, st), n, fuel)
    decreases fuel, 1, body, 2
  {
    hide Step, Conclude, LabelsMatch, Windows, ValidEnv, Holds, At, StackIs, DataMatch, ExecSeq, EncodeSeq, Opened;
    hide WellFormedSeq, SupportedSeq, Sound, AfterJump, Keeps;
    MatchIsSound(m0, base, st, ctx);
    var closePc := m1.pc + |EncodeSeq(body)|;
    InsideMatches(m0, m1, l, base, st, ctx);
    var r1 := ExecSeq(env, prog, fuel, body, st.(vs := []));
    var r := ExecLoop(env, prog, fuel, VOID, body, st);
    var n1 := SimSeq(env, prog, fuel, body, st.(vs := []), m1, base + st.vs, [Back] + ctx);
    var s1 := RunN(env, m1, n1);
    RunThen(env, m1, n1);
    if s1.Trapped? && IsLimit(s1.kind) {
      n := n1;
      ConcludeEasy(m0, s1, r, closePc + 1, base, ctx);
    } else if r1.Jump? && r1.depth == 0 {
      BackJump(m0, m1, s1, l, r1.st, closePc, base + st.vs, [Back] + ctx);
      if fuel == 0 {
        n := n1;
        ConcludeEasy(m0, s1, r, closePc + 1, base, ctx);
      } else {
        LoopAgain(m0, m1, s1.m, l, base, st, r1.st, ctx);
        var m0' := s1.m.(labelDepth := m0.labelDepth);
        MatchIsSound(m0', base, r1.st.(vs := st.vs), ctx);
        var n2 := SimLoop(env, prog, fuel - 1, body, m0', s1.m, l, base, r1.st.(vs := st.vs), ctx);
        RunSplit(env, m1, n1, n2);
        n := n1 + n2;
        ConcludeTrans(m0, m0', RunN(env, m1, n), r, closePc + 1, base, ctx);
      }
    } else {
      n := if s1.Running? && r1.Normal? then n1 + 1 else n1;
      LoopLeaves(env, m0, m1, s1, RunN(env, m1, n), l, r1, closePc, base, st, ctx);
    }
  }

  lemma BackJump(m0: Machine, m1: Machine, s1: Status, l: Label, st: Store, pc: nat, base: seq<U64>, ctx: seq<Kind>)
    requires Sound(m0) && Sound(m1) && Opened(m0, m1, l) && l.isLoop
    requires Conclude(m1, s1, Jump(0, st), pc, base, ctx)
    requires !(s1.Trapped? && IsLimit(s1.kind))
    ensures s1.Running? && AfterJump(m1, s1.m, 0, st) && Sound(s1.m)
  {
    OpenedTop(m0, m1, l);
    hide Windows, Opened;
  }

  /** END of a function body is a return. */
  lemma BodyEnd(env: Env, m1: Machine, m2: Machine, base: seq<U64>, st: Store)
    requires ValidEnv(env) && Sound(m1) && Match(m2, base, st, [Whole]) && Keeps(m1, m2, |base|)
    requires m2.pc < |env.code| && env.code[m2.pc] == END && |st.vs| >= TopFrame(m1).arity
    ensures AfterReturn(m1, Step(env, m2), st)
  {
    hide Step, Windows, ValidEnv, AfterReturn, LeaveFunction;
    var m3 := m2.(pc := m2.pc + 1);
    StepIsExecute(env, m2);
    MatchIgnoresPc(m2, m2.pc + 1, base, st, [Whole]);
    assert Step(env, m2) == LeaveFunction(m3);
    ReturnLands(m3, st, base, [Whole]);
    StartIgnoresPc(m2, m3, 0, LeaveFunction(m3), st);
    ReturnTrans(m1, m2, Step(env, m2), st, |base|);
  }

  /** From the body of the called function back to its caller. */
  lemma CallConcludes(
      env: Env, m: Machine, m1: Machine, s1: Status, s2: Status, r1: Result, f: nat, next: nat, fn: Func, closePc: nat,
      base: seq<U64>, st: Store, ctx: seq<Kind>)
    requires ValidEnv(env) && Match(m, base, st, ctx) && Entered(m, m1, f, next, fn, base, st)
    requires Conclude(m1, s1, r1, closePc, base + ButLast(st.vs, fn.params), [Whole])
    requires closePc < |env.code| && env.code[closePc] == END && Closed(env, s1, r1, s2)
    ensures Conclude(m, s2, LeaveCall(ButLast(st.vs, fn.params), st.locals, r1, fn.results), next, base, ctx)
  {
    hide Step, AfterJump, AfterReturn, Keeps, LabelsMatch, Windows, ValidEnv, DeclaredLocals, StackIs, DataMatch;
    var r := LeaveCall(ButLast(st.vs, fn.params), st.locals, r1, fn.results);
    ConcludeEasy(m, s2, r, next, base, ctx);
    if !r.Stuck? && !(s1.Trapped? && IsLimit(s1.kind)) {
      var total := fn.params + DeclaredLocals(fn.decls);
      match r1
      case Normal(st1) =>
        BodyEnd(env, m1, s1.m, base + ButLast(st.vs, fn.params), st1);
        assert Last(st1.vs, fn.results) == st1.vs;
        CallReturns(m, m1, s2, f, next, fn.params, total, fn.results, base, st, st1, ctx);
      case Ret(st1) =>
        CallReturns(m, m1, s2, f, next, fn.params, total, fn.results, base, st, st1, ctx);
      case _ =>
    }
  }

  /** A call of a local function: enter, run the body, come back. */
  lemma {:induction false} SimLocalCall(
      env: Env, prog: seq<Func>, fuel: nat, f: nat, next: nat, m: Machine, base: seq<U64>, st: Store, ctx: seq<Kind>)
      returns (n: nat)
    requires Holds(env, prog) && ValidEnv(env) && Match(m, base, st, ctx) && env.imports <= f
    ensures Sound(m)
    ensures var r := ExecCall(env, prog, fuel, f, st);
            match EnterFunction(env, m.(pc := next), f, next)
            case Err(k) => Conclude(m, Trapped(k), r, next, base, ctx)
            case Ok(m1) => Sound(m1) && Conclude(m, RunN(env, m1, n), r, next, base, ctx)
                           && Paid(RunN(env, m1, n), r, n + 1, fuel)
    decreases fuel, 0, 0
  {
    hide Step, Conclude, LabelsMatch, Windows, ValidEnv, Holds, At, StackIs, DataMatch, ExecSeq, EncodeSeq;
    hide EnterFunction;
    hide Called, DeclaredLocals, LeaveCall, Entered, WellFormedSeq, SupportedSeq, Match, ReadGroups, ReadU32;
    MatchIsSound(m, base, st, ctx);
    HoldsIsValid(env, prog);
    var r := ExecCall(env, prog, fuel, f, st);
    EnterOutcome(env, prog, m, f, next);
    var e := EnterFunction(env, m.(pc := next), f, next);
    n := 0;
    if e.Err? { ConcludeEasy(m, Trapped(e.trap), r, next, base, ctx); }
    if e.Ok? && (r.Stuck? || r.Timeout?) { ConcludeEasy(m, RunN(env, e.value, 0), r, next, base, ctx); }
    if f - env.imports < |prog| {
      var fn := prog[f - env.imports];
      if fn.params + DeclaredLocals(fn.decls) <= MAX_LOCALS && |st.vs| >= fn.params && fuel > 0 {
        EnterLands(env, prog, m, f, next, base, st, ctx);
        if e.Ok? {
          n := SimBody(env, prog, fuel, f, next, fn, m, e.value, base, st, ctx);
        }
      }
    }
  }

  /** The outcomes of entering, for any function index. */
  lemma EnterOutcome(env: Env, prog: seq<Func>, m: Machine, f: nat, next: nat)
    requires Holds(env, prog) && ValidEnv(env) && Sound(m) && env.imports <= f
    ensures var e := EnterFunction(env, m.(pc := next), f, next);
            && (e.Ok? ==> Sound(e.value) && f - env.imports < |prog|)
            && (e.Err? && !IsLimit(e.trap) ==>
                  || (e.trap == InvalidFunction && f - env.imports >= |prog|)
                  || (f - env.imports < |prog|
                      && var fn := prog[f - env.imports];
                         || (e.trap == InvalidLocal && fn.params + DeclaredLocals(fn.decls) > MAX_LOCALS)
                         || (e.trap == StackUnderflow && m.sp < fn.params
                             && fn.params + DeclaredLocals(fn.decls) <= MAX_LOCALS)))
            && (e.Ok? ==> prog[f - env.imports].params + DeclaredLocals(prog[f - env.imports].decls) <= MAX_LOCALS)
  {
    hide Holds, Windows, DeclaredLocals, At, EncodeSeq, EncodeDecls, OpenFrame, ReadU32, ReadGroups, Accepted;
    HoldsIsValid(env, prog);
    var m0 := m.(pc := next);
    SoundIgnoresPc(m, next);
    EnterKeepsSound(env, m0, f, next);
    if f - env.imports < |prog| {
      hide EnterFunction, ValidEnv;
      var total := prog[f - env.imports].params + DeclaredLocals(prog[f - env.imports].decls);
      EnterComputes(env, prog, m0, f, next);
      if m.frameDepth < MAX_CALL_DEPTH && total <= MAX_LOCALS { SharedLocalsNeverOverflow(m, total); }
    }
  }

  lemma EnteredFacts(m: Machine, m1: Machine, f: nat, next: nat, fn: Func, base: seq<U64>, st: Store)
    requires Sound(m) && Entered(m, m1, f, next, fn, base, st)
    ensures Sound(m1) && fn.params <= |st.vs|
    ensures Match(m1, base + ButLast(st.vs, fn.params),
                  Store([], Last(st.vs, fn.params) + seq(DeclaredLocals(fn.decls), _ => 0), st.memory, st.world),
                      [Whole])
  {
    hide Sound, DeclaredLocals;
  }

  lemma {:induction false} SimBody(
      env: Env, prog: seq<Func>, fuel: nat, f: nat, next: nat, fn: Func, m: Machine, m1: Machine,
      base: seq<U64>, st: Store, ctx: seq<Kind>) returns (n: nat)
    requires Holds(env, prog) && ValidEnv(env) && Match(m, base, st, ctx) && fuel > 0
    requires env.imports <= f < env.imports + |prog| && fn == prog[f - env.imports] && fn.params <= |st.vs|
    requires fn.params + DeclaredLocals(fn.decls) <= MAX_LOCALS
    requires Entered(m, m1, f, next, fn, base, st) && At(env.code, m1.pc, EncodeSeq(fn.body) + [END])
    ensures Sound(m1) && Sound(m)
    ensures Conclude(m, RunN(env, m1, n), ExecCall(env, prog, fuel, f, st), next, base, ctx)
    ensures Paid(RunN(env, m1, n), ExecCall(env, prog, fuel, f, st), n + 1, fuel)
    decreases fuel - 1, 2
  {
    hide Step, Conclude, LabelsMatch, Windows, ValidEnv, Holds, At, StackIs, DataMatch, ExecSeq, EncodeSeq, Entered;
    hide Called, DeclaredLocals, LeaveCall, WellFormedSeq, SupportedSeq, Sound, ReadGroups, ReadU32, EncodeDecls;
    MatchIsSound(m, base, st, ctx);
    EnteredFacts(m, m1, f, next, fn, base, st);
    FunctionFacts(env, prog, f);
    var low := base + ButLast(st.vs, fn.params);
    var st1 := Store([], Last(st.vs, fn.params) + seq(DeclaredLocals(fn.decls), _ => 0), st.memory, st.world);
    AtSplit(env.code, m1.pc, EncodeSeq(fn.body), [END]);
    var closePc := m1.pc + |EncodeSeq(fn.body)|;
    AtFirst(env.code, closePc, [END]);
    var n1 := SimSeq(env, prog, fuel - 1, fn.body, st1, m1, low, [Whole]);
    var s1 := RunN(env, m1, n1);
    RunThen(env, m1, n1);
    var r1 := ExecSeq(env, prog, fuel - 1, fn.body, st1);
    n := if s1.Running? && r1.Normal? then n1 + 1 else n1;
    CallConcludes(env, m, m1, s1, RunN(env, m1, n), r1, f, next, fn, closePc, base, st, ctx);
    LeaveCallPays(ButLast(st.vs, fn.params), st.locals, r1, fn.results);
  }

  lemma LeaveCallPays(outer: seq<U64>, locals: seq<U64>, r: Result, results: nat)
    ensures LeaveCall(outer, locals, r, results).Timeout? ==> r.Timeout?
  {
  }

  lemma {:induction false} SimCall(
      env: Env, prog: seq<Func>, fuel: nat, f: Leb, m: Machine, base: seq<U64>, st: Store, ctx: seq<Kind>)
          returns (n: nat)
    requires Holds(env, prog) && ValidEnv(env) && Match(m, base, st, ctx) && SpellsU32(f)
    requires At(env.code, m.pc, [CALL] + f.bytes)
    ensures Sound(m)
    ensures Conclude(m, RunN(env, m, n), ExecCall(env, prog, fuel, f.value, st), m.pc + 1 + |f.bytes|, base, ctx)
    ensures Paid(RunN(env, m, n), ExecCall(env, prog, fuel, f.value, st), n, fuel)
    decreases fuel, 0, 1
  {
    hide Step, Conclude, LabelsMatch, Windows, ValidEnv, Holds, At, StackIs, DataMatch, EnterFunction, Sound, CallHost;
    hide ExecHost, SpellsU32;
    MatchIsSound(m, base, st, ctx);
    StepCallIs(env, m, f);
    var next := m.pc + 1 + |f.bytes|;
    MatchIgnoresPc(m, next, base, st, ctx);
    if f.value < env.imports {
      n := 1;
      RunOne(env, m);
      SimHostCall(env, m.(pc := next), f.value, st, base, ctx);
      MovePc(m, next, Step(env, m), ExecCall(env, prog, fuel, f.value, st), next, base, st, ctx);
      HostEnds(env, f.value, st);
    } else {
      var n1 := SimLocalCall(env, prog, fuel, f.value, next, m, base, st, ctx);
      RunFrom(env, m, n1);
      n := 1 + n1;
      if !Step(env, m).Running? {
        StoppedEarly(m, Step(env, m), ExecCall(env, prog, fuel, f.value, st), next, base, ctx);
      }
    }
  }

  lemma HostEnds(env: Env, f: nat, st: Store)
    requires ValidEnv(env) && f < env.imports
    ensures !ExecHost(env, f, st).Timeout? && !ExecHost(env, f, st).Jump?
  {
    hide ValidEnv;
  }

  lemma PlainEnds(env: Env, op: Byte, imm: seq<Leb>, st: Store)
    requires IsPlainOp(op)
    ensures !ExecPlain(env, op, imm, st).Timeout? && !ExecPlain(env, op, imm, st).Jump?
  {
    hide Evaluate, IsPlainOp, Operands;
  }

  /** One structured instruction, from its first byte to its end. */
  lemma {:induction false} SimInstr(
      env: Env, prog: seq<Func>, fuel: nat, i: Instr, st: Store, m: Machine, base: seq<U64>, ctx: seq<Kind>)
      returns (n: nat)
    requires Holds(env, prog) && ValidEnv(env) && Match(m, base, st, ctx)
    requires WellFormed(i) && Supported(i, ctx) && At(env.code, m.pc, Encode(i))
    ensures Sound(m)
    ensures Conclude(m, RunN(env, m, n), Exec(env, prog, fuel, i, st), m.pc + |Encode(i)|, base, ctx)
    ensures Paid(RunN(env, m, n), Exec(env, prog, fuel, i, st), n, fuel)
    decreases fuel, 1, i, 1
  {
    hide Step, Conclude, LabelsMatch, Windows, ValidEnv, Holds, At, StackIs, DataMatch, Sound, ExecSeq, EncodeSeq;
    hide ExecCall, ExecLoop, ExecPlain, SpellsU32, WellFormedSeq, SupportedSeq, Leave, WithLabel, IsPlainOp;
    hide WellSpelled;
    hide CanTarget;
    MatchIsSound(m, base, st, ctx);
    RunOne(env, m);
    n := 1;
    match i
    case Plain(op, imm) =>
      SimPlain(env, m, op, imm, st, base, ctx);
      PlainEnds(env, op, imm, st);
    case Unreachable => SimUnreachable(env, m, st, base, ctx, m.pc + 1);
    case Br(l) => SimBr(env, m, l, st, base, ctx, m.pc + |Encode(i)|);
    case BrIf(l) =>
      if st.vs == [] { ConcludeEasy(m, Step(env, m), Stuck, m.pc + |Encode(i)|, base, ctx); }
      else { SimBrIf(env, m, l, st, base, ctx); }
    case Return => SimReturn(env, m, st, base, ctx, m.pc + 1);
    case Call(f) => n := SimCall(env, prog, fuel, f, m, base, st, ctx);
    case Block(kind, body) => n := SimBlock(env, prog, fuel, kind, body, m, base, st, ctx);
    case Loop(kind, body) => n := SimLoopInstr(env, prog, fuel, kind, body, m, base, st, ctx);
    case If(kind, thn) =>
      if st.vs == [] { ConcludeEasy(m, Step(env, m), Stuck, m.pc + |Encode(i)|, base, ctx); }
      else { n := SimIf(env, prog, fuel, kind, thn, m, base, st, ctx); }
    case IfElse(kind, thn, els) =>
      if st.vs == [] { ConcludeEasy(m, Step(env, m), Stuck, m.pc + |Encode(i)|, base, ctx); }
      else { n := SimIfElse(env, prog, fuel, kind, thn, els, m, base, st, ctx); }
  }

  lemma SimUnreachable(env: Env, m: Machine, st: Store, base: seq<U64>, ctx: seq<Kind>, endPc: nat)
    requires ValidEnv(env) && Match(m, base, st, ctx) && At(env.code, m.pc, [UNREACHABLE])
    ensures Conclude(m, Step(env, m), Abort(TrapUnreachable), endPc, base, ctx)
  {
    hide Step, Conclude, ValidEnv, Sound;
    AtFirst(env.code, m.pc, [UNREACHABLE]);
    StepIsExecute(env, m);
    ConcludeEasy(m, Step(env, m), Abort(TrapUnreachable), endPc, base, ctx);
  }

  lemma {:induction false} SimBlock(
      env: Env, prog: seq<Func>, fuel: nat, kind: Byte, body: seq<Instr>, m: Machine,
      base: seq<U64>, st: Store, ctx: seq<Kind>) returns (n: nat)
    requires Holds(env, prog) && ValidEnv(env) && Match(m, base, st, ctx)
    requires WellFormedSeq(body) && SupportedSeq(body, [Forward] + ctx)
    requires At(env.code, m.pc, [BLOCK, kind] + (EncodeSeq(body) + [END]))
    ensures Sound(m)
    ensures Conclude(m, RunN(env, m, n),
                     Leave(st.vs, ExecSeq(env, prog, fuel, body, st.(vs := [])), Arity(kind)),
                     m.pc + 2 + |EncodeSeq(body)| + 1, base, ctx)
    ensures Paid(RunN(env, m, n), Leave(st.vs, ExecSeq(env, prog, fuel, body, st.(vs := [])), Arity(kind)), n, fuel)
    decreases fuel, 1, body, 3
  {
    hide Step, Conclude, LabelsMatch, Windows, ValidEnv, Holds, At, StackIs, DataMatch, Sound, ExecSeq, EncodeSeq;
    hide WellFormedSeq, SupportedSeq, Leave, WithLabel;
    MatchIsSound(m, base, st, ctx);
    StepBlockIs(env, m, BLOCK, kind, body);
    var m0, end := m.(pc := m.pc + 2), m.pc + 2 + |EncodeSeq(body)| + 1;
    MatchIgnoresPc(m, m.pc + 2, base, st, ctx);
    var l := Label(end, m.sp, Arity(kind), false);
    var n1 := SimScope(env, prog, fuel, body, m0, l, end - 1, base, st, ctx);
    RunFrom(env, m, n1);
    n := 1 + n1;
    var r := Leave(st.vs, ExecSeq(env, prog, fuel, body, st.(vs := [])), Arity(kind));
    MovePc(m, m.pc + 2, RunN(env, m, n), r, end, base, st, ctx);
    if !Step(env, m).Running? { StoppedEarly(m, Step(env, m), r, end, base, ctx); }
  }

  lemma {:induction false} SimLoopInstr(
      env: Env, prog: seq<Func>, fuel: nat, kind: Byte, body: seq<Instr>, m: Machine,
      base: seq<U64>, st: Store, ctx: seq<Kind>) returns (n: nat)
    requires Holds(env, prog) && ValidEnv(env) && Match(m, base, st, ctx)
    requires WellFormedSeq(body) && SupportedSeq(body, [Back] + ctx) && kind == VOID
    requires At(env.code, m.pc, [LOOP, kind] + (EncodeSeq(body) + [END]))
    ensures Sound(m)
    ensures Conclude(m, RunN(env, m, n), ExecLoop(env, prog, fuel, VOID, body, st),
                     m.pc + 2 + |EncodeSeq(body)| + 1, base, ctx)
    ensures Paid(RunN(env, m, n), ExecLoop(env, prog, fuel, VOID, body, st), n, fuel)
    decreases fuel, 1, body, 3
  {
    hide Step, Conclude, LabelsMatch, Windows, ValidEnv, Holds, At, StackIs, DataMatch, ExecSeq, EncodeSeq;
    hide WellFormedSeq, SupportedSeq, WithLabel, ExecLoop, Opened;
    MatchIsSound(m, base, st, ctx);
    StepBlockIs(env, m, LOOP, kind, body);
    var m0, end := m.(pc := m.pc + 2), m.pc + 2 + |EncodeSeq(body)| + 1;
    MatchIgnoresPc(m, m.pc + 2, base, st, ctx);
    MatchIsSound(m0, base, st, ctx);
    var l := Label(m.pc + 2, m.sp, 0, true);
    OpenLabel(m0, l);
    var s, r := WithLabel(m0, l), ExecLoop(env, prog, fuel, VOID, body, st);
    n := 1;
    RunOne(env, m);
    if s.Running? {
      var n1 := SimLoop(env, prog, fuel, body, m0, s.m, l, base, st, ctx);
      RunFrom(env, m, n1);
      n := 1 + n1;
      MovePc(m, m.pc + 2, RunN(env, m, n), r, end, base, st, ctx);
    } else {
      ConcludeEasy(m, s, r, end, base, ctx);
    }
  }

  /** A taken branch of an if, under its label. `pc` is where it starts. */
  lemma {:induction false} SimTaken(
      env: Env, prog: seq<Func>, fuel: nat, body: seq<Instr>, m: Machine, pc: nat, l: Label, closePc: nat,
      base: seq<U64>, st: Store, ctx: seq<Kind>) returns (n: nat)
    requires Holds(env, prog) && ValidEnv(env) && Match(m, base, st, ctx) && st.vs != []
    requires WellFormedSeq(body) && SupportedSeq(body, [Forward] + ctx)
    requires l.height == m.sp - 1 && l.arity <= 1 && !l.isLoop
    requires At(env.code, pc, EncodeSeq(body)) && closePc == pc + |EncodeSeq(body)| < |env.code|
    requires (env.code[closePc] == END && l.target == closePc + 1) || env.code[closePc] == ELSE
    requires m.sp >= 1 && Sound(m) && Step(env, m) == WithLabel(m.(pc := pc, sp := m.sp - 1), l)
    ensures Conclude(m, RunN(env, m, n),
                     Leave(ButLast(st.vs, 1), ExecSeq(env, prog, fuel, body, st.(vs := [])), l.arity),
                     l.target, base, ctx)
    ensures Paid(RunN(env, m, n), Leave(ButLast(st.vs, 1), ExecSeq(env, prog, fuel, body, st.(vs := [])), l.arity), n,
            fuel)
    decreases fuel, 1, body, 2
  {
    hide Step, Conclude, LabelsMatch, Windows, ValidEnv, Holds, At, StackIs, DataMatch, Sound, ExecSeq, EncodeSeq;
    hide WellFormedSeq, SupportedSeq, Leave, WithLabel, Keeps;
    MatchIsSound(m, base, st, ctx);
    MatchPops(m, pc, base, st, ctx);
    var m0, st0 := m.(pc := pc, sp := m.sp - 1), st.(vs := ButLast(st.vs, 1));
    var n1 := SimScope(env, prog, fuel, body, m0, l, closePc, base, st0, ctx);
    RunFrom(env, m, n1);
    n := 1 + n1;
    assert st0.(vs := []) == st.(vs := []);
    var r := Leave(ButLast(st.vs, 1), ExecSeq(env, prog, fuel, body, st.(vs := [])), l.arity);
    MatchIsSound(m0, base, st0, ctx);
    ConcludeTrans(m, m0, RunN(env, m, n), r, l.target, base, ctx);
  }

  lemma {:induction false} SimIf(
      env: Env, prog: seq<Func>, fuel: nat, kind: Byte, thn: seq<Instr>, m: Machine,
      base: seq<U64>, st: Store, ctx: seq<Kind>) returns (n: nat)
    requires Holds(env, prog) && ValidEnv(env) && Match(m, base, st, ctx) && st.vs != []
    requires WellFormedSeq(thn) && SupportedSeq(thn, [Forward] + ctx)
    requires At(env.code, m.pc, [IF, kind] + (EncodeSeq(thn) + [END]))
    ensures Sound(m)
    ensures Conclude(m, RunN(env, m, n),
                     if Last(st.vs, 1)[0] % U32_LIMIT != 0
                     then Leave(ButLast(st.vs, 1), ExecSeq(env, prog, fuel, thn, st.(vs := [])), Arity(kind))
                     else Leave(ButLast(st.vs, 1), Normal(st.(vs := [])), Arity(kind)),
                     m.pc + 2 + |EncodeSeq(thn)| + 1, base, ctx)
    ensures Paid(RunN(env, m, n),
                 if Last(st.vs, 1)[0] % U32_LIMIT != 0
                 then Leave(ButLast(st.vs, 1), ExecSeq(env, prog, fuel, thn, st.(vs := [])), Arity(kind))
                 else Leave(ButLast(st.vs, 1), Normal(st.(vs := [])), Arity(kind)),
                 n, fuel)
    decreases fuel, 1, thn, 3
  {
    hide Step, Conclude, LabelsMatch, Windows, ValidEnv, Holds, At, StackIs, DataMatch, Sound, ExecSeq, EncodeSeq;
    hide WellFormedSeq, SupportedSeq, WithLabel, Keeps;
    MatchIsSound(m, base, st, ctx);
    MatchPops(m, m.pc + 2, base, st, ctx);
    var cond, end := Last(st.vs, 1)[0], m.pc + 2 + |EncodeSeq(thn)| + 1;
    StepIfIs(env, m, kind, thn, cond);
    if cond % U32_LIMIT != 0 {
      var l := Label(end, m.sp - 1, Arity(kind), false);
      n := SimTaken(env, prog, fuel, thn, m, m.pc + 2, l, end - 1, base, st, ctx);
    } else {
      n := 1;
      RunOne(env, m);
      var r := Leave(ButLast(st.vs, 1), Normal(st.(vs := [])), Arity(kind));
      ConcludeEasy(m, Step(env, m), r, end, base, ctx);
      if Arity(kind) == 0 {
        MatchPops(m, end, base, st, ctx);
        var m1, st1 := m.(pc := end, sp := m.sp - 1), st.(vs := ButLast(st.vs, 1));
        assert ButLast(st.vs, 1) + [] == ButLast(st.vs, 1);
        ConcludeHere(m1, base, st1, ctx);
        MatchIsSound(m1, base, st1, ctx);
        ConcludeTrans(m, m1, Running(m1), r, end, base, ctx);
      }
    }
  }

  lemma {:induction false} SimIfElse(
      env: Env, prog: seq<Func>, fuel: nat, kind: Byte, thn: seq<Instr>, els: seq<Instr>, m: Machine,
      base: seq<U64>, st: Store, ctx: seq<Kind>) returns (n: nat)
    requires Holds(env, prog) && ValidEnv(env) && Match(m, base, st, ctx) && st.vs != []
    requires WellFormedSeq(thn) && SupportedSeq(thn, [Forward] + ctx)
    requires WellFormedSeq(els) && SupportedSeq(els, [Forward] + ctx)
    requires At(env.code, m.pc, [IF, kind] + (EncodeSeq(thn) + ([ELSE] + (EncodeSeq(els) + [END]))))
    ensures Sound(m)
    ensures Conclude(m, RunN(env, m, n),
                     Leave(ButLast(st.vs, 1),
                           if Last(st.vs, 1)[0] % U32_LIMIT != 0 then ExecSeq(env, prog, fuel, thn, st.(vs := []))
                           else ExecSeq(env, prog, fuel, els, st.(vs := [])),
                           Arity(kind)),
                     m.pc + 2 + |EncodeSeq(thn)| + 1 + |EncodeSeq(els)| + 1, base, ctx)
    ensures Paid(RunN(env, m, n),
                 Leave(ButLast(st.vs, 1),
                       if Last(st.vs, 1)[0] % U32_LIMIT != 0 then ExecSeq(env, prog, fuel, thn, st.(vs := []))
                       else ExecSeq(env, prog, fuel, els, st.(vs := [])),
                       Arity(kind)),
                 n, fuel)
    decreases fuel, 1, IfElse(kind, thn, els), 0
  {
    hide Step, Conclude, LabelsMatch, Windows, ValidEnv, Holds, At, StackIs, DataMatch, Sound, ExecSeq, EncodeSeq;
    hide WellFormedSeq, SupportedSeq, Leave, WithLabel, Keeps;
    MatchIsSound(m, base, st, ctx);
    MatchPops(m, m.pc + 2, base, st, ctx);
    var cond, elsePc := Last(st.vs, 1)[0], m.pc + 2 + |EncodeSeq(thn)| + 1;
    var end := elsePc + |EncodeSeq(els)| + 1;
    StepIfElseIs(env, m, kind, thn, els, cond);
    var l := Label(end, m.sp - 1, Arity(kind), false);
    if cond % U32_LIMIT != 0 {
      n := SimTaken(env, prog, fuel, thn, m, m.pc + 2, l, elsePc - 1, base, st, ctx);
    } else {
      n := SimTaken(env, prog, fuel, els, m, elsePc, l, end - 1, base, st, ctx);
    }
  }
}
