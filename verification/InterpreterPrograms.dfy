/** Whole programs: calling an exported function runs it to the result of the structured
    semantics. */
module InterpreterPrograms {
  import opened Words
  import opened Leb128
  import opened WasmCode
  import opened WasmFormat
  import opened Interpreter
  import opened InterpreterSafety
  import opened WasmSemantics
  import opened Simulation
  import opened InterpreterCorrectness

  lemma {:induction false} PushAllStack(m: Machine, s: seq<U64>, args: seq<U64>)
    requires |m.stack| == MAX_STACK && StackIs(m, s) && |s| + |args| <= MAX_STACK
    ensures PushAll(m, args).Ok? && StackIs(PushAll(m, args).value, s + args)
    decreases |args|
  {
    if args == [] {
      assert s + args == s;
    } else {
      PushOnto(m, s, args[0]);
      PushAllStack(Push(m, args[0]).value, s + [args[0]], args[1..]);
      assert s + [args[0]] + args[1..] == s + args;
    }
  }

  /** The machine that `call_function` starts to run, from the machine `m`. */
  ghost function StartFrom(env: Env, m: Machine, f: nat, args: seq<U64>): Outcome<Machine>
    requires ValidEnv(env) && Callable(m)
  {
    match PushAll(m, args)
    case Err(k) => Err(k)
    case Ok(m1) => EnterFunction(env, m1, f, 0)
  }

  lemma FreshIsCallable(memory: seq<Byte>, world: int)
    ensures Callable(Fresh(memory, world))
  {
  }

  /** The same on a new interpreter. */
  ghost function Start(env: Env, f: nat, args: seq<U64>, memory: seq<Byte>, world: int): Outcome<Machine>
    requires ValidEnv(env)
  {
    FreshIsCallable(memory, world);
    StartFrom(env, Fresh(memory, world), f, args)
  }

  lemma StartLands(env: Env, prog: seq<Func>, f: nat, args: seq<U64>, memory: seq<Byte>, world: int)
    requires Holds(env, prog) && ValidEnv(env) && env.imports <= f < env.imports + |prog|
    requires |args| == prog[f - env.imports].params <= MAX_STACK
    ensures var fn := prog[f - env.imports];
            var r := Start(env, f, args, memory, world);
            var declared := DeclaredLocals(fn.decls);
            if fn.params + declared > MAX_LOCALS then r == Err(InvalidLocal)
            else
              && r.Ok? && Sound(r.value) && r.value.frameDepth == 1 && TopFrame(r.value).arity == fn.results
              && Match(r.value, [], Store([], args + seq(declared, _ => 0), memory, world), [Whole])
              && At(env.code, r.value.pc, EncodeSeq(fn.body) + [END])
  {
    hide Holds, ValidEnv, EncodeSeq, EncodeDecls, DeclaredLocals, EnterFunction, At, Sound, Callable, StackIs, BodyOf;
    hide PushAll, Fresh, Windows, PushLabel, OpenFrame;
    var fn, body := prog[f - env.imports], BodyOf(env.mod, f - env.imports);
    var declared := DeclaredLocals(fn.decls);
    FreshWithArgs(args, memory, world);
    var m := PushAll(Fresh(memory, world), args).value;
    EnterComputes(env, prog, m, f, 0);
    EnterKeepsSound(env, m, f, 0);
    if fn.params + declared <= MAX_LOCALS {
      var start := body.offset + |fn.groups.bytes| + |EncodeDecls(fn.decls)|;
      FirstFrame(m, f, fn.params, declared, fn.results, start, body.offset + body.length, args);
      var m1 := OpenFrame(m, f, 0, fn.params, declared, fn.results, start);
      var m2 := PushLabel(m1, Label(body.offset + body.length, m1.sp, fn.results, false)).value;
      assert m2 == Start(env, f, args, memory, world).value;
      OneFrameMatches(m2, Store([], args + seq(declared, _ => 0), memory, world));
    }
  }

  lemma FreshWithArgs(args: seq<U64>, memory: seq<Byte>, world: int)
    requires |args| <= MAX_STACK
    ensures var m0 := Fresh(memory, world);
            && Callable(m0) && |m0.stack| == MAX_STACK && m0.sp == 0
            && var r := PushAll(m0, args);
               && r.Ok? && StackIs(r.value, args) && Callable(r.value) && r.value.sp == |args|
               && r.value.frameDepth == 0 && r.value.labelDepth == 0
               && r.value.memory == memory && r.value.world == world
               && |r.value.stack| == MAX_STACK && |r.value.frames| == MAX_CALL_DEPTH
               && |r.value.labels| == MAX_LABELS && |r.value.locals| == LOCAL_SLOTS
  {
    var m0 := Fresh(memory, world);
    FreshIsCallable(memory, world);
    assert m0.stack[..0] == [];
    PushAllStack(m0, [], args);
    assert [] + args == args;
    hide Windows;
  }

  /** The outermost frame: the arguments and zeros are its locals, and the stack is empty. */
  lemma FirstFrame(m: Machine, f: nat, params: nat, declared: nat, arity: nat, start: nat, end: nat, args: seq<U64>)
    requires |m.stack| == MAX_STACK && |m.frames| == MAX_CALL_DEPTH && |m.labels| == MAX_LABELS
    requires m.frameDepth == 0 && m.labelDepth == 0 && StackIs(m, args) && |args| == params
    requires params + declared <= MAX_LOCALS && |m.locals| == LOCAL_SLOTS
    ensures |OpenFrame(m, f, 0, params, declared, arity, start).labels| == MAX_LABELS
    ensures var m1 := OpenFrame(m, f, 0, params, declared, arity, start);
            var r := PushLabel(m1, Label(end, m1.sp, arity, false));
            && r.Ok? && r.value.frameDepth == 1 && r.value.sp == 0 && r.value.labelDepth == 1 && r.value.pc == start
            && TopFrame(r.value) == Frame(0, f, 0, params + declared, 0, arity, 0)
            && |r.value.locals| == LOCAL_SLOTS
            && r.value.locals[..params + declared] == args + seq(declared, _ => 0)
            && r.value.memory == m.memory && r.value.world == m.world
            && r.value.labels[0] == Label(end, 0, arity, false)
  {
    OpenFrameData(m, f, 0, params, declared, arity, start);
    assert m.stack[0..m.sp] == m.stack[..m.sp];
  }

  lemma OneFrameMatches(m: Machine, st: Store)
    requires Sound(m) && m.frameDepth == 1 && m.sp == 0 && m.labelDepth == 1 && st.vs == []
    requires TopFrame(m).labelBase == 0 && TopFrame(m).localsBase == 0 && TopFrame(m).height == 0
    requires TopFrame(m).arity <= 1
    requires TopFrame(m).localCount == |st.locals| <= |m.locals| && m.locals[..|st.locals|] == st.locals
    requires m.memory == st.memory && m.world == st.world
    requires !m.labels[0].isLoop && m.labels[0].height == 0 && m.labels[0].arity <= 1
    ensures Match(m, [], st, [Whole])
  {
    hide Windows;
    WindowInRange(m);
    assert m.stack[..0] == [];
    assert LabelFits(m, Whole, 0, 0);
    assert LabelsMatch(m, [Whole], 0);
  }

  /** The same outcome as the structured semantics, or a stop at a fixed size. Where the
      semantics runs out of fuel, the machine is still running. */
  ghost predicate SameOutcome(s: Status, r: Result) {
    || (s.Trapped? && IsLimit(s.kind))
    || match r
       case Normal(st) =>
         && s.Finished? && s.m.memory == st.memory && s.m.world == st.world
         && s.result == (if st.vs == [] then None else Some(st.vs[0]))
       case Abort(k) => s == Trapped(k)
       case Stuck => true
       case Timeout => s.Running?
       case _ => false
  }

  /** The call, run for `n` steps on a new interpreter, ends as `r` says. */
  ghost predicate RunsTo(env: Env, f: nat, args: seq<U64>, memory: seq<Byte>, world: int, n: nat, r: Result)
    requires ValidEnv(env)
  {
    match Start(env, f, args, memory, world)
    case Err(k) => SameOutcome(Trapped(k), r)
    case Ok(m1) => Sound(m1) && SameOutcome(RunN(env, m1, n), r)
  }

  /** A call that uses up its fuel takes a step for each unit but the first, which pays for
      starting. */
  ghost predicate Goes(
      env: Env, f: nat, args: seq<U64>, memory: seq<Byte>, world: int, n: nat, r: Result, fuel: nat)
    requires ValidEnv(env)
  {
    var start := Start(env, f, args, memory, world);
    start.Ok? ==> Sound(start.value) && Paid(RunN(env, start.value, n), r, n + 1, fuel)
  }

  /** For every program of supported constructs, every function in it and all arguments:
      running the interpreter on the bytes gives the result, memory and host state of the
      structured semantics, or its trap, or a stop at one of the fixed sizes. */
  lemma InterpreterRunsPrograms(
      env: Env, prog: seq<Func>, fuel: nat, f: nat, args: seq<U64>, memory: seq<Byte>, world: int) returns (n: nat)
    requires Holds(env, prog) && ValidEnv(env) && env.imports <= f < env.imports + |prog|
    requires |args| == prog[f - env.imports].params
    ensures var r := ExecCall(env, prog, fuel, f, Store(args, [], memory, world));
            && RunsTo(env, f, args, memory, world, n, r)
            && Goes(env, f, args, memory, world, n, r, fuel)
  {
    hide Step, Conclude, LabelsMatch, Windows, ValidEnv, Holds, At, StackIs, DataMatch, ExecSeq, EncodeSeq, Start;
    hide DeclaredLocals, WellFormedSeq, SupportedSeq, Sound, ReadGroups, ReadU32, EncodeDecls, FuncTypeOf;
    var fn := prog[f - env.imports];
    ParamsBounded(env, prog, f);
    StartLands(env, prog, f, args, memory, world);
    FunctionFacts(env, prog, f);
    var r := ExecCall(env, prog, fuel, f, Store(args, [], memory, world));
    var start := Start(env, f, args, memory, world);
    n := 0;
    assert Last(args, fn.params) == args && ButLast(args, fn.params) == [];
    if start.Ok? && fuel > 0 {
      var m1 := start.value;
      var st1 := Store([], args + seq(DeclaredLocals(fn.decls), _ => 0), memory, world);
      AtSplit(env.code, m1.pc, EncodeSeq(fn.body), [END]);
      var closePc := m1.pc + |EncodeSeq(fn.body)|;
      AtFirst(env.code, closePc, [END]);
      var n1 := SimSeq(env, prog, fuel - 1, fn.body, st1, m1, [], [Whole]);
      var s1, r1 := RunN(env, m1, n1), ExecSeq(env, prog, fuel - 1, fn.body, st1);
      RunThen(env, m1, n1);
      n := if s1.Running? && r1.Normal? then n1 + 1 else n1;
      TopLevelAgrees(env, m1, s1, RunN(env, m1, n), r1, fn.results, closePc);
      LeaveCallPays([], [], r1, fn.results);
    }
  }

  /** A program that does not end for the semantics does not end for the machine: as long
      as the fuel lasts, it is running, or a fixed size has stopped it. */
  lemma EndlessProgramsGoOn(
      env: Env, prog: seq<Func>, fuel: nat, f: nat, args: seq<U64>, memory: seq<Byte>, world: int, k: nat)
    requires Holds(env, prog) && ValidEnv(env) && env.imports <= f < env.imports + |prog|
    requires |args| == prog[f - env.imports].params
    requires ExecCall(env, prog, fuel, f, Store(args, [], memory, world)).Timeout? && k < fuel
    ensures GoesOn(env, f, args, memory, world, k)
  {
    hide ExecCall, Holds, ValidEnv, Start, Sound, RunN;
    var n := InterpreterRunsPrograms(env, prog, fuel, f, args, memory, world);
    var start := Start(env, f, args, memory, world);
    if start.Ok? {
      if k <= n { RunSplit(env, start.value, k, n - k); } else { RunSplit(env, start.value, n, k - n); }
    }
  }

  ghost predicate GoesOn(env: Env, f: nat, args: seq<U64>, memory: seq<Byte>, world: int, k: nat)
    requires ValidEnv(env)
  {
    match Start(env, f, args, memory, world)
    case Err(kind) => IsLimit(kind)
    case Ok(m) => Sound(m) && (RunN(env, m, k).Running? || (RunN(env, m, k).Trapped? && IsLimit(RunN(env, m, k).kind)))
  }

  lemma ParamsBounded(env: Env, prog: seq<Func>, f: nat)
    requires Holds(env, prog) && ValidEnv(env) && env.imports <= f < env.imports + |prog|
    ensures prog[f - env.imports].params <= MAX_PARAMS
  {
    hide At, WellFormedFunc, EncodeFunc;
    FunctionShape(env, prog, f);
  }

  lemma TopLevelAgrees(env: Env, m1: Machine, s1: Status, s2: Status, r1: Result, results: nat, closePc: nat)
    requires ValidEnv(env) && Sound(m1) && m1.frameDepth == 1 && TopFrame(m1).arity == results <= 1
    requires Conclude(m1, s1, r1, closePc, [], [Whole]) && Closed(env, s1, r1, s2)
    requires closePc < |env.code| && env.code[closePc] == END
    ensures SameOutcome(s2, LeaveCall([], [], r1, results))
  {
    hide Step, AfterJump, Keeps, LabelsMatch, Windows, ValidEnv, StackIs, DataMatch, AfterReturn;
    var r := LeaveCall([], [], r1, results);
    if !r.Stuck? && !(s1.Trapped? && IsLimit(s1.kind)) {
      match r1
      case Normal(st) =>
        BodyEnd(env, m1, s1.m, [], st);
        ReturnAgrees(m1, s2, st, results);
        assert Last(st.vs, results) == st.vs;
      case Ret(st) => ReturnAgrees(m1, s1, st, results);
      case _ =>
    }
  }

  lemma ReturnAgrees(m1: Machine, s: Status, st: Store, results: nat)
    requires Sound(m1) && m1.frameDepth == 1 && TopFrame(m1).arity == results <= 1
    requires results <= |st.vs| && AfterReturn(m1, s, st)
    ensures SameOutcome(s, Normal(st.(vs := [] + Last(st.vs, results), locals := [])))
  {
    hide Windows;
    assert [] + Last(st.vs, results) == Last(st.vs, results);
  }
}
