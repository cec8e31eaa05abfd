/** Who runs next: every trap leaves the CPU with the right process, and idle only when
    nobody can run. */
module KernelElection {
  import opened Words
  import opened ProcessTable
  import opened Scheduler
  import opened Ipc
  import opened Lifecycle
  import opened Dispatch
  import opened KernelInvariant
  import opened ProcessView
  import opened KernelRuns
  import opened KernelFairness

  ghost predicate NobodyWaits(t: State) { forall p :: 1 <= p < |t.procs| ==> !t.procs[p].state.Ready? }

  ghost predicate HasRunner(t: State) { 1 <= t.current < |t.procs| && t.procs[t.current].state.Running? }

  /** Of those that could run beside `c`, the one nearest behind it in cyclic order runs. */
  ghost predicate NearestRuns(t: State, c: nat) {
    && 1 <= c < |t.procs| && HasRunner(t)
    && forall p :: 1 <= p < |t.procs| && p != c && t.procs[p].state.Ready? ==>
         Distance(c, t.current, |t.procs|) <= Distance(c, p, |t.procs|)
  }

  /** The process with the lowest PID of those that could run does. */
  ghost predicate LowestRuns(t: State) {
    HasRunner(t) && forall p :: 1 <= p < |t.procs| && t.procs[p].state.Ready? ==> t.current < p
  }

  /** An interrupt that no process owns; the kernel handles it and does not look for work. */
  ghost predicate Unclaimed(s: State, e: Event)
    requires Shape(s)
  {
    e.External? && InterruptOwner(s, e) == 0
  }

  /** The CPU returns to S-mode at `entry`, with interrupts on. */
  ghost predicate IdleAt(t: State, entry: Word) {
    t.frame.sstatus.spp && t.frame.sstatus.spie && t.frame.sepc == entry && t.satp == t.cfg.kernelSatp
  }

  ghost predicate Alive(t: State) { exists p :: 1 <= p < |t.procs| && !t.procs[p].state.Free? }

  /** Nobody could run: the idle loop does while somebody is alive, the exit code otherwise. */
  ghost predicate GoesIdle(t: State) {
    NobodyWaits(t) && IdleAt(t, if Alive(t) then t.cfg.idleEntry else t.cfg.exitEntry)
  }

  /** Idle code that was interrupted goes on where it was. */
  ghost predicate StaysIdle(s: State, e: Event, t: State)
    requires Shape(s)
  {
    (NobodyWaits(t) || Unclaimed(s, e)) && t.frame == e.frame && t.current == s.current && t.satp == s.satp
  }

  /** Who has the CPU after a trap that leads from `s` to `t`. */
  ghost predicate Elected(s: State, e: Event, t: State)
    requires Shape(s)
  {
    if !UserMode(t) then if UserMode(s) then GoesIdle(t) else StaysIdle(s, e, t)
    else if !UserMode(s) || IsExit(e) then LowestRuns(t)
    else if t.current != s.current then NearestRuns(t, s.current)
    else e.Timer? || IsYield(e) ==> NobodyWaits(t)
  }

  // ---------- The handlers ----------

  /** What giving up the CPU leads to: the nearest one runs, or nobody could. */
  ghost predicate NearestOrNone(t: State, c: nat) { GoesIdle(t) || NearestRuns(t, c) }

  ghost predicate LowestOrNone(t: State) { GoesIdle(t) || LowestRuns(t) }

  ghost predicate Keeps(t: State, c: nat) { HasRunner(t) && t.current == c }

  lemma ScheduleElects(s: State, b: nat)
    requires |s.procs| >= 3 && 1 <= b < |s.procs| && !s.procs[b].state.Ready? && !s.procs[b].state.Free?
    ensures NearestOrNone(Schedule(s, b), b)
  {
    var q := Save(s, b).procs;
    assert Matches(IsAlive, b, q[b]);
    ScanPicksNearest(q, b, 1, |q|);
    if Scan(q, b, 1, |q|) == 0 {
      assert !Schedule(s, b).procs[b].state.Free?;
      forall p | 1 <= p < |q| ensures !q[p].state.Ready? { assert 1 <= Distance(b, p, |q|) < |q|; }
    }
  }

  lemma SendElects(s: State)
    requires Inv(s) && UserMode(s)
    ensures Keeps(SysSend(s), s.current) || NearestOrNone(SysSend(s), s.current)
  {
    hide Schedule, TableInv, NearestOrNone;
    var s0 := s.(frame := Advance(s.frame));
    ScheduleElects(s0.(procs := s0.procs[s.current := s0.procs[s.current].(
                    ipcTarget := s0.frame.a0, ipcValue := s0.frame.a1, state := BlockedSend)]), s.current);
  }

  lemma CallElects(s: State)
    requires Inv(s) && UserMode(s)
    ensures Keeps(SysCall(s), s.current) || NearestOrNone(SysCall(s), s.current)
  {
    hide Schedule, TableInv, NearestOrNone;
    var s0 := s.(frame := Advance(s.frame));
    var f, t := s0.frame, s0.frame.a0;
    if ValidIpcTarget(t, s.current, |s.procs|) {
      var r := s0.procs[t];
      var woken := r.(context := r.context.(a0 := f.a1, a1 := s.current, a2 := f.a2, a3 := f.a3), state := Ready);
      var s1 := if WouldRendezvous(s0, t) then s0.(procs := s0.procs[t := woken]) else s0;
      ScheduleElects(s1.(procs := s1.procs[s.current := s1.procs[s.current].(
                      ipcTarget := t, ipcValue := f.a1, ipcArg2 := f.a2, ipcArg3 := f.a3,
                      state := BlockedCall)]), s.current);
    }
  }

  lemma ReceiveElects(s: State)
    requires Inv(s) && UserMode(s)
    ensures Keeps(SysReceive(s), s.current) || NearestOrNone(SysReceive(s), s.current)
  {
    hide Schedule, TableInv, NearestOrNone;
    var s0 := s.(frame := Advance(s.frame));
    ScheduleElects(s0.(procs := s0.procs[s.current := s0.procs[s.current].(
                    ipcTarget := s0.frame.a0, state := BlockedRecv)]), s.current);
  }

  lemma WaitElects(s: State)
    requires Inv(s) && UserMode(s)
    ensures Keeps(SysWait(s), s.current) || NearestOrNone(SysWait(s), s.current)
  {
    hide Schedule, TableInv, NearestOrNone;
    var s0 := s.(frame := Advance(s.frame));
    ScheduleElects(s0.(procs := s0.procs[s.current := s0.procs[s.current].(
                    ipcTarget := s0.frame.a0, state := BlockedWait)]), s.current);
  }

  lemma NetElects(s: State, reply: NetReply)
    requires Inv(s) && UserMode(s)
    ensures Keeps(NetRequest(s, reply), s.current) || NearestOrNone(NetRequest(s, reply), s.current)
  {
    hide Schedule, TableInv, NearestOrNone;
    if reply.NetPark? {
      var s0 := s.(frame := Advance(s.frame));
      ScheduleElects(s0.(procs := s0.procs[s.current := s0.procs[s.current].(
                     netOp := reply.op, netSocket := reply.socket, netBufVa := reply.bufVa,
                     netBufLen := reply.bufLen, state := BlockedNet)]), s.current);
    }
  }

  lemma PreemptElects(s: State)
    requires |s.procs| >= 3 && HasRunner(s)
    ensures NearestRuns(Preempt(s), s.current) && (Preempt(s).current == s.current ==> NobodyWaits(Preempt(s)))
  {
    NearestIsFound(s.procs, s.current);
    hide Scan;
  }

  lemma YieldElects(s: State)
    requires Inv(s) && UserMode(s)
    ensures NearestRuns(SysYield(s), s.current) && (SysYield(s).current == s.current ==> NobodyWaits(SysYield(s)))
  {
    hide TableInv, Schedule, Scan, NearestRuns, NobodyWaits;
    var next := Scan(s.procs, s.current, 1, |s.procs| - 1);
    if next != 0 {
      YieldHandsOver(s);
      var me := s.procs[s.current].(state := Ready, context := Advance(s.frame));
      HandOverElects(s, SysYield(s), next, me, s.procs[next].(state := Running));
    } else {
      NobodyElected(s, SysYield(s));
    }
  }

  lemma HandOverElects(s: State, t: State, next: nat, me: Process, runner: Process)
    requires |s.procs| >= 3 && 1 <= s.current < |s.procs| && next == Scan(s.procs, s.current, 1, |s.procs| - 1)
    requires next != 0 && next != s.current && t.current == next && runner.state.Running?
    requires t.procs == s.procs[s.current := me][next := runner]
    ensures NearestRuns(t, s.current)
  {
    NearestIsFound(s.procs, s.current);
  }

  lemma NobodyElected(s: State, t: State)
    requires |s.procs| >= 3 && HasRunner(s) && Scan(s.procs, s.current, 1, |s.procs| - 1) == 0
    requires t.procs == s.procs && t.current == s.current
    ensures NearestRuns(t, s.current) && NobodyWaits(t)
  {
    NearestIsFound(s.procs, s.current);
  }

  lemma NearestIsFound(q: seq<Process>, c: nat)
    requires |q| >= 3 && 1 <= c < |q|
    ensures var next := Scan(q, c, 1, |q| - 1);
            forall p :: 1 <= p < |q| && p != c && q[p].state.Ready? ==>
              next != 0 && Distance(c, next, |q|) <= Distance(c, p, |q|)
  {
    ScanPicksNearest(q, c, 1, |q| - 1);
    forall p | 1 <= p < |q| && p != c ensures 1 <= Distance(c, p, |q|) < |q| - 1 { }
  }

  lemma EcallElects(s: State, env: Env)
    requires Inv(s) && UserMode(s) && s.frame.a7 != SYS_EXIT
    ensures Keeps(HandleEcall(s, env), s.current) || NearestOrNone(HandleEcall(s, env), s.current)
    ensures s.frame.a7 == SYS_YIELD && HandleEcall(s, env).current == s.current ==> NobodyWaits(HandleEcall(s, env))
  {
    hide SysExit, SysSend, SysReceive, SysCall, SysWait, SysYield, NetRequest, TableInv;
    SendElects(s);
    ReceiveElects(s);
    CallElects(s);
    NetElects(s, env.net);
    WaitElects(s);
    YieldElects(s);
    hide NearestRuns, NobodyWaits;
  }

  /** After an exit or a kill the search starts at PID 1. */
  lemma ExitElects(s: State, e: Event)
    requires Inv(s) && UserMode(s) && s.frame == e.frame && IsExit(e) && Enabled(s, e)
    ensures IsSyscall(e, SYS_EXIT) ==> LowestOrNone(SysExit(s))
    ensures e.Fault? ==> LowestOrNone(KillCurrent(s, ExitCode(e)))
  {
    hide Reap, TableInv, First;
    var s1 := Reap(s, ExitCode(e));
    FirstElects(s1);
    AliveIsFound(s1);
    hide NobodyWaits, LowestRuns, Alive;
    SameTable(s1, SysExit(s));
    SameTable(s1, KillCurrent(s, ExitCode(e)));
    ReapKeepsConfig(s, ExitCode(e));
  }

  lemma AliveIsFound(s: State)
    requires |s.procs| >= 1
    ensures Alive(s) <==> First(s.procs, IsAlive, 1) != 0
  {
    var i := First(s.procs, IsAlive, 1);
    forall p | 1 <= p < |s.procs| ensures Matches(IsAlive, p, s.procs[p]) <==> !s.procs[p].state.Free? { }
  }

  lemma SameTable(s: State, t: State)
    ensures t.procs == s.procs ==> (NobodyWaits(t) <==> NobodyWaits(s)) && (Alive(t) <==> Alive(s))
  {
  }

  lemma ReapKeepsConfig(s: State, code: Word)
    requires Shape(s)
    ensures Reap(s, code).cfg == s.cfg && Reap(s, code).frame == s.frame
  {
  }

  lemma FirstElects(s: State)
    requires |s.procs| >= 1
    ensures var next := First(s.procs, IsReady, 1);
            if next == 0 then NobodyWaits(s) else LowestRuns(SwitchTo(s, next))
  {
    var next := First(s.procs, IsReady, 1);
    forall p | 1 <= p < |s.procs| ensures Matches(IsReady, p, s.procs[p]) <==> s.procs[p].state.Ready? { }
  }

  lemma IdleElects(s: State)
    requires |s.procs| >= 1
    ensures var t := ScheduleFromIdle(s); LowestRuns(t) || (NobodyWaits(t) && t == s)
  {
    FirstElects(s);
  }

  // ---------- Every trap ----------

  lemma UserElection(s: State, e: Event)
    requires Inv(s) && UserMode(s) && s.frame == e.frame && Enabled(s, e)
    ensures !IsExit(e) ==> Keeps(Next(s, e), s.current) || NearestOrNone(Next(s, e), s.current)
    ensures (e.Timer? || IsYield(e)) && Next(s, e).current == s.current ==> NobodyWaits(Next(s, e))
    ensures IsExit(e) ==> LowestOrNone(Next(s, e))
  {
    hide HandleEcall, Preempt, KillCurrent, SysExit, TableInv, NearestRuns, LowestRuns, NobodyWaits;
    assert s.(frame := e.frame) == s;
    if IsExit(e) { ExitElects(s, e); ExitIsHandled(s, e); }
    match e
    case Ecall(_, env) => if !IsExit(e) { EcallElects(s, env); }
    case Timer(_, wakes) => TimerElects(s, wakes);
    case External(_, irq, wakes) => ExternalKeeps(s, irq, wakes);
    case Fault(_, _) =>
  }

  lemma ExitIsHandled(s: State, e: Event)
    requires Inv(s) && UserMode(s) && s.frame == e.frame && IsExit(e) && Enabled(s, e)
    ensures Next(s, e) == if e.Fault? then KillCurrent(s, ExitCode(e)) else SysExit(s)
  {
    hide KillCurrent, SysExit, TableInv;
  }

  lemma TimerElects(s: State, wakes: seq<Option<Word>>)
    requires Inv(s) && UserMode(s) && |wakes| == |s.procs|
    ensures NearestRuns(HandleTimer(s, wakes), s.current)
    ensures HandleTimer(s, wakes).current == s.current ==> NobodyWaits(HandleTimer(s, wakes))
  {
    var s1 := s.(procs := WakeBlocked(s.procs, wakes));
    assert s1.procs[s.current] == s.procs[s.current];
    hide Preempt, WakeBlocked, TableInv;
    PreemptElects(s1);
  }

  lemma ExternalKeeps(s: State, irq: Word, wakes: seq<Option<Word>>)
    requires Inv(s) && UserMode(s) && |wakes| == |s.procs|
    ensures Keeps(HandleExternal(s, irq, wakes), s.current)
  {
    hide TableInv;
  }

  lemma IdleElection(s: State, e: Event)
    requires Inv(s) && !UserMode(s) && s.frame == e.frame && Enabled(s, e)
    ensures (!Unclaimed(s, e) && LowestRuns(Next(s, e))) || (!UserMode(Next(s, e)) && StaysIdle(s, e, Next(s, e)))
  {
    hide ScheduleFromIdle, WakeBlocked, TableInv, LowestRuns, NobodyWaits;
    assert s.(frame := e.frame) == s;
    match e
    case Timer(_, wakes) => IdleElects(s.(procs := WakeBlocked(s.procs, wakes)));
    case External(_, irq, _) =>
      if !Unclaimed(s, e) { IdleElects(IrqNotify(s, irq, InterruptOwner(s, e))); }
  }

  lemma RunnerMeansUser(t: State)
    requires Inv(t)
    ensures UserMode(t) <==> HasRunner(t)
  {
  }

  /** Every trap, in every state of every run: a trap ends in idle only if nobody is Ready
      (or it found the machine idle and was nobody's interrupt); after an exit or a kill, and
      out of idle, the lowest Ready PID runs; a switch otherwise goes to the nearest; and a
      timer tick or a yield that switches to nobody found nobody. */
  lemma EveryTrapElects(s: State, e: Event)
    requires Inv(s) && Enabled(s, e)
    ensures Elected(s, e, Next(s, e))
  {
    hide NobodyWaits, LowestRuns, NearestRuns, HasRunner, TableInv, Next, Enabled;
    var s1 := Enter(s, e);
    SameTrap(s, e);
    NextKeepsInv(s, e);
    TableSizeStep(s, e);
    RunnerMeansUser(Next(s, e));
    if UserMode(s) { UserElection(s1, e); } else { IdleElection(s1, e); }
    ElectionEnds(s, e, Next(s, e));
  }

  lemma ElectionEnds(s: State, e: Event, t: State)
    requires Inv(s) && (UserMode(t) <==> HasRunner(t))
    requires UserMode(s) && !IsExit(e) ==> Keeps(t, s.current) || NearestOrNone(t, s.current)
    requires UserMode(s) && (e.Timer? || IsYield(e)) && t.current == s.current ==> NobodyWaits(t)
    requires UserMode(s) && IsExit(e) ==> LowestOrNone(t)
    requires !UserMode(s) ==> (!Unclaimed(s, e) && LowestRuns(t)) || (!UserMode(t) && StaysIdle(s, e, t))
    requires |t.procs| == |s.procs|
    ensures Elected(s, e, t)
  {
    hide TableInv, Alive;
  }

  /** The live frame is overwritten on entry. */
  lemma SameTrap(s: State, e: Event)
    requires Inv(s) && Enabled(s, e)
    ensures var s1 := Enter(s, e);
            && Inv(s1) && Enabled(s1, e) && s1.frame == e.frame && Next(s1, e) == Next(s, e)
            && (UserMode(s1) <==> UserMode(s)) && s1.current == s.current && s1.satp == s.satp
            && Unclaimed(s1, e) == Unclaimed(s, e)
  {
    EnterKeepsInv(s, e);
    hide HandleEcall, HandleTimer, HandleExternal, KillCurrent, TableInv;
  }

  // ---------- Out of idle ----------

  /** The machine is idle and the trap makes it look for work. */
  ghost predicate LooksForWork(s: State, e: Event)
    requires Shape(s)
  {
    !UserMode(s) && !Unclaimed(s, e)
  }

  /** If somebody is Ready once the event has had its effect, the lowest such PID runs, with
      the registers and the page table that the effect left it. */
  lemma IdleRunsSomebody(s: State, e: Event, q: nat) returns (r: nat)
    requires Inv(s) && Enabled(s, e) && LooksForWork(s, e)
    requires 1 <= q < |s.procs| && Effect(s, e, q).state.Ready?
    ensures 1 <= r <= q && Effect(s, e, r).state.Ready?
    ensures forall p :: 1 <= p < r ==> !Effect(s, e, p).state.Ready?
    ensures UserMode(Next(s, e)) && Resumed(Next(s, e), e, r, Effect(s, e, r))
  {
    hide Effect, Next, Enabled, TableInv;
    var t := Next(s, e);
    EveryTrapElects(s, e);
    NextKeepsInv(s, e);
    TableSizeStep(s, e);
    BystanderStep(s, e, q);
    r := t.current;
    assert UserMode(t);
    BystanderStep(s, e, r);
    IdleIsFree(s);
    EffectIsOff(s, e, r);
    forall p | 1 <= p < r ensures !Effect(s, e, p).state.Ready? { BystanderStep(s, e, p); }
  }

  lemma IdleIsFree(s: State)
    requires Inv(s) && !UserMode(s)
    ensures forall p :: 1 <= p < |s.procs| ==> !s.procs[p].state.Running?
  {
  }

  lemma EffectIsOff(s: State, e: Event, p: nat)
    requires Inv(s) && Enabled(s, e) && 1 <= p < |s.procs| && !s.procs[p].state.Running?
    ensures !Effect(s, e, p).state.Running?
  {
  }

  ghost predicate UnclaimedAt(states: seq<State>, events: seq<Event>, k: nat) {
    k < |states| && k < |events| && Shape(states[k]) && Unclaimed(states[k], events[k])
  }

  ghost predicate AllUnclaimed(states: seq<State>, events: seq<Event>, i: nat, j: nat) {
    forall k: nat :: i <= k < j ==> UnclaimedAt(states, events, k)
  }

  /** An idle machine with a Ready process: whatever interrupts come first, the first trap that
      looks for work, such as the next timer tick, puts a process on the CPU. */
  lemma {:induction false} IdleEnds(states: seq<State>, events: seq<Event>, i: nat, j: nat, q: nat)
    requires IsRun(states, events) && i <= j < |events| && Inv(states[i]) && !UserMode(states[i])
    requires 1 <= q < |states[i].procs| && states[i].procs[q].state.Ready?
    requires AllUnclaimed(states, events, i, j) && Shape(states[j]) && !Unclaimed(states[j], events[j])
    ensures UserMode(states[j + 1]) && HasRunner(states[j + 1]) && states[j + 1].current <= q
    decreases j - i
  {
    hide Next, Inv, Step, Enabled, Effect;
    StepAt(states, events, i);
    ReadyStays(states[i], events[i], q);
    if i == j {
      var r := IdleRunsSomebody(states[i], events[i], q);
      UserHasRunner(states[i + 1]);
    } else {
      assert UnclaimedAt(states, events, i);
      UnclaimedStaysIdle(states[i], events[i], q);
      IdleEnds(states, events, i + 1, j, q);
    }
  }

  lemma UserHasRunner(t: State)
    requires Inv(t) && UserMode(t)
    ensures HasRunner(t)
  {
  }

  lemma ReadyStays(s: State, e: Event, q: nat)
    requires Inv(s) && Enabled(s, e) && 1 <= q < |s.procs| && s.procs[q].state.Ready?
    ensures Effect(s, e, q).state.Ready?
  {
  }

  lemma UnclaimedStaysIdle(s: State, e: Event, q: nat)
    requires Inv(s) && Enabled(s, e) && !UserMode(s) && Unclaimed(s, e)
    requires 1 <= q < |s.procs| && s.procs[q].state.Ready?
    ensures !UserMode(Next(s, e)) && q < |Next(s, e).procs| && Next(s, e).procs[q].state.Ready?
  {
    hide TableInv, Effect;
    SameTrap(s, e);
    IdleElection(Enter(s, e), e);
    ReadyStays(s, e, q);
    BystanderStep(s, e, q);
    TableSizeStep(s, e);
    NextKeepsInv(s, e);
    hide Next, Enabled;
  }

  // ---------- Timer ticks ----------

  ghost function Ticks(events: seq<Event>, i: nat, j: nat): nat
    requires i <= j <= |events|
    decreases j - i
  {
    if i == j then 0 else (if events[i].Timer? then 1 else 0) + Ticks(events, i + 1, j)
  }

  /** Bounded waiting in time: while a process stays Ready and nobody exits or is killed, at
      most MAX_PROCS - 2 timer ticks pass before it runs. */
  lemma {:induction false} TicksAreSwitches(states: seq<State>, events: seq<Event>, i: nat, j: nat, q: nat)
    requires IsRun(states, events) && i <= j < |states| && Inv(states[i]) && UserMode(states[i])
    requires 1 <= q && ReadyThroughout(states, i, j, q) && NoExits(events, i, j)
    ensures Ticks(events, i, j) <= Switches(states, i, j) <= |states[i].procs| - 2
    decreases j - i
  {
    hide Next, Inv, Step, Enabled;
    BoundedWaiting(states, events, i, j, q);
    if i < j {
      StepAt(states, events, i);
      BoundedWaiting(states, events, i, i + 1, q);
      assert states[i].procs[q].state.Ready? && states[i + 1].procs[q].state.Ready?;
      EveryTrapElects(states[i], events[i]);
      assert events[i].Timer? ==> states[i + 1].current != states[i].current;
      TicksAreSwitches(states, events, i + 1, j, q);
    }
  }
}
