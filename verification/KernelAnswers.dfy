/** What system calls answer, and what becomes of interrupts, exit codes and new processes
    until somebody asks. */
module KernelAnswers {
  import opened Words
  import opened ProcessTable
  import opened Scheduler
  import opened Ipc
  import opened Lifecycle
  import opened Dispatch
  import opened KernelInvariant
  import opened ProcessView
  import opened KernelRuns
  import opened KernelReuse
  import ElfLoader
  import PageAlloc

  // ---------- Answers ----------

  ghost predicate SleepsFor(s: State, target: nat) {
    target < |s.procs| && s.procs[target].state.BlockedRecv? && Accepts(s.procs[target].ipcTarget, s.current)
  }

  /** `p` sleeps in SEND or CALL on the current process, which takes messages from `from`. */
  ghost predicate Offers(s: State, p: nat, from: Word) {
    p < |s.procs| && IsSender(s.procs[p]) && s.procs[p].ipcTarget == s.current && Accepts(from, p)
  }

  ghost predicate IsOwnChild(s: State, child: Word) {
    ValidIpcTarget(child, s.current, |s.procs|) && s.procs[child].parent == s.current
  }

  /** The call puts its caller to sleep. */
  ghost predicate MustWait(s: State, e: Event)
    requires Shape(s) && e.Ecall?
  {
    var n, a0 := e.frame.a7, e.frame.a0;
    var valid := ValidIpcTarget(a0, s.current, |s.procs|);
    if n == SYS_SEND then valid && !SleepsFor(s, a0)
    else if n == SYS_RECEIVE then
      !TakesInterrupt(s, e) && forall p :: 1 <= p < |s.procs| ==> !Offers(s, p, a0)
    else if n == SYS_CALL then if IsIpcCall(s, e) then valid else e.env.net.NetPark?
    else if n == SYS_WAIT then IsOwnChild(s, a0) && !s.procs[a0].state.Free?
    else false
  }

  /** The answer, in a0 and a1, to a call that does not put its caller to sleep. A refused
      request is answered by all ones. */
  ghost predicate IsAnswer(s: State, e: Event, v: Word, w: Word)
    requires Shape(s) && e.Ecall?
  {
    var n, a0, me := e.frame.a7, e.frame.a0, s.procs[s.current];
    if n == SYS_RECEIVE then
      if TakesInterrupt(s, e) then v == me.irqNum && w == 0
      else 1 <= w < |s.procs| && Offers(s, w, a0) && v == s.procs[w].ipcValue
           && forall p :: 1 <= p < w ==> !Offers(s, p, a0)
    else
      && w == e.frame.a1
      && if n == SYS_PUTCHAR || n == SYS_YIELD then v == 0
         else if n == SYS_SEND then v == if ValidIpcTarget(a0, s.current, |s.procs|) then 0 else MAX_WORD
         else if n == SYS_CALL && !IsIpcCall(s, e) then e.env.net == NetDone(v)
         else if n == SYS_REPLY then v == if a0 < |s.procs| && a0 > 0 && RepliesTo(s, e, a0) then 0 else MAX_WORD
         else if SYS_MAP <= n <= SYS_FREE_PAGES then v == e.env.result
         else if n == SYS_SPAWN then
           if e.env.image.Some? && exists p :: 1 <= p < |s.procs| && s.procs[p].state.Free? then
             && 1 <= v < |s.procs| && s.procs[v].state.Free?
             && forall p :: 1 <= p < v ==> !s.procs[p].state.Free?
           else v == MAX_WORD
         else if n == SYS_WAIT then v == if IsOwnChild(s, a0) then s.procs[a0].exitCode else MAX_WORD
         else if n == SYS_GETPID then v == s.current
         else if n == SYS_IRQ_REGISTER then v == if ClaimsIrq(s, e, a0 % 0x1_0000_0000) then 0 else MAX_WORD
         else if n == SYS_IRQ_ACK then v == if me.irqNum == 0 then MAX_WORD else 0
         else v == MAX_WORD
  }

  ghost predicate Answered(s: State, e: Event, t: State)
    requires Shape(s) && e.Ecall?
  {
    && s.current < |t.procs|
    && (if IsYield(e) then t.procs[s.current].state.Running? ==> IsAnswer(s, e, t.frame.a0, t.frame.a1)
        else
          && (t.procs[s.current].state.Running? <==> !MustWait(s, e))
          && (!MustWait(s, e) ==> IsAnswer(s, e, t.frame.a0, t.frame.a1)))
  }

  lemma BlocksOwner(s: State, b: nat)
    requires |s.procs| >= 3 && 1 <= b < |s.procs| && !s.procs[b].state.Ready? && !s.procs[b].state.Running?
    ensures |Schedule(s, b).procs| == |s.procs| && !Schedule(s, b).procs[b].state.Running?
  {
  }

  lemma SendAnswers(s: State, e: Event)
    requires Inv(s) && UserMode(s) && s.frame == e.frame && IsSyscall(e, SYS_SEND)
    ensures Answered(s, e, SysSend(s))
  {
    hide Schedule, TableInv;
    var s0 := s.(frame := Advance(s.frame));
    BlocksOwner(s0.(procs := s0.procs[s.current := s0.procs[s.current].(
                    ipcTarget := s0.frame.a0, ipcValue := s0.frame.a1, state := BlockedSend)]), s.current);
  }

  lemma CallAnswers(s: State, e: Event)
    requires Inv(s) && UserMode(s) && s.frame == e.frame && IsIpcCall(s, e)
    ensures Answered(s, e, SysCall(s))
  {
    hide Schedule, TableInv;
    var s0 := s.(frame := Advance(s.frame));
    var f, t := s0.frame, s0.frame.a0;
    if ValidIpcTarget(t, s.current, |s.procs|) {
      var r := s0.procs[t];
      var woken := r.(context := r.context.(a0 := f.a1, a1 := s.current, a2 := f.a2, a3 := f.a3), state := Ready);
      var s1 := if WouldRendezvous(s0, t) then s0.(procs := s0.procs[t := woken]) else s0;
      BlocksOwner(s1.(procs := s1.procs[s.current := s1.procs[s.current].(
                      ipcTarget := t, ipcValue := f.a1, ipcArg2 := f.a2, ipcArg3 := f.a3,
                      state := BlockedCall)]), s.current);
    }
  }

  lemma ReceiveAnswers(s: State, e: Event)
    requires Inv(s) && UserMode(s) && s.frame == e.frame && IsSyscall(e, SYS_RECEIVE)
    ensures Answered(s, e, SysReceive(s))
  {
    hide Schedule, TableInv;
    var s0, from := s.(frame := Advance(s.frame)), e.frame.a0;
    BlocksOwner(s0.(procs := s0.procs[s.current := s0.procs[s.current].(
                    ipcTarget := from, state := BlockedRecv)]), s.current);
    forall p | 1 <= p < |s.procs|
      ensures Matches(SendsTo(s.current, from), p, s.procs[p]) <==> Offers(s, p, from) { }
    var i := First(s.procs, SendsTo(s.current, from), 1);
    assert i != 0 ==> Offers(s, i, from);
  }

  lemma WaitAnswers(s: State, e: Event)
    requires Inv(s) && UserMode(s) && s.frame == e.frame && IsSyscall(e, SYS_WAIT)
    ensures Answered(s, e, SysWait(s))
  {
    hide Schedule, TableInv;
    var s0 := s.(frame := Advance(s.frame));
    BlocksOwner(s0.(procs := s0.procs[s.current := s0.procs[s.current].(
                    ipcTarget := s0.frame.a0, state := BlockedWait)]), s.current);
  }

  lemma NetAnswers(s: State, e: Event)
    requires Inv(s) && UserMode(s) && s.frame == e.frame && IsSyscall(e, SYS_CALL) && !IsIpcCall(s, e)
    ensures Answered(s, e, NetRequest(s, e.env.net))
  {
    hide Schedule, TableInv;
    if e.env.net.NetPark? {
      var reply := e.env.net;
      var s0 := s.(frame := Advance(s.frame));
      BlocksOwner(s0.(procs := s0.procs[s.current := s0.procs[s.current].(
                     netOp := reply.op, netSocket := reply.socket, netBufVa := reply.bufVa,
                     netBufLen := reply.bufLen, state := BlockedNet)]), s.current);
    }
  }

  lemma YieldAnswers(s: State, e: Event)
    requires Inv(s) && UserMode(s) && s.frame == e.frame && IsYield(e)
    ensures Answered(s, e, SysYield(s))
  {
    hide TableInv;
    if Scan(s.procs, s.current, 1, |s.procs| - 1) != 0 {
      YieldHandsOver(s);
      hide SysYield, Scan;
    }
  }

  lemma SpawnAnswers(s: State, e: Event)
    requires Inv(s) && UserMode(s) && s.frame == e.frame && IsSyscall(e, SYS_SPAWN)
    ensures Answered(s, e, SysSpawn(s, e.env.image))
  {
    hide TableInv, NewProcess, InitialContext;
    forall p | 1 <= p < |s.procs| ensures Matches(IsFree, p, s.procs[p]) <==> s.procs[p].state.Free? { }
  }

  lemma OtherAnswers(s: State, e: Event)
    requires Inv(s) && UserMode(s) && s.frame == e.frame && e.Ecall?
    requires s.frame.a7 !in {SYS_EXIT, SYS_SEND, SYS_RECEIVE, SYS_CALL, SYS_SPAWN, SYS_WAIT, SYS_YIELD}
    ensures Answered(s, e, HandleEcall(s, e.env))
  {
    hide TableInv, SysExit, SysSend, SysReceive, SysCall, SysWait, SysYield, NetRequest, SysSpawn;
  }

  lemma EcallAnswers(s: State, e: Event)
    requires Inv(s) && UserMode(s) && s.frame == e.frame && e.Ecall? && !IsExit(e)
    ensures Answered(s, e, HandleEcall(s, e.env))
  {
    hide SysExit, SysSend, SysReceive, SysCall, SysWait, SysYield, NetRequest, SysSpawn, TableInv, Answered;
    var n := s.frame.a7;
    if n == SYS_SEND { SendAnswers(s, e); }
    else if n == SYS_RECEIVE { ReceiveAnswers(s, e); }
    else if n == SYS_CALL { if IsIpcCall(s, e) { CallAnswers(s, e); } else { NetAnswers(s, e); } }
    else if n == SYS_WAIT { WaitAnswers(s, e); }
    else if n == SYS_YIELD { YieldAnswers(s, e); }
    else if n == SYS_SPAWN { SpawnAnswers(s, e); }
    else { OtherAnswers(s, e); }
  }

  /** Every system call but exit, in every reachable state, puts its caller to sleep exactly
      when it must and otherwise answers as it should. */
  lemma EveryCallIsAnswered(s: State, e: Event)
    requires Inv(s) && UserMode(s) && Enabled(s, e) && e.Ecall? && !IsExit(e)
    ensures Answered(s, e, Next(s, e))
  {
    hide TableInv, HandleEcall, Answered;
    EnterKeepsInv(s, e);
    EcallAnswers(Enter(s, e), e);
    AnswerIgnoresFrame(s, e, Next(s, e));
  }

  lemma AnswerIgnoresFrame(s: State, e: Event, t: State)
    requires Shape(s) && Shape(Enter(s, e)) && e.Ecall?
    ensures Answered(Enter(s, e), e, t) <==> Answered(s, e, t)
  {
    var s1 := Enter(s, e);
    assert forall p, from :: Offers(s1, p, from) <==> Offers(s, p, from);
  }

  // ---------- Who owns an interrupt ----------

  /** IRQ_OWNER after a trap: a claim by the current process enters it; its end takes it out of
      the entry of the interrupt it registered last; nothing else changes. */
  ghost function OwnersAfter(s: State, e: Event): seq<nat>
    requires Shape(s)
  {
    var irq, last := e.frame.a0 % 0x1_0000_0000, s.procs[s.current].irqNum;
    if UserMode(s) && ClaimsIrq(s, e, irq) then s.irqOwner[irq := s.current]
    else if UserMode(s) && IsExit(e) && 0 < last < MAX_IRQS then s.irqOwner[last := 0]
    else s.irqOwner
  }

  lemma OwnersStep(s: State, e: Event)
    requires Inv(s) && Enabled(s, e)
    ensures Next(s, e).irqOwner == OwnersAfter(s, e) && Next(s, e).cfg == s.cfg
  {
    hide TableInv, HandleEcall, HandleTimer, KillCurrent, WakeBlocked, ScheduleFromIdle, SysExit;
    var s1 := Enter(s, e);
    match e
    case Ecall(_, env) => if IsExit(e) { EndOwners(s1, e); ExitCall(s1, env); } else { CallOwners(s1, env); }
    case Timer(_, wakes) => TimerOwners(s1, wakes);
    case External(_, irq, _) =>
      if InterruptOwner(s, e) != 0 { IdleOwners(IrqNotify(s1, irq, InterruptOwner(s, e))); }
    case Fault(_, _) => EndOwners(s1, e);
  }

  lemma ExitCall(s: State, env: Env)
    requires Shape(s) && s.current >= 1 && s.frame.a7 == SYS_EXIT
    ensures HandleEcall(s, env) == SysExit(s)
  {
    hide SysExit;
  }

  lemma CallOwners(s: State, env: Env)
    requires Inv(s) && UserMode(s) && s.frame.a7 != SYS_EXIT
    ensures HandleEcall(s, env).cfg == s.cfg
    ensures var irq := s.frame.a0 % 0x1_0000_0000;
            HandleEcall(s, env).irqOwner
            == if s.frame.a7 == SYS_IRQ_REGISTER && irq < MAX_IRQS && s.irqOwner[irq] == 0
               then s.irqOwner[irq := s.current] else s.irqOwner
  {
    hide TableInv, Scan, First, NewProcess, InitialContext, SysExit;
  }

  lemma TimerOwners(s: State, wakes: seq<Option<Word>>)
    requires Shape(s) && |wakes| == |s.procs|
    ensures HandleTimer(s, wakes).cfg == s.cfg && HandleTimer(s, wakes).irqOwner == s.irqOwner
  {
    hide Scan, First, WakeBlocked;
  }

  lemma IdleOwners(s: State)
    requires |s.procs| >= 1
    ensures ScheduleFromIdle(s).cfg == s.cfg && ScheduleFromIdle(s).irqOwner == s.irqOwner
  {
    hide First;
  }

  lemma EndOwners(s: State, e: Event)
    requires Inv(s) && UserMode(s) && s.frame == e.frame && IsExit(e) && Enabled(s, e)
    ensures var r := Reap(s, ExitCode(e));
            && SysExit(s).cfg == KillCurrent(s, ExitCode(e)).cfg == r.cfg == s.cfg
            && (e.Ecall? ==> SysExit(s).irqOwner == r.irqOwner)
            && (e.Fault? ==> KillCurrent(s, ExitCode(e)).irqOwner == r.irqOwner)
            && r.irqOwner == OwnersAfter(s, e)
  {
    hide TableInv, First;
    EndReleases(s, ExitCode(e));
    EndReleases(s, s.frame.a0);
    hide Reap;
  }

  lemma EndReleases(s: State, code: Word)
    requires Shape(s)
    ensures var r, last := Reap(s, code), s.procs[s.current].irqNum;
            && r.irqOwner == (if 0 < last < MAX_IRQS then s.irqOwner[last := 0] else s.irqOwner) && r.cfg == s.cfg
  {
  }

  /** A claim succeeds if and only if nobody owns the interrupt; then its caller does, and any
      further claim is refused. */
  lemma ClaimIsExclusive(s: State, e: Event, irq: nat)
    requires Inv(s) && UserMode(s) && Enabled(s, e) && IsSyscall(e, SYS_IRQ_REGISTER)
    requires irq == e.frame.a0 % 0x1_0000_0000
    ensures var t := Next(s, e);
            && |t.irqOwner| == MAX_IRQS && s.current < |t.procs| && t.current == s.current
            && (t.frame.a0 == 0 <==> irq < MAX_IRQS && s.irqOwner[irq] == 0)
            && (t.frame.a0 == 0 ==> t.irqOwner[irq] == s.current && t.procs[s.current].irqNum == irq)
            && (t.frame.a0 != 0 ==> t.frame.a0 == MAX_WORD && t.irqOwner == s.irqOwner)
  {
    hide Next, TableInv, Enabled;
    OwnersStep(s, e);
    OwnerStep(s, e);
    EveryCallIsAnswered(s, e);
  }

  /** The end of a process releases an interrupt that it owns if and only if that is the one it
      registered last, and not interrupt 0. */
  lemma EndReleasesIff(s: State, e: Event, irq: nat)
    requires Inv(s) && Enabled(s, e) && UserMode(s) && IsExit(e) && irq < MAX_IRQS && s.irqOwner[irq] == s.current
    ensures |Next(s, e).irqOwner| == MAX_IRQS
    ensures Next(s, e).irqOwner[irq] == 0 <==> irq == s.procs[s.current].irqNum && irq != 0
  {
    hide Next, TableInv, Enabled;
    OwnersStep(s, e);
  }

  // ---------- Interrupts ----------

  /** The current process `p` asks for a message from anyone. */
  ghost predicate AsksAnyone(s: State, e: Event, p: nat) {
    UserMode(s) && s.current == p && IsSyscall(e, SYS_RECEIVE) && e.frame.a0 == 0
  }

  /** An interrupt of `p` arrives. */
  ghost predicate Interrupts(s: State, e: Event, p: nat)
    requires Shape(s)
  {
    e.External? && InterruptOwner(s, e) == p
  }

  ghost predicate Claims(s: State, e: Event, p: nat) {
    UserMode(s) && s.current == p && IsSyscall(e, SYS_IRQ_REGISTER)
  }

  /** The flag of a live process is raised by its interrupts, except that one which finds it
      asleep in RECEIVE is delivered at once, and lowered by its asking. The number changes by
      its claims. */
  lemma FlagStep(s: State, e: Event, p: nat)
    requires Inv(s) && Enabled(s, e) && 1 <= p < |s.procs| && !s.procs[p].state.Free? && !Ends(s, e, p)
    ensures p < |Next(s, e).procs|
    ensures var a, b := s.procs[p], Next(s, e).procs[p];
            && (!AsksAnyone(s, e, p) ==>
                  (b.irqPending <==> a.irqPending || (Interrupts(s, e, p) && !a.state.BlockedRecv?)))
            && (AsksAnyone(s, e, p) ==> !b.irqPending)
            && (!Claims(s, e, p) ==> b.irqNum == a.irqNum)
  {
    hide Next, TableInv, Enabled;
    if UserMode(s) && s.current == p {
      OwnerStep(s, e);
      InterruptsAreNotCalls(s, e);
      if e.Ecall? && !IsExit(e) { EveryCallIsAnswered(s, e); }
    } else {
      BystanderStep(s, e, p);
      EffectOnFlag(s, e, p);
    }
  }

  lemma InterruptsAreNotCalls(s: State, e: Event)
    requires Shape(s)
    ensures e.Ecall? || e.Timer? || e.Fault? ==> InterruptOwner(s, e) == 0
  {
  }

  lemma EffectOnFlag(s: State, e: Event, p: nat)
    requires Shape(s) && Enabled(s, e) && 1 <= p < |s.procs| && !s.procs[p].state.Free?
    ensures var a, b := s.procs[p], Effect(s, e, p);
            && (b.irqPending <==> a.irqPending || (Interrupts(s, e, p) && !a.state.BlockedRecv?))
            && b.irqNum == a.irqNum
  {
  }

  ghost predicate QuietAt(states: seq<State>, events: seq<Event>, k: nat, p: nat) {
    && k < |events| && k < |states|
    && !Ends(states[k], events[k], p) && !AsksAnyone(states[k], events[k], p) && !Claims(states[k], events[k], p)
  }

  /** From `i` to `j` process `p` neither ends nor asks for a message from anyone nor claims an
      interrupt. */
  ghost predicate Quiet(states: seq<State>, events: seq<Event>, i: nat, j: nat, p: nat) {
    forall k: nat :: i <= k < j ==> QuietAt(states, events, k, p)
  }

  lemma {:induction false} FlagStays(states: seq<State>, events: seq<Event>, i: nat, j: nat, p: nat)
    requires IsRun(states, events) && i <= j < |states| && Inv(states[i])
    requires 1 <= p < |states[i].procs| && !states[i].procs[p].state.Free? && Quiet(states, events, i, j, p)
    ensures Inv(states[j]) && p < |states[j].procs| && !states[j].procs[p].state.Free?
    ensures states[j].procs[p].irqNum == states[i].procs[p].irqNum
    ensures states[i].procs[p].irqPending ==> states[j].procs[p].irqPending
    ensures (forall k: nat :: i <= k < j ==> NoInterruptAt(states, events, k, p)) && !states[i].procs[p].irqPending ==>
              !states[j].procs[p].irqPending
    decreases j - i
  {
    hide Next, Inv, Step, Enabled, Ends;
    if i < j {
      assert QuietAt(states, events, i, p);
      StepAt(states, events, i);
      LifeStep(states[i], events[i], p);
      FlagStep(states[i], events[i], p);
      FlagStays(states, events, i + 1, j, p);
      if forall k: nat :: i <= k < j ==> NoInterruptAt(states, events, k, p) {
        assert NoInterruptAt(states, events, i, p);
      }
    }
  }

  ghost predicate NoInterruptAt(states: seq<State>, events: seq<Event>, k: nat, p: nat) {
    k < |events| && k < |states| && Shape(states[k]) && !Interrupts(states[k], events[k], p)
  }

  /** An interrupt that finds its owner not asleep in RECEIVE is what the owner's next RECEIVE
      from anyone returns, with sender 0; and that lowers the flag. */
  lemma InterruptIsDelivered(states: seq<State>, events: seq<Event>, i: nat, j: nat, p: nat, irq: nat)
    requires IsRun(states, events) && i < j < |events| && Inv(states[i])
    requires 1 <= p < |states[i].procs| && !states[i].procs[p].state.Free? && !states[i].procs[p].state.BlockedRecv?
    requires events[i].External? && events[i].irq == irq && 0 < irq < MAX_IRQS && states[i].irqOwner[irq] == p
    requires states[i].procs[p].irqNum == irq && Quiet(states, events, i + 1, j, p)
    requires AsksAnyone(states[j], events[j], p)
    ensures p < |states[j + 1].procs| && states[j + 1].current == p && UserMode(states[j + 1])
    ensures states[j + 1].frame.a0 == irq && states[j + 1].frame.a1 == 0 && !states[j + 1].procs[p].irqPending
  {
    hide Next, Step, Enabled, TableInv;
    StepAt(states, events, i);
    LifeStep(states[i], events[i], p);
    FlagStep(states[i], events[i], p);
    FlagStays(states, events, i + 1, j, p);
    StepAt(states, events, j);
    EveryCallIsAnswered(states[j], events[j]);
    OwnerStep(states[j], events[j]);
  }

  /** It is returned once: unless another one arrives, the next RECEIVE from anyone finds no
      interrupt. */
  lemma InterruptIsDeliveredOnce(states: seq<State>, events: seq<Event>, i: nat, j: nat, p: nat)
    requires IsRun(states, events) && i < j < |events| && Inv(states[i])
    requires 1 <= p < |states[i].procs| && AsksAnyone(states[i], events[i], p)
    requires Quiet(states, events, i + 1, j, p) && AsksAnyone(states[j], events[j], p)
    requires forall k: nat :: i < k < j ==> NoInterruptAt(states, events, k, p)
    ensures Shape(states[j]) && !TakesInterrupt(states[j], events[j])
  {
    hide Next, Step, Enabled, TableInv;
    StepAt(states, events, i);
    LifeStep(states[i], events[i], p);
    FlagStep(states[i], events[i], p);
    FlagStays(states, events, i + 1, j, p);
  }

  /** An owner that slept in RECEIVE first, from whomever, finds the same in a0 and a1. */
  lemma SleeperGetsInterrupt(s: State, e: Event, p: nat, irq: nat)
    requires Inv(s) && Enabled(s, e) && 1 <= p < |s.procs| && s.procs[p].state.BlockedRecv?
    requires e.External? && e.irq == irq && 0 < irq < MAX_IRQS && s.irqOwner[irq] == p
    ensures var t := Next(s, e);
            && p < |t.procs| && (t.procs[p].state.Ready? || (t.procs[p].state.Running? && t.current == p))
            && var f := if t.procs[p].state.Running? then t.frame else t.procs[p].context;
               f == s.procs[p].context.(a0 := irq, a1 := 0)
  {
    hide Next, TableInv, Enabled;
    OffCpuIsBystander(s, p);
    BystanderStep(s, e, p);
  }

  // ---------- Exit codes ----------

  ghost predicate FreeAt(states: seq<State>, k: nat, p: nat) {
    k < |states| && p < |states[k].procs| && states[k].procs[p].state.Free?
  }

  lemma FreeStep(s: State, e: Event, p: nat)
    requires Inv(s) && Enabled(s, e) && 1 <= p < |s.procs| && s.procs[p].state.Free?
    requires p < |Next(s, e).procs| && Next(s, e).procs[p].state.Free?
    ensures Next(s, e).procs[p].exitCode == s.procs[p].exitCode && Next(s, e).procs[p].parent == s.procs[p].parent
  {
    hide Next, TableInv, Enabled;
    BystanderStep(s, e, p);
    EffectOnFree(s, e, p);
  }

  lemma EffectOnFree(s: State, e: Event, p: nat)
    requires Shape(s) && Enabled(s, e) && 1 <= p < |s.procs| && s.procs[p].state.Free?
    ensures var a, b := s.procs[p], Effect(s, e, p);
            b.state.Ready? || b == a.(irqPending := b.irqPending)
  {
    hide First;
  }

  lemma {:induction false} ExitCodeStays(states: seq<State>, events: seq<Event>, i: nat, j: nat, p: nat)
    requires IsRun(states, events) && i <= j < |states| && Inv(states[i]) && 1 <= p < |states[i].procs|
    requires forall k: nat :: i <= k <= j ==> FreeAt(states, k, p)
    ensures Inv(states[j]) && p < |states[j].procs| && states[j].procs[p].exitCode == states[i].procs[p].exitCode
    decreases j - i
  {
    hide Next, Inv, Step, Enabled;
    if i < j {
      assert FreeAt(states, i, p) && FreeAt(states, i + 1, p);
      StepAt(states, events, i);
      FreeStep(states[i], events[i], p);
      ExitCodeStays(states, events, i + 1, j, p);
    }
  }

  /** A parent that waits for a child that has ended already gets the code with which it ended,
      as long as its slot has not been used again. */
  lemma WaitAfterEnd(states: seq<State>, events: seq<Event>, i: nat, j: nat, child: nat)
    requires IsRun(states, events) && i < j < |events| && Inv(states[i])
    requires 1 <= child < |states[i].procs| && Ends(states[i], events[i], child)
    requires events[i].Fault? ==> events[i].code < 64
    requires forall k: nat :: i < k <= j ==> FreeAt(states, k, child)
    requires UserMode(states[j]) && IsSyscall(events[j], SYS_WAIT) && events[j].frame.a0 == child
    requires IsOwnChild(states[j], child)
    ensures states[j + 1].current == states[j].current && states[j + 1].frame.a0 == ExitCode(events[i])
  {
    hide Next, Step, Enabled, TableInv;
    StepAt(states, events, i);
    OwnerStep(states[i], events[i]);
    EndingFrees(states[i], events[i]);
    assert FreeAt(states, j, child);
    ExitCodeStays(states, events, i + 1, j, child);
    StepAt(states, events, j);
    EveryCallIsAnswered(states[j], events[j]);
    OwnerStep(states[j], events[j]);
  }

  // ---------- New processes ----------

  /** A spawned process starts at the entry point of its image, on its page table, with the
      stack pointer at the end of the page that the loader maps for the stack, in U-mode with
      interrupts on, and with every other register zero, whoever gives it the CPU first. */
  lemma SpawnedProcessStarts(states: seq<State>, events: seq<Event>, i: nat, j: nat, p: nat, image: Image)
    requires IsRun(states, events) && i < j < |events| && Inv(states[i]) && UserMode(states[i])
    requires IsSyscall(events[i], SYS_SPAWN) && events[i].env.image == Some(image)
    requires states[i + 1].frame.a0 == p && 1 <= p < |states[i].procs|
    requires ReadyThroughout(states, i + 1, j, p)
    requires p < |states[j + 1].procs| && states[j + 1].procs[p].state.Running?
    ensures states[j + 1].current == p && states[j + 1].satp == image.satp
    ensures var f := states[j + 1].frame;
            && f.sepc == image.entry && f.sp == ElfLoader.STACK_VA + PageAlloc.PAGE_SIZE
            && f.a0 == f.a1 == f.a2 == f.a3 == f.a7 == 0 && f.others == seq(OTHER_REGISTERS, _ => 0)
            && !f.sstatus.spp && f.sstatus.spie && f.sstatus.other == 0
    ensures states[i + 1].procs[p].parent == states[i].current && states[i + 1].procs[p].pid == p
  {
    hide Next, Step, Enabled, TableInv, TakesInterrupt, OwnBlock;
    StepAt(states, events, i);
    SpawnMakes(states[i], events[i], p, image);
    assert states[i + 1].procs[p].state.Ready?;
    ReadyContextIsFrozen(states, events, i + 1, j, p);
    SatpIsFrozen(states, events, i + 1, j, p);
    StepAt(states, events, j);
    assert states[j].procs[p].state.Ready?;
    SleepStep(states[j], events[j], p);
    ReadySatp(states[j], events[j], p);
  }

  lemma SpawnMakes(s: State, e: Event, p: nat, image: Image)
    requires Inv(s) && Enabled(s, e) && UserMode(s) && IsSyscall(e, SYS_SPAWN) && e.env.image == Some(image)
    requires 1 <= p < |s.procs| && Next(s, e).frame.a0 == p
    ensures p < |Next(s, e).procs|
    ensures Next(s, e).procs[p]
            == Process(p, Ready, image.satp, StartFrame(image.entry), 0, 0, 0, 0, s.current, 0, 0, false,
                       NoNetOp, 0, 0, 0)
  {
    hide Next, TableInv, Enabled;
    EveryCallIsAnswered(s, e);
    OwnerStep(s, e);
    TableSizeStep(s, e);
    assert s.procs[p].state.Free? && s.current != p;
    assert First(s.procs, IsFree, 1) == p by { LowestFree(s, p); }
    BystanderStep(s, e, p);
  }

  lemma LowestFree(s: State, p: nat)
    requires 1 <= p < |s.procs| && s.procs[p].state.Free?
    requires forall q :: 1 <= q < p ==> !s.procs[q].state.Free?
    ensures First(s.procs, IsFree, 1) == p
  {
    var i := First(s.procs, IsFree, 1);
    assert Matches(IsFree, p, s.procs[p]);
    assert i != 0 && Matches(IsFree, i, s.procs[i]);
  }

  lemma {:induction false} SatpIsFrozen(states: seq<State>, events: seq<Event>, i: nat, j: nat, p: nat)
    requires IsRun(states, events) && i <= j < |states| && Inv(states[i]) && 1 <= p
    requires ReadyThroughout(states, i, j, p)
    ensures p < |states[i].procs| && p < |states[j].procs| && states[j].procs[p].satp == states[i].procs[p].satp
    decreases j - i
  {
    hide Next, Inv, Step, Enabled;
    assert p < |states[i].procs|;
    if i < j {
      assert states[i].procs[p].state.Ready? && states[i + 1].procs[p].state.Ready?;
      StepAt(states, events, i);
      ReadySatp(states[i], events[i], p);
      SatpIsFrozen(states, events, i + 1, j, p);
    }
  }

  lemma ReadySatp(s: State, e: Event, p: nat)
    requires Inv(s) && Enabled(s, e) && 1 <= p < |s.procs| && s.procs[p].state.Ready?
    ensures p < |Next(s, e).procs| && Next(s, e).procs[p].satp == s.procs[p].satp
    ensures Next(s, e).procs[p].state.Running? ==> Next(s, e).satp == s.procs[p].satp && Next(s, e).current == p
  {
    hide Next, TableInv, Enabled;
    OffCpuIsBystander(s, p);
    BystanderStep(s, e, p);
  }
}
