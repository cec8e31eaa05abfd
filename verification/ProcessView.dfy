/** What one trap does to one process: the effect of the event itself, and then
    at most the decision to run it. */
module ProcessView {
  import opened ProcessTable
  import opened Scheduler
  import opened Ipc
  import opened Lifecycle
  import opened Dispatch
  import opened KernelInvariant

  ghost predicate IsSyscall(e: Event, n: Word) { e.Ecall? && e.frame.a7 == n }

  ghost predicate IsYield(e: Event) { IsSyscall(e, SYS_YIELD) }

  ghost predicate IsExit(e: Event) { IsSyscall(e, SYS_EXIT) || e.Fault? }

  ghost function ExitCode(e: Event): Word
    requires e.Fault? ==> e.code < 64
  {
    if e.Fault? then 128 + e.code else e.frame.a0
  }

  /** A call that goes to a process, not to the built-in network server. */
  ghost predicate IsIpcCall(s: State, e: Event) {
    IsSyscall(e, SYS_CALL) && !(s.cfg.netEnabled && e.frame.a0 == NET_SERVER_PID)
  }

  /** The process that an interrupt is delivered to, or 0. */
  ghost function InterruptOwner(s: State, e: Event): nat
    requires Shape(s)
  {
    if e.External? && 0 < e.irq < MAX_IRQS then s.irqOwner[e.irq] else 0
  }

  ghost predicate NetSweep(s: State, e: Event)
    requires Shape(s)
  {
    e.Timer? || (e.External? && e.irq != 0 && InterruptOwner(s, e) == 0)
  }

  /** The message that the current process receives is taken from the sender `p`. */
  ghost predicate ReceivesFrom(s: State, e: Event, p: nat)
    requires Shape(s)
  {
    && IsSyscall(e, SYS_RECEIVE)
    && !(s.procs[s.current].irqPending && e.frame.a0 == 0)
    && p != 0 && First(s.procs, SendsTo(s.current, e.frame.a0), 1) == p
  }

  ghost predicate RepliesTo(s: State, e: Event, p: nat)
    requires p < |s.procs|
  {
    && IsSyscall(e, SYS_REPLY) && e.frame.a0 == p && p != s.current
    && s.procs[p].state.BlockedCall? && s.procs[p].ipcTarget == s.current
  }

  /** The registers of a new process: its entry point, the end of its stack page, U-mode with
      interrupts on, and zeros. */
  ghost function StartFrame(entry: Word): TrapFrame {
    TrapFrame(0, 0, 0, 0, 0, 0x7FFF_0000 + 0x1000, entry, Sstatus(false, true, 0), seq(OTHER_REGISTERS, _ => 0))
  }

  /** The control block of a process that is not on the CPU, after the direct effect
      of event `e` and before any scheduling decision. */
  ghost function Effect(s: State, e: Event, p: nat): Process
    requires Shape(s) && 1 <= p < |s.procs| && Enabled(s, e)
  {
    var a := s.procs[p];
    if InterruptOwner(s, e) == p then
      if a.state.BlockedRecv? then a.(context := a.context.(a0 := e.irq, a1 := 0), state := Ready)
      else a.(irqPending := true)
    else match a.state
      case BlockedRecv =>
        if IsSyscall(e, SYS_SEND) && e.frame.a0 == p && Accepts(a.ipcTarget, s.current) then
          a.(context := a.context.(a0 := e.frame.a1, a1 := s.current), state := Ready)
        else if IsIpcCall(s, e) && e.frame.a0 == p && Accepts(a.ipcTarget, s.current) then
          a.(context := a.context.(a0 := e.frame.a1, a1 := s.current, a2 := e.frame.a2, a3 := e.frame.a3),
             state := Ready)
        else a
      case BlockedSend =>
        if ReceivesFrom(s, e, p) then a.(context := a.context.(a0 := 0), state := Ready) else a
      case BlockedCall =>
        if RepliesTo(s, e, p) then a.(context := a.context.(a0 := e.frame.a1), state := Ready) else a
      case BlockedWait =>
        if IsExit(e) && a.ipcTarget == s.current then
          a.(context := a.context.(a0 := ExitCode(e)), state := Ready)
        else a
      case BlockedNet =>
        if NetSweep(s, e) && !a.netOp.NoNetOp? && e.wakes[p].Some? then
          a.(context := a.context.(a0 := e.wakes[p].value), netOp := NoNetOp, state := Ready)
        else a
      case Free =>
        if IsSyscall(e, SYS_SPAWN) && e.env.image.Some? && First(s.procs, IsFree, 1) == p then
          Process(p, Ready, e.env.image.value.satp, StartFrame(e.env.image.value.entry), 0, 0, 0, 0, s.current, 0, 0,
                  false, NoNetOp, 0, 0, 0)
        else a
      case _ => a
  }

  /** The frame that a resumed process finds: its saved context, except that a
      yield clears the a0 of the process it switches to. */
  ghost function LoadedFrame(e: Event, context: TrapFrame): TrapFrame {
    if IsYield(e) then context.(a0 := 0) else context
  }

  /** `p`, whose control block was `q`, now owns the CPU. */
  ghost predicate Resumed(t: State, e: Event, p: nat, q: Process) {
    && p < |t.procs|
    && t.current == p
    && t.procs[p] == q.(state := Running)
    && t.satp == q.satp
    && t.frame == LoadedFrame(e, q.context)
  }

  /** Left as `q`, or resumed from it. */
  ghost predicate LeftOrResumed(t: State, e: Event, p: nat, q: Process) {
    && p < |t.procs|
    && (t.procs[p] == q || (q.state.Ready? && Resumed(t, e, p, q)))
  }

  /** `LeftOrResumed` for a switch that loads the saved context unchanged. */
  ghost predicate LeftOrLoaded(t: State, p: nat, q: Process) {
    && p < |t.procs|
    && (t.procs[p] == q
        || (q.state.Ready? && t.current == p && t.procs[p] == q.(state := Running)
            && t.satp == q.satp && t.frame == q.context))
  }

  lemma ScheduleView(s: State, blocked: nat, p: nat)
    requires |s.procs| >= 3 && 1 <= blocked < |s.procs| && 1 <= p < |s.procs| && p != blocked
    ensures LeftOrLoaded(Schedule(s, blocked), p, s.procs[p])
  {
  }

  lemma PreemptView(s: State, p: nat)
    requires |s.procs| >= 3 && s.current < |s.procs| && 1 <= p < |s.procs| && p != s.current
    ensures LeftOrLoaded(Preempt(s), p, s.procs[p])
  {
  }

  lemma IdleView(s: State, p: nat)
    requires |s.procs| >= 3 && 1 <= p < |s.procs|
    ensures LeftOrLoaded(ScheduleFromIdle(s), p, s.procs[p])
  {
  }

  lemma SendView(s: State, e: Event, p: nat)
    requires Inv(s) && UserMode(s) && s.frame == e.frame && IsSyscall(e, SYS_SEND) && Enabled(s, e)
    requires 1 <= p < |s.procs| && p != s.current
    ensures LeftOrResumed(SysSend(s), e, p, Effect(s, e, p))
  {
    hide Schedule, TableInv;
    var s0 := s.(frame := Advance(s.frame));
    var f, t := s0.frame, s0.frame.a0;
    if ValidIpcTarget(t, s.current, |s.procs|) && !WouldRendezvous(s0, t) {
      ScheduleView(s0.(procs := s0.procs[s.current := s0.procs[s.current].(
                      ipcTarget := t, ipcValue := f.a1, state := BlockedSend)]), s.current, p);
    }
  }

  lemma CallView(s: State, e: Event, p: nat)
    requires Inv(s) && UserMode(s) && s.frame == e.frame && IsIpcCall(s, e) && Enabled(s, e)
    requires 1 <= p < |s.procs| && p != s.current
    ensures LeftOrResumed(SysCall(s), e, p, Effect(s, e, p))
  {
    hide Schedule, TableInv;
    var s0 := s.(frame := Advance(s.frame));
    var f, t := s0.frame, s0.frame.a0;
    if ValidIpcTarget(t, s.current, |s.procs|) {
      var q := s0.procs[t];
      var woken := q.(context := q.context.(a0 := f.a1, a1 := s.current, a2 := f.a2, a3 := f.a3), state := Ready);
      var s1 := if WouldRendezvous(s0, t) then s0.(procs := s0.procs[t := woken]) else s0;
      ScheduleView(s1.(procs := s1.procs[s.current := s1.procs[s.current].(
                      ipcTarget := t, ipcValue := f.a1, ipcArg2 := f.a2, ipcArg3 := f.a3,
                      state := BlockedCall)]), s.current, p);
    }
  }

  lemma ReplyView(s: State, e: Event, p: nat)
    requires Inv(s) && UserMode(s) && s.frame == e.frame && IsSyscall(e, SYS_REPLY) && Enabled(s, e)
    requires 1 <= p < |s.procs| && p != s.current
    ensures LeftOrResumed(SysReply(s), e, p, Effect(s, e, p))
  {
  }

  lemma EffectOfReceive(s: State, e: Event, p: nat)
    requires Shape(s) && 1 <= p < |s.procs| && IsSyscall(e, SYS_RECEIVE) && Enabled(s, e)
    ensures var a := s.procs[p];
            Effect(s, e, p) == if a.state.BlockedSend? && ReceivesFrom(s, e, p)
            then a.(context := a.context.(a0 := 0), state := Ready) else a
  {
    hide First, NewProcess, InitialContext, WakeOne, ReceivesFrom;
  }

  lemma ReceiveView(s: State, e: Event, p: nat)
    requires Inv(s) && UserMode(s) && s.frame == e.frame && IsSyscall(e, SYS_RECEIVE) && Enabled(s, e)
    requires 1 <= p < |s.procs| && p != s.current
    ensures LeftOrResumed(SysReceive(s), e, p, Effect(s, e, p))
  {
    hide Schedule, TableInv, Effect;
    EffectOfReceive(s, e, p);
    var s0 := s.(frame := Advance(s.frame));
    var from := s0.frame.a0;
    var me := s0.procs[s.current];
    if !(me.irqPending && from == 0) && First(s0.procs, SendsTo(s.current, from), 1) == 0 {
      ScheduleView(s0.(procs := s0.procs[s.current := me.(ipcTarget := from, state := BlockedRecv)]), s.current, p);
    }
  }

  /** A child has one parent, so at most one process waits for it. */
  lemma OnlyWaiter(q: seq<Process>, child: nat, p: nat)
    requires TableInvBut(q, child) && 1 <= p < |q| && Matches(WaitsFor(child), p, q[p])
    ensures First(q, WaitsFor(child), 1) == p
  {
    hide NoLostRendezvous, NoLostInterrupt, ContextsAreUser, TargetsInRange, NetOpsRecorded;
    var i := First(q, WaitsFor(child), 1);
    assert q[p].state.BlockedWait? && q[i].state.BlockedWait?;
  }

  lemma EffectOfExit(s: State, e: Event, p: nat)
    requires Shape(s) && 1 <= p < |s.procs| && IsExit(e) && Enabled(s, e)
    ensures var a := s.procs[p];
            Effect(s, e, p) == if Matches(WaitsFor(s.current), p, a)
                               then a.(context := a.context.(a0 := ExitCode(e)), state := Ready) else a
  {
  }

  lemma ReapView(s: State, e: Event, p: nat)
    requires Inv(s) && UserMode(s) && IsExit(e) && Enabled(s, e)
    requires 1 <= p < |s.procs| && p != s.current
    ensures Reap(s, ExitCode(e)).procs[p] == Effect(s, e, p)
  {
    RetireKeepsTableButWaiter(s, ExitCode(e));
    EffectOfExit(s, e, p);
    hide TableInv, TableInvBut, Effect;
    var q := Retire(s, ExitCode(e)).procs;
    assert q[p] == s.procs[p];
    if Matches(WaitsFor(s.current), p, q[p]) {
      OnlyWaiter(q, s.current, p);
    }
    hide Retire;
  }

  lemma ExitView(s: State, e: Event, p: nat)
    requires Inv(s) && UserMode(s) && s.frame == e.frame && IsExit(e) && Enabled(s, e)
    requires 1 <= p < |s.procs| && p != s.current
    ensures IsSyscall(e, SYS_EXIT) ==> LeftOrResumed(SysExit(s), e, p, Effect(s, e, p))
    ensures e.Fault? ==> LeftOrResumed(KillCurrent(s, ExitCode(e)), e, p, Effect(s, e, p))
  {
    ReapView(s, e, p);
    hide Reap, Effect;
  }

  lemma WaitView(s: State, e: Event, p: nat)
    requires Inv(s) && UserMode(s) && s.frame == e.frame && IsSyscall(e, SYS_WAIT) && Enabled(s, e)
    requires 1 <= p < |s.procs| && p != s.current
    ensures LeftOrResumed(SysWait(s), e, p, Effect(s, e, p))
  {
    hide Schedule, TableInv;
    var s0 := s.(frame := Advance(s.frame));
    var child := s0.frame.a0;
    ScheduleView(s0.(procs := s0.procs[s.current := s0.procs[s.current].(ipcTarget := child, state := BlockedWait)]),
                 s.current, p);
  }

  lemma NetView(s: State, e: Event, p: nat)
    requires Inv(s) && UserMode(s) && s.frame == e.frame && IsSyscall(e, SYS_CALL) && !IsIpcCall(s, e) && Enabled(s, e)
    requires 1 <= p < |s.procs| && p != s.current
    ensures LeftOrResumed(NetRequest(s, e.env.net), e, p, Effect(s, e, p))
  {
    hide Schedule, TableInv;
    if e.env.net.NetPark? {
      var reply := e.env.net;
      var s0 := s.(frame := Advance(s.frame));
      ScheduleView(s0.(procs := s0.procs[s.current := s0.procs[s.current].(
                     netOp := reply.op, netSocket := reply.socket, netBufVa := reply.bufVa,
                     netBufLen := reply.bufLen, state := BlockedNet)]), s.current, p);
    }
  }

  /** A yield that finds somebody else Ready hands over to the nearest one, and
      clears a0 of the frame it has just loaded. */
  lemma YieldView(s: State, e: Event, p: nat)
    requires Inv(s) && UserMode(s) && s.frame == e.frame && IsYield(e) && Enabled(s, e)
    requires 1 <= p < |s.procs| && p != s.current
    ensures LeftOrResumed(SysYield(s), e, p, Effect(s, e, p))
  {
    hide Schedule, TableInv;
    assert Effect(s, e, p) == s.procs[p];
    var s0 := s.(frame := Advance(s.frame));
    ScheduleView(s0.(procs := s0.procs[s.current := s0.procs[s.current].(state := Ready)]), s.current, p);
  }

  lemma TimerView(s: State, e: Event, p: nat)
    requires Inv(s) && s.frame == e.frame && e.Timer? && Enabled(s, e)
    requires 1 <= p < |s.procs| && (UserMode(s) ==> p != s.current)
    ensures LeftOrResumed(HandleTimer(s, e.wakes), e, p, Effect(s, e, p))
  {
    var s1 := s.(procs := WakeBlocked(s.procs, e.wakes));
    assert s1.procs[p] == Effect(s, e, p);
    hide Effect, WakeBlocked, Preempt, ScheduleFromIdle;
    if UserMode(s) { PreemptView(s1, p); } else { IdleView(s1, p); }
  }

  lemma ExternalView(s: State, e: Event, p: nat)
    requires Inv(s) && s.frame == e.frame && e.External? && Enabled(s, e)
    requires 1 <= p < |s.procs| && (UserMode(s) ==> p != s.current)
    ensures LeftOrResumed(HandleExternal(s, e.irq, e.wakes), e, p, Effect(s, e, p))
  {
    var owner := InterruptOwner(s, e);
    if owner != 0 {
      var s1 := IrqNotify(s, e.irq, owner);
      assert s1.procs[p] == Effect(s, e, p);
      hide Effect, WakeBlocked, ScheduleFromIdle, IrqNotify;
      IdleView(s1, p);
    } else if e.irq != 0 {
      assert WakeBlocked(s.procs, e.wakes)[p] == Effect(s, e, p);
    }
  }

  lemma SpawnView(s: State, e: Event, p: nat)
    requires Inv(s) && UserMode(s) && s.frame == e.frame && IsSyscall(e, SYS_SPAWN) && Enabled(s, e)
    requires 1 <= p < |s.procs| && p != s.current
    ensures LeftOrResumed(SysSpawn(s, e.env.image), e, p, Effect(s, e, p))
  {
    hide TableInv;
  }

  /** The system calls that only answer their caller. */
  ghost predicate IsPlain(e: Event) {
    e.Ecall? && e.frame.a7 !in {SYS_EXIT, SYS_SEND, SYS_RECEIVE, SYS_CALL, SYS_REPLY, SYS_SPAWN, SYS_WAIT, SYS_YIELD}
  }

  lemma PlainView(s: State, e: Event, p: nat)
    requires Inv(s) && UserMode(s) && s.frame == e.frame && IsPlain(e) && Enabled(s, e)
    requires 1 <= p < |s.procs| && p != s.current
    ensures HandleEcall(s, e.env).procs[p] == s.procs[p] == Effect(s, e, p)
    ensures |HandleEcall(s, e.env).procs| == |s.procs|
  {
    hide TableInv;
  }

  lemma EcallView(s: State, e: Event, p: nat)
    requires Inv(s) && UserMode(s) && s.frame == e.frame && e.Ecall? && Enabled(s, e)
    requires 1 <= p < |s.procs| && p != s.current
    ensures LeftOrResumed(HandleEcall(s, e.env), e, p, Effect(s, e, p))
  {
    hide SysExit, SysSend, SysReceive, SysCall, SysReply, SysWait, SysYield, SysSpawn, NetRequest;
    hide TableInv, Effect;
    var n := s.frame.a7;
    if n == SYS_EXIT { ExitView(s, e, p); }
    else if n == SYS_SEND { SendView(s, e, p); }
    else if n == SYS_RECEIVE { ReceiveView(s, e, p); }
    else if n == SYS_CALL { if IsIpcCall(s, e) { CallView(s, e, p); } else { NetView(s, e, p); } }
    else if n == SYS_REPLY { ReplyView(s, e, p); }
    else if n == SYS_SPAWN { SpawnView(s, e, p); }
    else if n == SYS_WAIT { WaitView(s, e, p); }
    else if n == SYS_YIELD { YieldView(s, e, p); }
    else { PlainView(s, e, p); }
  }

  /** Entering the trap does not change what the event is about to do. */
  lemma EffectBeforeEntry(s: State, e: Event, p: nat)
    requires Shape(s) && Shape(Enter(s, e)) && Enabled(s, e) && Enabled(Enter(s, e), e)
    requires 1 <= p < |s.procs| && |Enter(s, e).procs| == |s.procs|
    ensures Effect(Enter(s, e), e, p) == Effect(s, e, p)
  {
    hide First, Accepts, WakeOne, InitialContext, NewProcess, Enabled;
    var s1 := Enter(s, e);
    assert InterruptOwner(s1, e) == InterruptOwner(s, e) && NetSweep(s1, e) == NetSweep(s, e);
    assert ReceivesFrom(s1, e, p) == ReceivesFrom(s, e, p) && RepliesTo(s1, e, p) == RepliesTo(s, e, p);
    hide InterruptOwner, NetSweep, ReceivesFrom, RepliesTo, IsSyscall, IsExit;
  }

  /** Every trap changes a process that is not on the CPU only by the event's own
      effect on it, after which the process may be resumed with exactly the frame
      it was left with. */
  lemma BystanderStep(s: State, e: Event, p: nat)
    requires Inv(s) && Enabled(s, e)
    requires 1 <= p < |s.procs| && (UserMode(s) ==> p != s.current)
    ensures LeftOrResumed(Next(s, e), e, p, Effect(s, e, p))
  {
    hide HandleEcall, HandleTimer, HandleExternal, KillCurrent, Effect, TableInv;
    EnterKeepsInv(s, e);
    var s1 := Enter(s, e);
    EffectBeforeEntry(s, e, p);
    match e
    case Ecall(_, _) => EcallView(s1, e, p);
    case Timer(_, _) => TimerView(s1, e, p);
    case External(_, _, _) => ExternalView(s1, e, p);
    case Fault(_, _) => ExitView(s1, e, p);
  }

  /** The registers of a process whose system call has been taken. */
  ghost function PastCall(f: TrapFrame): TrapFrame { f.(sepc := (f.sepc + 4) % WORD_LIMIT) }

  /** A RECEIVE from anyone that finds an interrupt pending. */
  ghost predicate TakesInterrupt(s: State, e: Event)
    requires Shape(s)
  {
    IsSyscall(e, SYS_RECEIVE) && e.frame.a0 == 0 && s.procs[s.current].irqPending
  }

  /** A request for an interrupt that nobody owns. */
  ghost predicate ClaimsIrq(s: State, e: Event, irq: nat)
    requires Shape(s)
  {
    IsSyscall(e, SYS_IRQ_REGISTER) && irq == e.frame.a0 % 0x1_0000_0000 && irq < MAX_IRQS && s.irqOwner[irq] == 0
  }

  /** The control block of the owner, if it keeps the CPU. */
  ghost function OwnBlock(s: State, e: Event): Process
    requires Shape(s)
  {
    var a, irq := s.procs[s.current], e.frame.a0 % 0x1_0000_0000;
    if TakesInterrupt(s, e) then a.(irqPending := false)
    else if ClaimsIrq(s, e, irq) then a.(irqNum := irq)
    else if InterruptOwner(s, e) == s.current then a.(irqPending := true)
    else a
  }

  /** How the owner of the CPU comes out of a trap: still running with only a0 and
      a1 written, or off the CPU with its registers saved as the trap found them
      (past the ecall, for a system call) and its request on record, or ended. Nothing else
      of its control block changes. */
  ghost predicate OwnerOutcome(s: State, e: Event, t: State)
    requires Shape(s) && Enabled(s, e)
  {
    && |t.procs| == |s.procs|
    && s.current < |t.procs|
    && var a, b, f, past := s.procs[s.current], t.procs[s.current], e.frame, PastCall(e.frame);
       match b.state
       case Running =>
         && t.current == s.current && UserMode(t) && b == OwnBlock(s, e)
         && t.frame == if e.Ecall? then past.(a0 := t.frame.a0, a1 := t.frame.a1) else f
       case Ready =>
         && t.current != s.current && (e.Timer? || IsYield(e))
         && b == a.(state := Ready, context := if e.Timer? then f else past)
       case BlockedSend =>
         && IsSyscall(e, SYS_SEND)
         && b == a.(state := BlockedSend, context := past, ipcTarget := f.a0, ipcValue := f.a1)
       case BlockedCall =>
         && IsIpcCall(s, e)
         && b == a.(state := BlockedCall, context := past, ipcTarget := f.a0, ipcValue := f.a1,
                    ipcArg2 := f.a2, ipcArg3 := f.a3)
       case BlockedRecv =>
         && IsSyscall(e, SYS_RECEIVE) && !TakesInterrupt(s, e)
         && b == a.(state := BlockedRecv, context := past, ipcTarget := f.a0)
       case BlockedWait =>
         IsSyscall(e, SYS_WAIT) && b == a.(state := BlockedWait, context := past, ipcTarget := f.a0)
       case BlockedNet =>
         && IsSyscall(e, SYS_CALL) && !IsIpcCall(s, e) && e.env.net.NetPark?
         && var n := e.env.net;
            b == a.(state := BlockedNet, context := past, netOp := n.op, netSocket := n.socket,
                    netBufVa := n.bufVa, netBufLen := n.bufLen)
       case Free =>
         && IsExit(e)
         && b == a.(state := Free, exitCode := ExitCode(e), irqNum := 0, netOp := NoNetOp, netSocket := 0,
                    netBufVa := 0, netBufLen := 0)
  }

  lemma ScheduleOwner(s: State, b: nat)
    requires |s.procs| >= 3 && 1 <= b < |s.procs| && !s.procs[b].state.Ready?
    ensures |Schedule(s, b).procs| == |s.procs|
    ensures Schedule(s, b).procs[b] == s.procs[b].(context := s.frame)
  {
  }

  lemma SendOwner(s: State, e: Event)
    requires Inv(s) && UserMode(s) && s.frame == e.frame && Enabled(s, e)
    requires IsSyscall(e, SYS_SEND)
    ensures OwnerOutcome(s, e, SysSend(s))
  {
    hide Schedule, TableInv;
    var s0 := s.(frame := Advance(s.frame));
    ScheduleOwner(s0.(procs := s0.procs[s.current := s0.procs[s.current].(
                    ipcTarget := s0.frame.a0, ipcValue := s0.frame.a1, state := BlockedSend)]), s.current);
  }

  lemma CallOwner(s: State, e: Event)
    requires Inv(s) && UserMode(s) && s.frame == e.frame && Enabled(s, e)
    requires IsIpcCall(s, e)
    ensures OwnerOutcome(s, e, SysCall(s))
  {
    hide Schedule, TableInv;
    var s0 := s.(frame := Advance(s.frame));
    var f, t := s0.frame, s0.frame.a0;
    if ValidIpcTarget(t, s.current, |s.procs|) {
      var q := s0.procs[t];
      var woken := q.(context := q.context.(a0 := f.a1, a1 := s.current, a2 := f.a2, a3 := f.a3), state := Ready);
      var s1 := if WouldRendezvous(s0, t) then s0.(procs := s0.procs[t := woken]) else s0;
      ScheduleOwner(s1.(procs := s1.procs[s.current := s1.procs[s.current].(
                      ipcTarget := t, ipcValue := f.a1, ipcArg2 := f.a2, ipcArg3 := f.a3,
                      state := BlockedCall)]), s.current);
    }
  }

  lemma ReceiveOwner(s: State, e: Event)
    requires Inv(s) && UserMode(s) && s.frame == e.frame && Enabled(s, e)
    requires IsSyscall(e, SYS_RECEIVE)
    ensures OwnerOutcome(s, e, SysReceive(s))
  {
    hide Schedule, TableInv;
    var s0 := s.(frame := Advance(s.frame));
    ScheduleOwner(s0.(procs := s0.procs[s.current := s0.procs[s.current].(
                    ipcTarget := s0.frame.a0, state := BlockedRecv)]), s.current);
  }

  lemma WaitOwner(s: State, e: Event)
    requires Inv(s) && UserMode(s) && s.frame == e.frame && Enabled(s, e)
    requires IsSyscall(e, SYS_WAIT)
    ensures OwnerOutcome(s, e, SysWait(s))
  {
    hide Schedule, TableInv;
    var s0 := s.(frame := Advance(s.frame));
    ScheduleOwner(s0.(procs := s0.procs[s.current := s0.procs[s.current].(
                    ipcTarget := s0.frame.a0, state := BlockedWait)]), s.current);
  }

  lemma NetOwner(s: State, e: Event)
    requires Inv(s) && UserMode(s) && s.frame == e.frame && Enabled(s, e)
    requires IsSyscall(e, SYS_CALL) && !IsIpcCall(s, e)
    ensures OwnerOutcome(s, e, NetRequest(s, e.env.net))
  {
    hide Schedule, TableInv;
    if e.env.net.NetPark? {
      var reply := e.env.net;
      var s0 := s.(frame := Advance(s.frame));
      ScheduleOwner(s0.(procs := s0.procs[s.current := s0.procs[s.current].(
                     netOp := reply.op, netSocket := reply.socket, netBufVa := reply.bufVa,
                     netBufLen := reply.bufLen, state := BlockedNet)]), s.current);
    }
  }

  /** The scan of a yield cannot come back to the yielder: somebody nearer is Ready. */
  lemma YieldSwitches(s: State)
    requires Inv(s) && UserMode(s)
    requires Scan(s.procs, s.current, 1, |s.procs| - 1) != 0
    ensures var q := s.procs[s.current := s.procs[s.current].(state := Ready, context := Advance(s.frame))];
            var next := Scan(q, s.current, 1, |s.procs|);
            next == Scan(s.procs, s.current, 1, |s.procs| - 1) && next != s.current
  {
    var q := s.procs[s.current := s.procs[s.current].(state := Ready, context := Advance(s.frame))];
    var n, c := |s.procs|, s.current;
    ScanPicksNearest(s.procs, c, 1, n - 1);
    ScanPicksNearest(q, c, 1, n);
    var r, next := Scan(s.procs, c, 1, n - 1), Scan(q, c, 1, n);
    assert q[r].state.Ready? && Distance(c, next, n) <= Distance(c, r, n);
    assert next != c && s.procs[next].state.Ready?;
  }

  lemma YieldHandsOver(s: State)
    requires Inv(s) && UserMode(s)
    requires Scan(s.procs, s.current, 1, |s.procs| - 1) != 0
    ensures var next := Scan(s.procs, s.current, 1, |s.procs| - 1);
            && next != s.current
            && SysYield(s).current == next
            && SysYield(s).frame == s.procs[next].context.(a0 := 0)
            && SysYield(s).procs
               == s.procs[s.current := s.procs[s.current].(state := Ready, context := Advance(s.frame))]
                         [next := s.procs[next].(state := Running)]
  {
    YieldSwitches(s);
    var s0 := s.(frame := Advance(s.frame));
    var s1 := s0.(procs := s0.procs[s.current := s0.procs[s.current].(state := Ready)]);
    assert Save(s1, s.current).procs
           == s.procs[s.current := s.procs[s.current].(state := Ready, context := Advance(s.frame))];
    hide Scan, Inv;
  }

  lemma YieldOwner(s: State, e: Event)
    requires Inv(s) && UserMode(s) && s.frame == e.frame && Enabled(s, e)
    requires IsYield(e)
    ensures OwnerOutcome(s, e, SysYield(s))
  {
    if Scan(s.procs, s.current, 1, |s.procs| - 1) != 0 {
      YieldHandsOver(s);
      hide SysYield, Scan;
    }
  }

  lemma PreemptOwner(s: State, e: Event)
    requires Inv(s) && UserMode(s) && s.frame == e.frame && e.Timer? && Enabled(s, e)
    ensures OwnerOutcome(s, e, HandleTimer(s, e.wakes))
  {
    var s1 := s.(procs := WakeBlocked(s.procs, e.wakes));
    assert s1.procs[s.current] == s.procs[s.current];
    ScanPicksNearest(s1.procs, s.current, 1, |s.procs| - 1);
    hide WakeBlocked, Scan;
  }

  lemma ExitOwner(s: State, e: Event)
    requires Inv(s) && UserMode(s) && s.frame == e.frame && IsExit(e) && Enabled(s, e)
    ensures IsSyscall(e, SYS_EXIT) ==> OwnerOutcome(s, e, SysExit(s))
    ensures e.Fault? ==> OwnerOutcome(s, e, KillCurrent(s, ExitCode(e)))
  {
    var s1 := Reap(s, ExitCode(e));
    assert s1.procs[s.current].state.Free? && s1.procs[s.current].exitCode == ExitCode(e);
    hide Reap;
  }

  lemma ExternalOwner(s: State, e: Event)
    requires Inv(s) && UserMode(s) && s.frame == e.frame && e.External? && Enabled(s, e)
    ensures OwnerOutcome(s, e, HandleExternal(s, e.irq, e.wakes))
  {
  }

  lemma EcallOwner(s: State, e: Event)
    requires Inv(s) && UserMode(s) && s.frame == e.frame && e.Ecall? && Enabled(s, e)
    ensures OwnerOutcome(s, e, HandleEcall(s, e.env))
  {
    hide SysExit, SysSend, SysReceive, SysCall, SysWait, SysYield, NetRequest, TableInv;
    var n := s.frame.a7;
    if n == SYS_EXIT { ExitOwner(s, e); }
    else if n == SYS_SEND { SendOwner(s, e); }
    else if n == SYS_RECEIVE { ReceiveOwner(s, e); }
    else if n == SYS_CALL { if IsIpcCall(s, e) { CallOwner(s, e); } else { NetOwner(s, e); } }
    else if n == SYS_WAIT { WaitOwner(s, e); }
    else if n == SYS_YIELD { YieldOwner(s, e); }
  }

  lemma OutcomeIgnoresFrame(s: State, s1: State, e: Event, t: State)
    requires Shape(s) && Shape(s1) && Enabled(s, e) && s1 == s.(frame := e.frame)
    ensures OwnerOutcome(s1, e, t) == OwnerOutcome(s, e, t)
  {
  }

  /** The companion of `BystanderStep` for the process on the CPU. */
  lemma OwnerStep(s: State, e: Event)
    requires Inv(s) && UserMode(s) && Enabled(s, e)
    ensures OwnerOutcome(s, e, Next(s, e))
  {
    EnterKeepsInv(s, e);
    var s1 := Enter(s, e);
    hide HandleEcall, HandleTimer, HandleExternal, KillCurrent, Inv, OwnerOutcome;
    assert OwnerOutcome(s1, e, Next(s, e)) == OwnerOutcome(s, e, Next(s, e)) by {
      OutcomeIgnoresFrame(s, s1, e, Next(s, e));
    }
    match e
    case Ecall(_, _) => EcallOwner(s1, e);
    case Timer(_, _) => PreemptOwner(s1, e);
    case External(_, _, _) => ExternalOwner(s1, e);
    case Fault(_, _) => ExitOwner(s1, e);
  }
}
