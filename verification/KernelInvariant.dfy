/** One joint invariant of the process table, the CPU and the rendezvous
    protocol, kept by every trap. */
module KernelInvariant {
  import opened Words
  import opened ProcessTable
  import opened Scheduler
  import opened Ipc
  import opened Lifecycle
  import opened Dispatch

  /** No receiver sleeps while a sender it accepts sleeps on it. */
  ghost predicate NoLostRendezvous(procs: seq<Process>) {
    forall r, t {:trigger procs[r].state.BlockedRecv?, procs[t].ipcTarget} ::
      0 <= r < |procs| && 0 <= t < |procs| && procs[r].state.BlockedRecv?
      && IsSender(procs[t]) && procs[t].ipcTarget == r ==>
      !Accepts(procs[r].ipcTarget, t)
  }

  /** No receiver open to everyone sleeps on a pending interrupt. */
  ghost predicate NoLostInterrupt(procs: seq<Process>) {
    forall r :: 0 <= r < |procs| && procs[r].state.BlockedRecv? && procs[r].irqPending ==>
                procs[r].ipcTarget != 0
  }

  /** Whoever waits for a child waits for a live child of its own. */
  ghost predicate NoStrandedWaiter(procs: seq<Process>) {
    forall i {:trigger procs[i].state.BlockedWait?} :: 0 <= i < |procs| && procs[i].state.BlockedWait? ==>
                var c := procs[i].ipcTarget;
                    0 < c < |procs| && c != i && !procs[c].state.Free? && procs[c].parent == i
  }

  /** The saved context of every live process returns to U-mode. */
  ghost predicate ContextsAreUser(procs: seq<Process>) {
    forall i :: 0 <= i < |procs| && !procs[i].state.Free? ==> !procs[i].context.sstatus.spp
  }

  ghost predicate TargetsInRange(procs: seq<Process>) {
    forall i :: 0 <= i < |procs| && IsSender(procs[i]) ==> 0 < procs[i].ipcTarget < |procs| && procs[i].ipcTarget != i
  }

  ghost predicate NetOpsRecorded(procs: seq<Process>) {
    forall i :: 0 <= i < |procs| && procs[i].state.BlockedNet? ==> !procs[i].netOp.NoNetOp?
  }

  ghost predicate NobodyRunning(procs: seq<Process>) {
    forall i :: 0 <= i < |procs| ==> !procs[i].state.Running?
  }

  /** The part of the invariant that speaks of the table alone. */
  ghost predicate TableInv(procs: seq<Process>) {
    && |procs| >= 3
    && procs[0].state.Free?
    && NoLostRendezvous(procs)
    && NoLostInterrupt(procs)
    && NoStrandedWaiter(procs)
    && ContextsAreUser(procs)
    && TargetsInRange(procs)
    && NetOpsRecorded(procs)
  }

  ghost predicate UserMode(s: State) { !s.frame.sstatus.spp }

  /** CURRENT_PID, the Running state, the live frame's mode and satp agree. A return
      to S-mode finds nobody Running; CURRENT_PID may then be stale only when every
      process has ended. */
  ghost predicate CpuOwnership(s: State) {
    && |s.procs| >= 1
    && s.current < |s.procs|
    && (forall i :: 0 <= i < |s.procs| && s.procs[i].state.Running? ==> i == s.current)
    && (UserMode(s) ==> s.current >= 1 && s.procs[s.current].state.Running? && s.satp == s.procs[s.current].satp)
    && (!UserMode(s) ==> NobodyRunning(s.procs) && s.satp == s.cfg.kernelSatp)
    && (!UserMode(s) && s.current != 0 ==> forall i :: 0 <= i < |s.procs| ==> s.procs[i].state.Free?)
  }

  ghost predicate Inv(s: State) {
    && Shape(s)
    && TableInv(s.procs)
    && CpuOwnership(s)
    && !s.panicked
  }

  /** The table that `launch` leaves: PID 1 running, other boot processes Ready. */
  ghost predicate Initial(s: State) {
    && Shape(s)
    && s.current == 1
    && !s.panicked
    && UserMode(s)
    && s.procs[0].state.Free?
    && s.procs[1].state.Running?
    && s.satp == s.procs[1].satp
    && (forall i :: 0 <= i < |s.procs| && i != 1 ==> s.procs[i].state.Free? || s.procs[i].state.Ready?)
    && (forall i :: 0 <= i < |s.procs| && !s.procs[i].state.Free? ==> s.procs[i].context.sstatus == USER_STATUS)
  }

  lemma InitialEstablishesInv(s: State)
    requires Initial(s)
    ensures Inv(s)
  {
  }

  /** A table in which the CPU has been given up, about to be given away. */
  ghost predicate Released(s: State) {
    Shape(s) && TableInv(s.procs) && NobodyRunning(s.procs) && !s.panicked
  }

  /** What it takes for process `i` to go to sleep as `p`. */
  ghost predicate MayBlock(procs: seq<Process>, i: nat, p: Process)
    requires i < |procs|
  {
    match p.state
    case BlockedSend => MaySleepOn(procs, i, p.ipcTarget)
    case BlockedCall => MaySleepOn(procs, i, p.ipcTarget)
    case BlockedRecv =>
      && (p.irqPending ==> p.ipcTarget != 0)
      && (forall t :: 0 <= t < |procs| && IsSender(procs[t]) && procs[t].ipcTarget == i ==> !Accepts(p.ipcTarget, t))
    case BlockedWait =>
      var c := p.ipcTarget;
      0 < c < |procs| && c != i && !procs[c].state.Free? && procs[c].parent == i
    case BlockedNet => !p.netOp.NoNetOp?
    case _ => false
  }

  ghost predicate MaySleepOn(procs: seq<Process>, i: nat, target: Word) {
    && 0 < target < |procs| && target != i
    && !(procs[target].state.BlockedRecv? && Accepts(procs[target].ipcTarget, i))
  }

  lemma BlockKeepsTable(procs: seq<Process>, i: nat, p: Process)
    requires TableInv(procs) && 1 <= i < |procs| && procs[i].state.Running?
    requires MayBlock(procs, i, p) && p.parent == procs[i].parent && !p.context.sstatus.spp
    ensures TableInv(procs[i := p])
  {
    var q := procs[i := p];
    assert forall k :: 0 <= k < |q| && k != i ==> q[k] == procs[k];
    assert NoLostRendezvous(q);
    assert NoStrandedWaiter(q);
  }

  lemma ReadyKeepsTable(procs: seq<Process>, i: nat, p: Process)
    requires TableInv(procs) && 1 <= i < |procs| && !procs[i].state.Free?
    requires p.state.Ready? && p.parent == procs[i].parent && !p.context.sstatus.spp
    ensures TableInv(procs[i := p])
  {
    var q := procs[i := p];
    assert forall k :: 0 <= k < |q| && k != i ==> q[k] == procs[k];
    assert NoLostRendezvous(q);
    assert NoStrandedWaiter(q);
  }

  lemma SwitchKeepsInv(s: State, next: nat)
    requires Released(s) && 1 <= next < |s.procs| && s.procs[next].state.Ready?
    ensures Inv(SwitchTo(s, next))
  {
  }

  lemma IdleKeepsInv(s: State)
    requires Released(s)
    ensures Inv(EnterIdle(s))
  {
  }

  lemma ScheduleKeepsInv(s: State, blocked: nat)
    requires Released(s) && UserMode(s)
    requires 1 <= blocked < |s.procs| && !s.procs[blocked].state.Free?
    ensures Inv(Schedule(s, blocked))
  {
    var s1 := Save(s, blocked);
    assert Released(s1);
    var next := Scan(s1.procs, blocked, 1, |s1.procs|);
    if next != 0 {
      SwitchKeepsInv(s1, next);
    } else {
      assert Matches(IsAlive, blocked, s1.procs[blocked]);
      IdleKeepsInv(s1);
    }
  }

  lemma PreemptKeepsInv(s: State)
    requires Inv(s) && UserMode(s)
    ensures Inv(Preempt(s))
  {
    var next := Scan(s.procs, s.current, 1, |s.procs| - 1);
    if next != 0 {
      var me := s.procs[s.current].(context := s.frame, state := Ready);
      ReadyKeepsTable(s.procs, s.current, me);
      hide TableInv;
      assert Save(s, s.current).procs[s.current := me] == s.procs[s.current := me];
      SwitchKeepsInv(s.(procs := s.procs[s.current := me]), next);
    }
  }

  lemma ScheduleFromIdleKeepsInv(s: State)
    requires Inv(s) && !UserMode(s)
    ensures Inv(ScheduleFromIdle(s))
  {
    var next := First(s.procs, IsReady, 1);
    if next != 0 {
      SwitchKeepsInv(s, next);
    }
  }

  lemma SavedInUserMode(procs: seq<Process>, i: nat)
    requires TableInv(procs) && i < |procs| && !procs[i].state.Free?
    ensures !procs[i].context.sstatus.spp
  {
  }

  lemma YieldKeepsInv(s: State)
    requires Inv(s) && UserMode(s)
    ensures Inv(SysYield(s))
  {
    hide TableInv, Schedule, Scan, First;
    if Scan(s.procs, s.current, 1, |s.procs| - 1) != 0 {
      var s0 := s.(frame := Advance(s.frame));
      var me := s0.procs[s.current].(state := Ready);
      SavedInUserMode(s.procs, s.current);
      ReadyKeepsTable(s0.procs, s.current, me);
      ScheduleKeepsInv(s0.(procs := s0.procs[s.current := me]), s.current);
    }
  }

  lemma CallKeepsInv(s: State)
    requires Inv(s) && UserMode(s)
    ensures Inv(SysCall(s))
  {
    var s0 := s.(frame := Advance(s.frame));
    var f, t := s0.frame, s0.frame.a0;
    if ValidIpcTarget(t, s.current, |s.procs|) {
      var p := s0.procs[t];
      var woken := p.(context := p.context.(a0 := f.a1, a1 := s.current, a2 := f.a2, a3 := f.a3), state := Ready);
      var s1 := if WouldRendezvous(s0, t) then s0.(procs := s0.procs[t := woken]) else s0;
      if WouldRendezvous(s0, t) { ReadyKeepsTable(s0.procs, t, woken); }
      var me := s1.procs[s.current].(ipcTarget := t, ipcValue := f.a1, ipcArg2 := f.a2, ipcArg3 := f.a3,
                                     state := BlockedCall);
      BlockKeepsTable(s1.procs, s.current, me);
      ScheduleKeepsInv(s1.(procs := s1.procs[s.current := me]), s.current);
    }
  }

  lemma ReplyKeepsInv(s: State)
    requires Inv(s) && UserMode(s)
    ensures Inv(SysReply(s))
  {
    var t := s.frame.a0;
    if ValidIpcTarget(t, s.current, |s.procs|) && s.procs[t].state.BlockedCall? && s.procs[t].ipcTarget == s.current {
      var p := s.procs[t];
      ReadyKeepsTable(s.procs, t, p.(context := p.context.(a0 := s.frame.a1), state := Ready));
    }
  }

  lemma SendKeepsInv(s: State)
    requires Inv(s) && UserMode(s)
    ensures Inv(SysSend(s))
  {
    var s0 := s.(frame := Advance(s.frame));
    var f, t := s0.frame, s0.frame.a0;
    if ValidIpcTarget(t, s.current, |s.procs|) {
      var p := s0.procs[t];
      if WouldRendezvous(s0, t) {
        ReadyKeepsTable(s0.procs, t, p.(context := p.context.(a0 := f.a1, a1 := s.current), state := Ready));
      } else {
        var me := s0.procs[s.current].(ipcTarget := t, ipcValue := f.a1, state := BlockedSend);
        BlockKeepsTable(s0.procs, s.current, me);
        ScheduleKeepsInv(s0.(procs := s0.procs[s.current := me]), s.current);
      }
    }
  }

  /** Leaving the CPU's owner Running, with only its interrupt flag or number changed. */
  lemma RunningKeepsTable(procs: seq<Process>, i: nat, p: Process)
    requires TableInv(procs) && 1 <= i < |procs| && procs[i].state.Running?
    requires p.state.Running? && p.parent == procs[i].parent && p.context == procs[i].context
    ensures TableInv(procs[i := p])
  {
    var q := procs[i := p];
    assert forall k :: 0 <= k < |q| && k != i ==> q[k] == procs[k];
    assert NoLostRendezvous(q);
    assert NoStrandedWaiter(q);
  }

  lemma ReceiveKeepsInv(s: State)
    requires Inv(s) && UserMode(s)
    ensures Inv(SysReceive(s))
  {
    hide TableInv, Schedule, Scan, First;
    var s0 := s.(frame := Advance(s.frame));
    var from := s0.frame.a0;
    var me := s0.procs[s.current];
    var i := First(s0.procs, SendsTo(s.current, from), 1);
    SavedInUserMode(s.procs, s.current);
    if me.irqPending && from == 0 {
      RunningKeepsTable(s0.procs, s.current, me.(irqPending := false));
    } else if i != 0 {
      var p := s0.procs[i];
      SenderIsLive(s0.procs, s.current, from);
      SavedInUserMode(s.procs, i);
      ReadyKeepsTable(s0.procs, i, p.(state := Ready, context := p.context.(a0 := 0)));
    } else {
      var asleep := me.(ipcTarget := from, state := BlockedRecv);
      NobodySends(s0.procs, s.current, from);
      BlockKeepsTable(s0.procs, s.current, asleep);
      ScheduleKeepsInv(s0.(procs := s0.procs[s.current := asleep]), s.current);
    }
  }

  lemma SenderIsLive(procs: seq<Process>, me: nat, from: Word)
    requires |procs| > 0 && First(procs, SendsTo(me, from), 1) != 0
    ensures var i := First(procs, SendsTo(me, from), 1);
            1 <= i < |procs| && IsSender(procs[i]) && !procs[i].state.Free?
  {
  }

  lemma NobodySends(procs: seq<Process>, me: nat, from: Word)
    requires TableInv(procs) && First(procs, SendsTo(me, from), 1) == 0
    ensures forall t :: 0 <= t < |procs| && IsSender(procs[t]) && procs[t].ipcTarget == me ==> !Accepts(from, t)
  {
    forall t | 0 <= t < |procs| && IsSender(procs[t]) && procs[t].ipcTarget == me ensures !Accepts(from, t) {
      assert !Matches(SendsTo(me, from), t, procs[t]);
    }
  }

  /** Remembering an interrupt for a process that does not wait for one. */
  lemma PendingKeepsTable(procs: seq<Process>, i: nat)
    requires TableInv(procs) && i < |procs| && !procs[i].state.BlockedRecv?
    ensures TableInv(procs[i := procs[i].(irqPending := true)])
  {
  }

  lemma IrqNotifyKeepsInv(s: State, irq: Word, owner: nat)
    requires Inv(s) && 1 <= owner < |s.procs|
    ensures Inv(IrqNotify(s, irq, owner))
    ensures IrqNotify(s, irq, owner).frame == s.frame
  {
    hide NoLostRendezvous, NoStrandedWaiter;
    var p := s.procs[owner];
    if p.state.BlockedRecv? {
      ReadyKeepsTable(s.procs, owner, p.(context := p.context.(a0 := irq, a1 := 0), state := Ready));
    } else {
      PendingKeepsTable(s.procs, owner);
      hide TableInv;
    }
  }

  /** A table whose waiters may still point at `child`, which has just become Free. */
  ghost predicate TableInvBut(q: seq<Process>, child: nat) {
    && |q| >= 3 && child < |q| && q[0].state.Free? && NobodyRunning(q)
    && NoLostRendezvous(q) && NoLostInterrupt(q) && ContextsAreUser(q) && TargetsInRange(q) && NetOpsRecorded(q)
    && forall i {:trigger q[i].state.BlockedWait?} :: 0 <= i < |q| && q[i].state.BlockedWait? ==>
         var c := q[i].ipcTarget;
         0 < c < |q| && c != i && q[c].parent == i && (c != child ==> !q[c].state.Free?)
  }

  lemma RetireKeepsTableButWaiter(s: State, code: Word)
    requires Inv(s) && UserMode(s)
    ensures TableInvBut(Retire(s, code).procs, s.current)
  {
    var q := Retire(s, code).procs;
    assert forall k :: 0 <= k < |q| && k != s.current ==> q[k] == s.procs[k];
  }

  /** At most one process waits for a given child, so waking the first one strands nobody. */
  lemma WakeParentKeepsTable(q: seq<Process>, child: nat, code: Word)
    requires TableInvBut(q, child)
    ensures TableInv(WakeParent(q, child, code)) && NobodyRunning(WakeParent(q, child, code))
  {
    var i := First(q, WaitsFor(child), 1);
    if i == 0 {
      forall j | 0 <= j < |q| && q[j].state.BlockedWait? ensures q[j].ipcTarget != child {
        assert !Matches(WaitsFor(child), j, q[j]);
      }
      assert NoStrandedWaiter(q);
    } else {
      assert q[child].parent == i;
      var r := q[i := q[i].(context := q[i].context.(a0 := code), state := Ready)];
      assert forall k :: 0 <= k < |r| && k != i ==> r[k] == q[k];
      assert NoStrandedWaiter(r);
      assert NoLostRendezvous(r);
    }
  }

  lemma ReapKeepsTable(s: State, code: Word)
    requires Inv(s) && UserMode(s)
    ensures Released(Reap(s, code))
    ensures Reap(s, code).cfg == s.cfg && Reap(s, code).frame == s.frame
  {
    RetireKeepsTableButWaiter(s, code);
    WakeParentKeepsTable(Retire(s, code).procs, s.current, code);
  }

  lemma KillKeepsInv(s: State, code: Word)
    requires Inv(s) && UserMode(s)
    ensures Inv(KillCurrent(s, code))
  {
    ReapKeepsTable(s, code);
    var s1 := Reap(s, code);
    var next := First(s1.procs, IsReady, 1);
    if next != 0 {
      SwitchKeepsInv(s1, next);
    } else {
      IdleKeepsInv(s1);
    }
  }

  lemma ExitKeepsInv(s: State)
    requires Inv(s) && UserMode(s)
    ensures Inv(SysExit(s))
  {
    ReapKeepsTable(s, s.frame.a0);
    var s1 := Reap(s, s.frame.a0);
    var next := First(s1.procs, IsReady, 1);
    if next != 0 {
      SwitchKeepsInv(s1, next);
    } else if First(s1.procs, IsAlive, 1) != 0 {
      IdleKeepsInv(s1);
    } else {
      forall i | 0 <= i < |s1.procs| ensures s1.procs[i].state.Free? {
        if i >= 1 { assert !Matches(IsAlive, i, s1.procs[i]); }
      }
    }
  }

  lemma WaitKeepsInv(s: State)
    requires Inv(s) && UserMode(s)
    ensures Inv(SysWait(s))
  {
    var s0 := s.(frame := Advance(s.frame));
    var child := s0.frame.a0;
    if ValidIpcTarget(child, s.current, |s.procs|) && s0.procs[child].parent == s.current
       && !s0.procs[child].state.Free?
    {
      var s1 := s0.(procs := s0.procs[s.current := s0.procs[s.current].(ipcTarget := child, state := BlockedWait)]);
      ScheduleKeepsInv(s1, s.current);
    }
  }

  lemma SpawnKeepsInv(s: State, image: Option<Image>)
    requires Inv(s) && UserMode(s)
    ensures Inv(SysSpawn(s, image))
  {
    if image.Some? {
      var pid := First(s.procs, IsFree, 1);
      assert pid != 0 ==> s.procs[pid].state.Free?;
    }
  }

  lemma IrqRegisterKeepsInv(s: State)
    requires Inv(s) && UserMode(s)
    ensures Inv(SysIrqRegister(s))
  {
  }

  lemma NetRequestKeepsInv(s: State, reply: NetReply)
    requires Inv(s) && UserMode(s)
    requires reply.NetPark? ==> !reply.op.NoNetOp?
    ensures Inv(NetRequest(s, reply))
  {
    if reply.NetPark? {
      var s0 := s.(frame := Advance(s.frame));
      var s1 := s0.(procs := s0.procs[s.current := s0.procs[s.current].(
                     netOp := reply.op, netSocket := reply.socket, netBufVa := reply.bufVa,
                     netBufLen := reply.bufLen, state := BlockedNet)]);
      ScheduleKeepsInv(s1, s.current);
    }
  }

  lemma WakeKeepsTable(procs: seq<Process>, wakes: seq<Option<Word>>)
    requires TableInv(procs) && |wakes| == |procs|
    ensures TableInv(WakeBlocked(procs, wakes))
    ensures forall i :: 0 <= i < |procs| ==>
              WakeBlocked(procs, wakes)[i] == procs[i]
              || (procs[i].state.BlockedNet? && WakeBlocked(procs, wakes)[i].state.Ready?)
  {
    var q := WakeBlocked(procs, wakes);
    forall i | 0 <= i < |procs|
      ensures q[i] == procs[i] || (procs[i].state.BlockedNet? && q[i].state.Ready? && q[i].parent == procs[i].parent
                                   && q[i].context.sstatus == procs[i].context.sstatus)
    {
    }
    assert NoLostRendezvous(q);
    assert NoStrandedWaiter(q);
  }

  lemma WakeKeepsInv(s: State, wakes: seq<Option<Word>>)
    requires Inv(s) && |wakes| == |s.procs|
    ensures Inv(s.(procs := WakeBlocked(s.procs, wakes)))
  {
    WakeKeepsTable(s.procs, wakes);
    var q := WakeBlocked(s.procs, wakes);
    assert forall i :: 0 <= i < |q| && q[i].state.Running? ==> s.procs[i].state.Running?;
    assert forall i :: 0 <= i < |q| && s.procs[i].state.Free? ==> q[i].state.Free?;
  }

  lemma EcallKeepsInv(s: State, env: Env)
    requires Inv(s) && UserMode(s)
    requires env.net.NetPark? ==> !env.net.op.NoNetOp?
    ensures Inv(HandleEcall(s, env))
  {
    var n := s.frame.a7;
    if n == SYS_EXIT { ExitKeepsInv(s); }
    else if n == SYS_SEND { SendKeepsInv(s); }
    else if n == SYS_RECEIVE { ReceiveKeepsInv(s); }
    else if n == SYS_CALL { NetRequestKeepsInv(s, env.net); CallKeepsInv(s); }
    else if n == SYS_REPLY { ReplyKeepsInv(s); }
    else if n == SYS_SPAWN { SpawnKeepsInv(s, env.image); }
    else if n == SYS_WAIT { WaitKeepsInv(s); }
    else if n == SYS_YIELD { YieldKeepsInv(s); }
    else if n == SYS_IRQ_REGISTER { IrqRegisterKeepsInv(s); }
  }

  lemma TimerKeepsInv(s: State, wakes: seq<Option<Word>>)
    requires Inv(s) && |wakes| == |s.procs|
    ensures Inv(HandleTimer(s, wakes))
  {
    WakeKeepsInv(s, wakes);
    var s1 := s.(procs := WakeBlocked(s.procs, wakes));
    if UserMode(s1) { PreemptKeepsInv(s1); } else { ScheduleFromIdleKeepsInv(s1); }
  }

  lemma ExternalKeepsInv(s: State, irq: Word, wakes: seq<Option<Word>>)
    requires Inv(s) && |wakes| == |s.procs|
    ensures Inv(HandleExternal(s, irq, wakes))
  {
    var owner := if irq < MAX_IRQS then s.irqOwner[irq] else 0;
    if owner != 0 {
      IrqNotifyKeepsInv(s, irq, owner);
      var s1 := IrqNotify(s, irq, owner);
      if !UserMode(s1) { ScheduleFromIdleKeepsInv(s1); }
    } else {
      WakeKeepsInv(s, wakes);
    }
  }

  lemma EnterKeepsInv(s: State, e: Event)
    requires Inv(s) && e.frame.sstatus.spp == s.frame.sstatus.spp
    ensures Inv(Enter(s, e))
  {
  }

  /** Every trap, whatever its arguments, keeps the joint invariant. */
  lemma NextKeepsInv(s: State, e: Event)
    requires Inv(s) && Enabled(s, e)
    ensures Inv(Next(s, e))
  {
    hide HandleEcall, HandleTimer, HandleExternal, KillCurrent;
    EnterKeepsInv(s, e);
    var s1 := Enter(s, e);
    match e
    case Ecall(_, env) => EcallKeepsInv(s1, env);
    case Timer(_, wakes) => TimerKeepsInv(s1, wakes);
    case External(_, irq, wakes) => ExternalKeepsInv(s1, irq, wakes);
    case Fault(_, code) => KillKeepsInv(s1, 128 + code);
  }
}
