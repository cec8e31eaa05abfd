/** Theorems about whole runs of the kernel: safety, call/reply discipline,
    message delivery, context preservation and bounded waiting. */
module KernelRuns {
  import opened Words
  import opened ProcessTable
  import opened Scheduler
  import opened Lifecycle
  import opened Dispatch
  import opened KernelInvariant
  import opened ProcessView

  ghost predicate Step(s: State, e: Event, t: State) {
    && Shape(s) && Enabled(s, e) && (UserMode(s) ==> s.current >= 1)
    && t == Next(s, e)
  }

  /** `states` is the trace of a run in which the traps `events` happen in order. */
  ghost predicate IsRun(states: seq<State>, events: seq<Event>) {
    && |states| == |events| + 1
    && forall i {:trigger events[i]} :: 0 <= i < |events| ==> Step(states[i], events[i], states[i + 1])
  }

  ghost predicate IsBootedRun(states: seq<State>, events: seq<Event>) {
    IsRun(states, events) && Initial(states[0])
  }

  // ---------- Safety over every run ----------

  lemma {:induction false} InvAlong(states: seq<State>, events: seq<Event>, i: nat, j: nat)
    requires IsRun(states, events) && i <= j < |states| && Inv(states[i])
    ensures Inv(states[j])
    decreases j - i
  {
    hide Next, Inv;
    if i < j {
      assert Step(states[i], events[i], states[i + 1]);
      NextKeepsInv(states[i], events[i]);
      InvAlong(states, events, i + 1, j);
    }
  }

  /** In every state of every run: the joint invariant holds, so nobody sleeps on a
      rendezvous that could happen, no waiter is stranded, the CPU belongs to
      CURRENT_PID, and no panic has been reached. */
  lemma EveryReachableStateIsSafe(states: seq<State>, events: seq<Event>, j: nat)
    requires IsBootedRun(states, events) && j < |states|
    ensures Inv(states[j])
    ensures NoLostRendezvous(states[j].procs) && NoLostInterrupt(states[j].procs)
    ensures NoStrandedWaiter(states[j].procs)
    ensures CpuOwnership(states[j])
    ensures !states[j].panicked
  {
    InitialEstablishesInv(states[0]);
    InvAlong(states, events, 0, j);
  }

  lemma StepAt(states: seq<State>, events: seq<Event>, i: nat)
    requires IsRun(states, events) && i < |events| && Inv(states[i])
    ensures Enabled(states[i], events[i]) && states[i + 1] == Next(states[i], events[i]) && Inv(states[i + 1])
    ensures |states[i + 1].procs| == |states[i].procs| && Shape(states[i]) && Shape(states[i + 1])
  {
    assert Step(states[i], events[i], states[i + 1]);
    NextKeepsInv(states[i], events[i]);
    TableSizeStep(states[i], events[i]);
  }

  lemma TableSizeStep(s: State, e: Event)
    requires Inv(s) && Enabled(s, e)
    ensures |Next(s, e).procs| == |s.procs|
  {
    if UserMode(s) {
      OwnerStep(s, e);
    } else {
      assert e.Timer? || e.External?;
    }
  }

  lemma {:induction false} TableSizeAlong(states: seq<State>, events: seq<Event>, i: nat, j: nat)
    requires IsRun(states, events) && i <= j < |states| && Inv(states[i])
    ensures |states[j].procs| == |states[i].procs|
    decreases j - i
  {
    hide Next, Inv;
    if i < j {
      StepAt(states, events, i);
      TableSizeAlong(states, events, i + 1, j);
    }
  }

  // ---------- Sleeping processes ----------

  /** Equal up to the interrupt flag, which may be raised at any time. */
  ghost predicate SameButIrq(a: Process, b: Process) {
    a.(irqPending := b.irqPending) == b
  }

  /** Process `p` is the same in all the states from `i` to `k`, interrupt flag aside. */
  ghost predicate SleptThrough(states: seq<State>, i: nat, k: nat, p: nat) {
    && i <= k < |states|
    && p < |states[i].procs|
    && forall m {:trigger states[m]} :: i <= m <= k ==>
         p < |states[m].procs| && SameButIrq(states[i].procs[p], states[m].procs[p])
  }

  lemma SleptOneMore(states: seq<State>, i: nat, k: nat, p: nat)
    requires i < k < |states| && p < |states[i].procs| && p < |states[i + 1].procs|
    requires SameButIrq(states[i].procs[p], states[i + 1].procs[p]) && SleptThrough(states, i + 1, k, p)
    ensures SleptThrough(states, i, k, p)
  {
  }

  ghost predicate OffCpu(s: State, p: nat) {
    p < |s.procs| && !s.procs[p].state.Running?
  }

  lemma OffCpuIsBystander(s: State, p: nat)
    requires Inv(s) && OffCpu(s, p)
    ensures UserMode(s) ==> p != s.current
  {
  }

  // ---------- Call and reply ----------

  /** A blocked caller leaves that state only through a reply by the process it called,
      which succeeds and puts the reply value in the caller's a0. */
  lemma CallerStep(s: State, e: Event, p: nat)
    requires Inv(s) && Enabled(s, e) && 1 <= p < |s.procs| && s.procs[p].state.BlockedCall?
    ensures |Next(s, e).procs| == |s.procs|
    ensures var a, b := s.procs[p], Next(s, e).procs[p];
            if RepliesTo(s, e, p) then
              b == a.(context := a.context.(a0 := e.frame.a1), state := Ready) && Next(s, e).frame.a0 == 0
            else SameButIrq(a, b)
  {
    OffCpuIsBystander(s, p);
    EffectOnSleeper(s, e, p);
    hide Next, Inv, Enabled, Shape, Effect;
    TableSizeStep(s, e);
    if RepliesTo(s, e, p) {
      ReplySucceeds(s, e, p);
    } else {
      BystanderStep(s, e, p);
    }
  }

  lemma ReplySucceeds(s: State, e: Event, p: nat)
    requires Inv(s) && Enabled(s, e) && 1 <= p < |s.procs| && RepliesTo(s, e, p)
    ensures var a := s.procs[p];
            && p < |Next(s, e).procs|
            && Next(s, e).procs[p] == a.(context := a.context.(a0 := e.frame.a1), state := Ready)
            && Next(s, e).frame.a0 == 0
  {
  }

  /** Nobody but `p` itself, by SYS_CALL, makes `p` a blocked caller. */
  lemma CallStep(s: State, e: Event, p: nat)
    requires Inv(s) && Enabled(s, e) && 1 <= p < |s.procs| && !s.procs[p].state.BlockedCall?
    requires p < |Next(s, e).procs| && Next(s, e).procs[p].state.BlockedCall?
    ensures UserMode(s) && s.current == p && IsIpcCall(s, e) && Next(s, e).procs[p].ipcTarget == e.frame.a0
  {
    EffectOnSleeper(s, e, p);
    hide Next, Inv, Enabled, Shape, Effect;
    if UserMode(s) && s.current == p {
      OwnerStep(s, e);
    } else {
      BystanderStep(s, e, p);
    }
  }

  /** If a caller blocked at `i` is no longer blocked at `j`, then exactly one step `k`
      between them released it: the first reply by the process it called. Until then it
      slept unchanged, and its a0 is that reply's value. */
  lemma {:induction false} CallEndsByItsReply(states: seq<State>, events: seq<Event>, i: nat, j: nat, p: nat)
      returns (k: nat)
    requires IsRun(states, events) && i <= j < |states| && Inv(states[i])
    requires 1 <= p < |states[i].procs| && states[i].procs[p].state.BlockedCall?
    requires p < |states[j].procs| && !states[j].procs[p].state.BlockedCall?
    ensures i <= k < j
    ensures SleptThrough(states, i, k, p)
    ensures forall m :: i <= m < k ==> !RepliesTo(states[m], events[m], p)
    ensures RepliesTo(states[k], events[k], p) && states[k].current == states[i].procs[p].ipcTarget
    ensures p < |states[k + 1].procs| && states[k + 1].procs[p].state.Ready?
    ensures states[k + 1].procs[p].context == states[i].procs[p].context.(a0 := events[k].frame.a1)
    ensures states[k + 1].frame.a0 == 0
    decreases j - i
  {
    hide Next, Inv, Step, Enabled;
    StepAt(states, events, i);
    CallerStep(states[i], events[i], p);
    if RepliesTo(states[i], events[i], p) {
      k := i;
    } else {
      k := CallEndsByItsReply(states, events, i + 1, j, p);
      SleptOneMore(states, i, k, p);
    }
  }

  /** One reply per call: between two successful replies to `p` there is a SYS_CALL by `p`. */
  lemma {:induction false} RepliesNeedCalls(states: seq<State>, events: seq<Event>, k1: nat, k2: nat, p: nat)
      returns (m: nat)
    requires IsRun(states, events) && k1 < k2 < |events| && Inv(states[k1])
    requires 1 <= p < |states[k1].procs| && RepliesTo(states[k1], events[k1], p)
    requires p < |states[k2].procs| && RepliesTo(states[k2], events[k2], p)
    ensures k1 < m < k2 && states[m].current == p && IsIpcCall(states[m], events[m])
    ensures events[m].frame.a0 == states[m + 1].procs[p].ipcTarget
  {
    hide Next, Inv;
    StepAt(states, events, k1);
    CallerStep(states[k1], events[k1], p);
    m := FindCall(states, events, k1 + 1, k2, p);
  }

  lemma {:induction false} FindCall(states: seq<State>, events: seq<Event>, i: nat, j: nat, p: nat) returns (m: nat)
    requires IsRun(states, events) && i <= j < |states| && Inv(states[i])
    requires 1 <= p < |states[i].procs| && !states[i].procs[p].state.BlockedCall?
    requires p < |states[j].procs| && states[j].procs[p].state.BlockedCall?
    ensures i <= m < j && states[m].current == p && IsIpcCall(states[m], events[m])
    ensures p < |states[m + 1].procs| && events[m].frame.a0 == states[m + 1].procs[p].ipcTarget
    decreases j - i
  {
    hide Next, Inv, Step, Enabled;
    StepAt(states, events, i);
    if states[i + 1].procs[p].state.BlockedCall? {
      CallStep(states[i], events[i], p);
      m := i;
    } else {
      m := FindCall(states, events, i + 1, j, p);
    }
  }

  // ---------- Delivery of messages ----------

  /** What a SYS_RECEIVE that finds the sender `p` gives the receiver. */
  lemma ReceiveResult(s: State, e: Event, p: nat)
    requires Inv(s) && UserMode(s) && Enabled(s, e) && ReceivesFrom(s, e, p)
    ensures 1 <= p < |s.procs|
    ensures var t := Next(s, e);
            && t.current == s.current && UserMode(t)
            && t.frame == Advance(e.frame).(a0 := s.procs[p].ipcValue, a1 := p)
  {
  }

  lemma SenderStep(s: State, e: Event, p: nat)
    requires Inv(s) && Enabled(s, e) && 1 <= p < |s.procs| && s.procs[p].state.BlockedSend?
    ensures |Next(s, e).procs| == |s.procs|
    ensures var a, b := s.procs[p], Next(s, e).procs[p];
            if ReceivesFrom(s, e, p) then b == a.(context := a.context.(a0 := 0), state := Ready)
            else SameButIrq(a, b)
  {
    OffCpuIsBystander(s, p);
    if ReceivesFrom(s, e, p) {
      assert UserMode(s);
      ReceiveResult(s, e, p);
    }
    EffectOnSleeper(s, e, p);
    hide Next, Inv, Enabled, Shape, Effect;
    TableSizeStep(s, e);
    BystanderStep(s, e, p);
  }

  /** A blocked SEND is consumed by exactly one RECEIVE of the process it was sent to.
      That receive returns the message as it was sent, with the sender's PID, and the
      sender's SEND returns 0. */
  lemma {:induction false} SendIsDeliveredOnce(states: seq<State>, events: seq<Event>, i: nat, j: nat, p: nat)
      returns (k: nat)
    requires IsRun(states, events) && i <= j < |states| && Inv(states[i])
    requires 1 <= p < |states[i].procs| && states[i].procs[p].state.BlockedSend?
    requires p < |states[j].procs| && !states[j].procs[p].state.BlockedSend?
    ensures i <= k < j && Shape(states[k])
    ensures SleptThrough(states, i, k, p)
    ensures ReceivesFrom(states[k], events[k], p) && states[k].current == states[i].procs[p].ipcTarget
    ensures forall m :: i <= m < k ==> Shape(states[m]) && !ReceivesFrom(states[m], events[m], p)
    ensures UserMode(states[k + 1]) && states[k + 1].current == states[i].procs[p].ipcTarget
    ensures states[k + 1].frame.a0 == states[i].procs[p].ipcValue && states[k + 1].frame.a1 == p
    ensures p < |states[k + 1].procs| && states[k + 1].procs[p].state.Ready?
    ensures states[k + 1].procs[p].context == states[i].procs[p].context.(a0 := 0)
    decreases j - i
  {
    hide Next, Inv, Step, Enabled;
    StepAt(states, events, i);
    SenderStep(states[i], events[i], p);
    if ReceivesFrom(states[i], events[i], p) {
      ReceiveResult(states[i], events[i], p);
      k := i;
    } else {
      k := SendIsDeliveredOnce(states, events, i + 1, j, p);
      SleptOneMore(states, i, k, p);
    }
  }

  // ---------- Waiting for a child ----------

  lemma WaiterStep(s: State, e: Event, p: nat)
    requires Inv(s) && Enabled(s, e) && 1 <= p < |s.procs| && s.procs[p].state.BlockedWait?
    ensures |Next(s, e).procs| == |s.procs|
    ensures var a, t := s.procs[p], Next(s, e);
            if IsExit(e) && s.current == a.ipcTarget then
              var woken := a.(context := a.context.(a0 := ExitCode(e)), state := Ready);
              t.procs[p] == woken || Resumed(t, e, p, woken)
            else SameButIrq(a, t.procs[p])
  {
    OffCpuIsBystander(s, p);
    EffectOnSleeper(s, e, p);
    hide Next, Inv, Enabled, Shape, Effect;
    TableSizeStep(s, e);
    BystanderStep(s, e, p);
  }

  /** A waiter leaves SYS_WAIT exactly when its child exits or is killed, and its a0
      is then that exit code. */
  lemma {:induction false} WaiterGetsExitCode(states: seq<State>, events: seq<Event>, i: nat, j: nat, p: nat)
      returns (k: nat)
    requires IsRun(states, events) && i <= j < |states| && Inv(states[i])
    requires 1 <= p < |states[i].procs| && states[i].procs[p].state.BlockedWait?
    requires p < |states[j].procs| && !states[j].procs[p].state.BlockedWait?
    ensures i <= k < j
    ensures SleptThrough(states, i, k, p)
    ensures IsExit(events[k]) && (events[k].Fault? ==> events[k].code < 64)
    ensures states[k].current == states[i].procs[p].ipcTarget
    ensures forall m :: i <= m < k ==> !(IsExit(events[m]) && states[m].current == states[i].procs[p].ipcTarget)
    ensures p < |states[k + 1].procs|
    ensures states[k + 1].procs[p].context == states[i].procs[p].context.(a0 := ExitCode(events[k]))
    ensures states[k + 1].procs[p].state.Ready?
            || (states[k + 1].current == p && states[k + 1].frame == states[k + 1].procs[p].context)
    decreases j - i
  {
    hide Next, Inv, Step, Enabled;
    StepAt(states, events, i);
    WaiterStep(states[i], events[i], p);
    if IsExit(events[i]) && states[i].current == states[i].procs[p].ipcTarget {
      k := i;
    } else {
      k := WaiterGetsExitCode(states, events, i + 1, j, p);
      SleptOneMore(states, i, k, p);
    }
  }

  // ---------- Context preservation ----------

  ghost predicate SameButResults(a: TrapFrame, b: TrapFrame) {
    b == a.(a0 := b.a0, a1 := b.a1, a2 := b.a2, a3 := b.a3)
  }

  lemma EffectOnSleeper(s: State, e: Event, p: nat)
    requires Shape(s) && Enabled(s, e) && 1 <= p < |s.procs|
    ensures var a, b := s.procs[p], Effect(s, e, p);
            match a.state
            case BlockedCall => RepliesTo(s, e, p) || (SameButIrq(a, b) && b.state == a.state)
            case BlockedSend =>
              if ReceivesFrom(s, e, p) then b == a.(context := a.context.(a0 := 0), state := Ready)
              else SameButIrq(a, b) && b.state == a.state
            case BlockedWait =>
              if IsExit(e) && a.ipcTarget == s.current
              then b == a.(context := a.context.(a0 := ExitCode(e)), state := Ready)
              else SameButIrq(a, b) && b.state == a.state
            case _ => b.state.BlockedCall? ==> false
  {
  }

  lemma EffectOnContext(s: State, e: Event, p: nat)
    requires Shape(s) && Enabled(s, e) && 1 <= p < |s.procs| && !s.procs[p].state.Free?
    ensures var a, b := s.procs[p], Effect(s, e, p);
            && SameButResults(a.context, b.context)
            && (a.state.Ready? ==> b.context == a.context)
            && (a.state.Running? || !b.state.Running?)
  {
  }

  lemma SleepStep(s: State, e: Event, p: nat)
    requires Inv(s) && Enabled(s, e) && 1 <= p < |s.procs| && OffCpu(s, p) && !s.procs[p].state.Free?
    ensures |Next(s, e).procs| == |s.procs|
    ensures var a, b := s.procs[p], Next(s, e).procs[p];
            && SameButResults(a.context, b.context)
            && (a.state.Ready? ==> b.context == a.context)
            && (b.state.Running? ==> Next(s, e).current == p && Next(s, e).frame == LoadedFrame(e, b.context))
  {
    OffCpuIsBystander(s, p);
    EffectOnContext(s, e, p);
    hide Next, Inv, Enabled, Shape, Effect;
    TableSizeStep(s, e);
    BystanderStep(s, e, p);
  }

  /** As long as a live process is off the CPU, whatever the others do, its saved
      frame changes in the result registers a0 to a3 only. */
  lemma {:induction false} SleepPreservesContext(states: seq<State>, events: seq<Event>, i: nat, j: nat, p: nat)
    requires IsRun(states, events) && i <= j < |states| && Inv(states[i]) && 1 <= p
    requires forall m {:trigger states[m]} :: i <= m <= j ==> OffCpu(states[m], p) && !states[m].procs[p].state.Free?
    ensures p < |states[i].procs| && p < |states[j].procs|
    ensures SameButResults(states[i].procs[p].context, states[j].procs[p].context)
    decreases j - i
  {
    hide Next, Inv;
    if i < j {
      assert OffCpu(states[i], p);
      assert OffCpu(states[i + 1], p);
      StepAt(states, events, i);
      SleepStep(states[i], events[i], p);
      SleepPreservesContext(states, events, i + 1, j, p);
    }
  }

  ghost predicate ReadyThroughout(states: seq<State>, i: nat, j: nat, p: nat) {
    forall m {:trigger states[m]} :: i <= m <= j < |states| ==> p < |states[m].procs| && states[m].procs[p].state.Ready?
  }

  lemma {:induction false} ReadyContextIsFrozen(states: seq<State>, events: seq<Event>, i: nat, j: nat, p: nat)
    requires IsRun(states, events) && i <= j < |states| && Inv(states[i]) && 1 <= p
    requires ReadyThroughout(states, i, j, p)
    ensures p < |states[i].procs| && p < |states[j].procs|
    ensures states[j].procs[p].context == states[i].procs[p].context
    ensures Inv(states[j])
    decreases j - i
  {
    hide Next, Inv;
    assert p < |states[i].procs|;
    if i < j {
      assert states[i + 1].procs[p].state.Ready?;
      StepAt(states, events, i);
      SleepStep(states[i], events[i], p);
      ReadyContextIsFrozen(states, events, i + 1, j, p);
    }
  }

  /** A process preempted at step `i` and resumed at step `j` finds its exact registers,
      if and only if it is not resumed by somebody's SYS_YIELD while its a0 is non-zero:
      the yield clears the a0 of the process it switches to. */
  lemma PreemptedResumesExactly(states: seq<State>, events: seq<Event>, i: nat, j: nat, p: nat)
    requires IsRun(states, events) && i < j < |events| && Inv(states[i]) && 1 <= p
    requires UserMode(states[i]) && states[i].current == p && events[i].Timer?
    requires ReadyThroughout(states, i + 1, j, p)
    requires p < |states[j + 1].procs| && states[j + 1].procs[p].state.Running?
    ensures states[j + 1].current == p
    ensures states[j + 1].frame == LoadedFrame(events[j], events[i].frame)
    ensures states[j + 1].frame == events[i].frame <==> !(IsYield(events[j]) && events[i].frame.a0 != 0)
  {
    hide Next, Inv, Step, Enabled;
    StepAt(states, events, i);
    OwnerStep(states[i], events[i]);
    assert states[i + 1].procs[p].state.Ready?;
    ReadyContextIsFrozen(states, events, i + 1, j, p);
    StepAt(states, events, j);
    assert states[j].procs[p].state.Ready?;
    SleepStep(states[j], events[j], p);
  }

  // ---------- A run in which a register is lost ----------

  const USER_FRAME := ZeroFrame().(sstatus := USER_STATUS)

  /** Three slots after boot: PID 1 on the CPU, PID 2 ready to start. */
  ghost function TwoProcesses(): State {
    var one := NewProcess(1, 1, USER_FRAME, 0).(state := Running);
    var two := NewProcess(2, 2, USER_FRAME, 0);
    State([NewProcess(0, 0, USER_FRAME, 0).(state := Free), one, two], 1, USER_FRAME, 1, seq(MAX_IRQS, _ => 0),
          Config(0, 0, 0, false), false)
  }

  ghost function NoWakes(n: nat): seq<Option<Word>> { seq(n, _ => None) }

  /** Between two processes, a timer interrupt hands the CPU to the other one. */
  lemma TimerHandsOver(s: State, f: TrapFrame, other: nat)
    requires Inv(s) && UserMode(s) && |s.procs| == 3 && 1 <= other < 3 && other != s.current
    requires s.procs[other].state.Ready? && !f.sstatus.spp
    ensures Enabled(s, Timer(f, NoWakes(3)))
    ensures var me := s.procs[s.current].(context := f, state := Ready);
            Next(s, Timer(f, NoWakes(3))) == SwitchTo(s.(frame := f, procs := s.procs[s.current := me]), other)
  {
    assert WakeBlocked(s.procs, NoWakes(3)) == s.procs;
    assert ProbePid(s.current, 1, 3) == other;
    assert Scan(s.procs, s.current, 1, 2) == other;
    hide Inv, Scan, WakeBlocked;
    var s1 := s.(frame := f);
    var me := s.procs[s.current].(context := f, state := Ready);
    assert Save(s1, s.current).procs[s.current := me] == s.procs[s.current := me];
  }

  /** The exception of `PreemptedResumesExactly` arises from boot on: PID 1 is preempted, PID
      2 runs and is preempted with 7 in a0, PID 1 yields, and PID 2 goes on with 0 in a0. */
  lemma YieldClobbersIncomingA0(env: Env) returns (states: seq<State>, events: seq<Event>)
    requires env.net.NetDone?
    ensures IsBootedRun(states, events) && |events| == 3
    ensures events[1].Timer? && states[1].current == 2 && events[1].frame.a0 == 7
    ensures IsYield(events[2]) && states[2].procs[2].state.Ready? && states[2].procs[2].context == events[1].frame
    ensures states[3].current == 2 && states[3].frame == events[1].frame.(a0 := 0)
  {
    hide Next, Inv, Enabled;
    var f1, f2 := USER_FRAME, USER_FRAME.(a0 := 7);
    var e0, e1, e2 := Timer(f1, NoWakes(3)), Timer(f2, NoWakes(3)), Ecall(f1.(a7 := SYS_YIELD), env);
    var s0 := TwoProcesses();
    assert Initial(s0) by { TwoProcessesBoot(); }
    InitialEstablishesInv(s0);
    TimerHandsOver(s0, f1, 2);
    NextKeepsInv(s0, e0);
    var s1 := Next(s0, e0);
    TimerHandsOver(s1, f2, 1);
    NextKeepsInv(s1, e1);
    var s2 := Next(s1, e1);
    YieldHandsBack(s2, e2);
    states, events := [s0, s1, s2, Next(s2, e2)], [e0, e1, e2];
  }

  lemma TwoProcessesBoot()
    ensures Initial(TwoProcesses())
  {
  }

  lemma YieldHandsBack(s: State, e: Event)
    requires Inv(s) && UserMode(s) && |s.procs| == 3 && s.current == 1 && s.procs[2].state.Ready?
    requires IsYield(e) && !e.frame.sstatus.spp && e.env.net.NetDone?
    ensures Enabled(s, e) && Next(s, e).current == 2 && Next(s, e).frame == s.procs[2].context.(a0 := 0)
  {
    EnterKeepsInv(s, e);
    assert ProbePid(1, 1, 3) == 2;
    assert Scan(s.procs, 1, 1, 2) == 2;
    YieldHandsOver(Enter(s, e));
    hide Inv, SysYield, Scan;
  }
}
