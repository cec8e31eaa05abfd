/** Messages to a process that ends: the sender sleeps on, and the slot may be used again. */
module KernelReuse {
  import opened Words
  import opened ProcessTable
  import opened Scheduler
  import opened Lifecycle
  import opened Dispatch
  import opened KernelInvariant
  import opened ProcessView
  import opened KernelRuns

  // ---------- How long a process lives ----------

  /** Process `p` ends in this trap. */
  ghost predicate Ends(s: State, e: Event, p: nat) { UserMode(s) && s.current == p && IsExit(e) }

  /** One trap frees the slot of a live process if and only if the process ends in it. */
  lemma LifeStep(s: State, e: Event, p: nat)
    requires Inv(s) && Enabled(s, e) && 1 <= p < |s.procs| && !s.procs[p].state.Free?
    ensures p < |Next(s, e).procs| && (Next(s, e).procs[p].state.Free? <==> Ends(s, e, p))
  {
    if UserMode(s) && s.current == p {
      OwnerStep(s, e);
      if IsExit(e) { EndingFrees(s, e); }
    } else {
      BystanderStep(s, e, p);
      EffectIsAlive(s, e, p);
    }
    hide Next, Effect;
  }

  lemma EndingFrees(s: State, e: Event)
    requires Inv(s) && Enabled(s, e) && UserMode(s) && IsExit(e)
    ensures s.current < |Next(s, e).procs| && Next(s, e).procs[s.current].state.Free?
  {
    var s1 := Enter(s, e);
    EnterKeepsInv(s, e);
    var s2 := Reap(s1, ExitCode(e));
    assert s2.procs[s.current].state.Free?;
    hide Reap, TableInv;
  }

  lemma EffectIsAlive(s: State, e: Event, p: nat)
    requires Shape(s) && 1 <= p < |s.procs| && Enabled(s, e) && !s.procs[p].state.Free?
    ensures !Effect(s, e, p).state.Free?
  {
    hide First, NewProcess, InitialContext, Accepts, Enabled;
  }

  /** Slot `p` belongs to the same process from `i` to `k`. */
  ghost predicate SameLife(states: seq<State>, i: nat, k: nat, p: nat)
    requires k < |states|
  {
    forall m {:trigger states[m]} :: i <= m <= k ==> p < |states[m].procs| && !states[m].procs[p].state.Free?
  }

  lemma {:induction false} SameLifeIff(states: seq<State>, events: seq<Event>, i: nat, k: nat, p: nat)
    requires IsRun(states, events) && i <= k < |states| && Inv(states[i])
    requires 1 <= p < |states[i].procs| && !states[i].procs[p].state.Free?
    ensures SameLife(states, i, k, p)
            <==> forall m {:trigger events[m]} :: i <= m < k ==> !Ends(states[m], events[m], p)
    decreases k - i
  {
    hide Next, Inv, Step, Enabled, Ends;
    if i < k {
      StepAt(states, events, i);
      LifeStep(states[i], events[i], p);
      if Ends(states[i], events[i], p) {
        assert states[i + 1].procs[p].state.Free?;
        assert !SameLife(states, i, k, p);
      } else {
        SameLifeIff(states, events, i + 1, k, p);
        LifeSplits(states, i, k, p);
      }
    }
  }

  lemma LifeSplits(states: seq<State>, i: nat, k: nat, p: nat)
    requires i < k < |states| && p < |states[i].procs| && !states[i].procs[p].state.Free?
    ensures SameLife(states, i, k, p) <==> SameLife(states, i + 1, k, p)
  {
  }

  /** A blocked SEND reaches the process that it was meant for if and only if that process
      does not end before the RECEIVE that takes the message. */
  lemma SendReachesItsTargetIff(states: seq<State>, events: seq<Event>, i: nat, j: nat, p: nat) returns (k: nat)
    requires IsRun(states, events) && i <= j < |states| && Inv(states[i])
    requires 1 <= p < |states[i].procs| && states[i].procs[p].state.BlockedSend?
    requires p < |states[j].procs| && !states[j].procs[p].state.BlockedSend?
    requires var r := states[i].procs[p].ipcTarget; 1 <= r < |states[i].procs| && !states[i].procs[r].state.Free?
    ensures i <= k < j && Shape(states[k]) && ReceivesFrom(states[k], events[k], p)
    ensures var r := states[i].procs[p].ipcTarget;
            && states[k].current == r
            && (SameLife(states, i, k, r)
                <==> forall m {:trigger events[m]} :: i <= m < k ==> !Ends(states[m], events[m], r))
  {
    hide Next, Inv, Step, Enabled, Ends;
    k := SendIsDeliveredOnce(states, events, i, j, p);
    SameLifeIff(states, events, i, k, states[i].procs[p].ipcTarget);
  }

  /** And a blocked CALL is answered by the process that it was meant for if and only if that
      process does not end before the REPLY. */
  lemma CallIsAnsweredByItsTargetIff(states: seq<State>, events: seq<Event>, i: nat, j: nat, p: nat)
      returns (k: nat)
    requires IsRun(states, events) && i <= j < |states| && Inv(states[i])
    requires 1 <= p < |states[i].procs| && states[i].procs[p].state.BlockedCall?
    requires p < |states[j].procs| && !states[j].procs[p].state.BlockedCall?
    requires var r := states[i].procs[p].ipcTarget; 1 <= r < |states[i].procs| && !states[i].procs[r].state.Free?
    ensures i <= k < j && p < |states[k].procs| && RepliesTo(states[k], events[k], p)
    ensures var r := states[i].procs[p].ipcTarget;
            && states[k].current == r
            && (SameLife(states, i, k, r)
                <==> forall m {:trigger events[m]} :: i <= m < k ==> !Ends(states[m], events[m], r))
  {
    hide Next, Inv, Step, Enabled, Ends;
    k := CallEndsByItsReply(states, events, i, j, p);
    SameLifeIff(states, events, i, k, states[i].procs[p].ipcTarget);
  }

  // ---------- A run in which a message goes astray ----------

  const UNUSED := NewProcess(0, 0, USER_FRAME, 0).(state := Free)

  /** Four slots, of which the first is never used. */
  ghost function Slots(p1: Process, p2: Process, p3: Process): seq<Process> { [UNUSED, p1, p2, p3] }

  ghost function On(procs: seq<Process>, current: nat, f: TrapFrame): State
    requires current < |procs|
  {
    State(procs, current, f, procs[current].satp, seq(MAX_IRQS, _ => 0), Config(0, 0, 0, false), false)
  }

  /** A system call with its number and first two arguments. */
  ghost function Request(number: Word, a0: Word, a1: Word, image: Option<Image>): Event {
    Ecall(USER_FRAME.(a7 := number, a0 := a0, a1 := a1), Env(0, image, NetDone(0)))
  }

  ghost predicate IsUser(f: TrapFrame) { !f.sstatus.spp }

  lemma CanRequest(procs: seq<Process>, current: nat, f: TrapFrame, e: Event)
    requires |procs| == 4 && 1 <= current < 4 && IsUser(f) && e.Ecall? && !e.frame.sstatus.spp
    requires e.frame.a7 != SYS_REBOOT && e.env.net.NetDone?
    ensures Shape(On(procs, current, f)) && Enabled(On(procs, current, f), e)
    ensures Next(On(procs, current, f), e) == HandleEcall(On(procs, current, e.frame), e.env)
  {
  }

  /** SPAWN into the one free slot. */
  lemma SpawnStep(procs: seq<Process>, current: nat, f: TrapFrame, pid: nat, image: Image)
    requires |procs| == 4 && 1 <= current < 4 && IsUser(f) && 1 <= pid < 4 && pid != current
    requires forall k :: 1 <= k < 4 ==> (procs[k].state.Free? <==> k == pid)
    ensures var s, e := On(procs, current, f), Request(SYS_SPAWN, 0, 0, Some(image));
            && Shape(s) && Enabled(s, e)
            && Next(s, e) == On(procs[pid := NewProcess(pid, image.satp, InitialContext(image), current)], current,
                                Advance(e.frame).(a0 := pid))
  {
    hide InitialContext, NewProcess;
    var e := Request(SYS_SPAWN, 0, 0, Some(image));
    CanRequest(procs, current, f, e);
    var found := First(procs, IsFree, 1);
    assert Matches(IsFree, pid, procs[pid]);
    assert found != 0 && Matches(IsFree, found, procs[found]);
  }

  ghost function Calling(p: Process, e: Event): Process {
    p.(context := Advance(e.frame), ipcTarget := e.frame.a0, ipcValue := e.frame.a1, ipcArg2 := e.frame.a2,
       ipcArg3 := e.frame.a3, state := BlockedCall)
  }

  /** PID 1 calls PID 2, which is ready and runs next. */
  lemma CallStepTo(p1: Process, p2: Process, p3: Process, f: TrapFrame, value: Word)
    requires IsUser(f) && p1.state.Running? && p2.state.Ready? && p3.state.Ready?
    ensures var s, e := On(Slots(p1, p2, p3), 1, f), Request(SYS_CALL, 2, value, None);
            && Shape(s) && Enabled(s, e)
            && Next(s, e) == On(Slots(Calling(p1, e), p2.(state := Running), p3), 2, p2.context)
  {
    var procs, e := Slots(p1, p2, p3), Request(SYS_CALL, 2, value, None);
    CanRequest(procs, 1, f, e);
    var after := Slots(Calling(p1, e), p2, p3);
    assert ProbePid(1, 1, 4) == 2;
    assert Scan(after, 1, 1, 4) == 2;
    hide Scan;
    var s := On(procs, 1, e.frame);
    var asleep := p1.(ipcTarget := 2, ipcValue := value, ipcArg2 := e.frame.a2, ipcArg3 := e.frame.a3,
                      state := BlockedCall);
    assert procs[1 := asleep][1 := asleep.(context := Advance(e.frame))] == after;
    assert after[2 := p2.(state := Running)] == Slots(Calling(p1, e), p2.(state := Running), p3);
  }

  lemma NoWaiter(p1: Process, p2: Process, p3: Process)
    requires !p1.state.BlockedWait? && !p2.state.BlockedWait? && !p3.state.BlockedWait?
    ensures First(Slots(p1, p2, p3), WaitsFor(2), 1) == 0
  {
    var procs, i := Slots(p1, p2, p3), First(Slots(p1, p2, p3), WaitsFor(2), 1);
    assert i != 0 ==> Matches(WaitsFor(2), i, procs[i]);
  }

  lemma OneReady(p1: Process, p2: Process, p3: Process)
    requires !p1.state.Ready? && !p2.state.Ready? && p3.state.Ready?
    ensures First(Slots(p1, p2, p3), IsReady, 1) == 3
  {
    var procs, i := Slots(p1, p2, p3), First(Slots(p1, p2, p3), IsReady, 1);
    assert Matches(IsReady, 3, procs[3]);
    assert i != 0 && Matches(IsReady, i, procs[i]);
  }

  /** PID 2 exits, and PID 3 runs next. */
  lemma ExitStep(p1: Process, p2: Process, p3: Process, f: TrapFrame)
    requires IsUser(f) && p1.state.BlockedCall? && p2.state.Running? && p3.state.Ready? && p2.irqNum == 0
    ensures var s, e := On(Slots(p1, p2, p3), 2, f), Request(SYS_EXIT, 0, 0, None);
            && Shape(s) && Enabled(s, e) && Next(s, e).procs[2].state.Free?
            && Next(s, e) == On(Slots(p1, Next(s, e).procs[2], p3.(state := Running)), 3, p3.context)
  {
    var procs, e := Slots(p1, p2, p3), Request(SYS_EXIT, 0, 0, None);
    CanRequest(procs, 2, f, e);
    var s := On(procs, 2, e.frame);
    var gone := Retire(s, 0).procs[2];
    assert Retire(s, 0) == s.(procs := Slots(p1, gone, p3));
    NoWaiter(p1, gone, p3);
    OneReady(p1, gone, p3);
    hide First;
    assert Slots(p1, gone, p3)[3 := p3.(state := Running)] == Slots(p1, gone, p3.(state := Running));
  }

  /** PID 3 yields to PID 2. */
  lemma YieldStep(p1: Process, p2: Process, p3: Process, f: TrapFrame)
    requires IsUser(f) && p1.state.BlockedCall? && p2.state.Ready? && p3.state.Running?
    ensures var s, e := On(Slots(p1, p2, p3), 3, f), Request(SYS_YIELD, 0, 0, None);
            && Shape(s) && Enabled(s, e)
            && Next(s, e) == On(Slots(p1, p2.(state := Running), p3.(context := Advance(e.frame), state := Ready)), 2,
                                p2.context.(a0 := 0))
  {
    var procs, e := Slots(p1, p2, p3), Request(SYS_YIELD, 0, 0, None);
    CanRequest(procs, 3, f, e);
    assert ProbePid(3, 1, 4) == 1 && ProbePid(3, 2, 4) == 2;
    var left := p3.(state := Ready);
    var saved := p3.(context := Advance(e.frame), state := Ready);
    ScanSkips(procs, 3);
    assert procs[3 := left][3 := saved] == Slots(p1, p2, saved);
    ScanSkips(Slots(p1, p2, saved), 4);
    hide Scan;
    assert Slots(p1, p2, saved)[2 := p2.(state := Running)] == Slots(p1, p2.(state := Running), saved);
  }

  lemma ScanSkips(procs: seq<Process>, limit: nat)
    requires |procs| == 4 && !procs[1].state.Ready? && procs[2].state.Ready? && limit >= 3
    ensures Scan(procs, 3, 1, limit) == 2
  {
    assert ProbePid(3, 1, 4) == 1 && ProbePid(3, 2, 4) == 2;
    assert Scan(procs, 3, 1, limit) == Scan(procs, 3, 2, limit);
  }

  /** PID 2 receives from anyone, and finds the call of PID 1. */
  lemma ReceiveStep(p1: Process, p2: Process, p3: Process, f: TrapFrame)
    requires IsUser(f) && p1.state.BlockedCall? && p1.ipcTarget == 2 && p2.state.Running? && !p2.irqPending
    ensures var s, e := On(Slots(p1, p2, p3), 2, f), Request(SYS_RECEIVE, 0, 0, None);
            && Shape(s) && Enabled(s, e)
            && Next(s, e) == On(Slots(p1, p2, p3), 2, Advance(e.frame).(a0 := p1.ipcValue, a1 := 1))
  {
    var procs, e := Slots(p1, p2, p3), Request(SYS_RECEIVE, 0, 0, None);
    CanRequest(procs, 2, f, e);
    assert Matches(SendsTo(2, 0), 1, procs[1]);
    assert First(procs, SendsTo(2, 0), 1) == 1;
  }

  /** PID 2 replies to PID 1. */
  lemma ReplyStep(p1: Process, p2: Process, p3: Process, f: TrapFrame, value: Word)
    requires IsUser(f) && p1.state.BlockedCall? && p1.ipcTarget == 2 && p2.state.Running?
    ensures var s, e := On(Slots(p1, p2, p3), 2, f), Request(SYS_REPLY, 1, value, None);
            && Shape(s) && Enabled(s, e)
            && Next(s, e) == On(Slots(p1.(context := p1.context.(a0 := value), state := Ready), p2, p3), 2,
                                Advance(e.frame).(a0 := 0))
  {
    var procs, e := Slots(p1, p2, p3), Request(SYS_REPLY, 1, value, None);
    CanRequest(procs, 2, f, e);
    var woken := p1.(context := p1.context.(a0 := value), state := Ready);
    assert procs[1 := woken] == Slots(woken, p2, p3);
  }

  /** From boot: PID 1 spawns PID 3 and calls PID 2 with 7; PID 2 exits; PID 3 spawns, into
      the same slot; the new PID 2 receives the 7 of PID 1 and answers with 9. */
  lemma ReusedSlotGetsTheCall(one: Image, two: Image) returns (states: seq<State>, events: seq<Event>)
    ensures IsBootedRun(states, events) && |events| == 7 && forall k :: 0 <= k < |states| ==> |states[k].procs| == 4
    ensures states[1].procs[2].state.Ready? && states[1].procs[2].parent == 0
    ensures IsSyscall(events[1], SYS_CALL) && states[1].current == 1 && events[1].frame.a0 == 2
    ensures events[1].frame.a1 == 7 && states[2].procs[1].state.BlockedCall?
    ensures Ends(states[2], events[2], 2) && states[3].procs[2].state.Free?
    ensures IsSyscall(events[3], SYS_SPAWN) && states[3].current == 3 && states[4].frame.a0 == 2
    ensures states[4].procs[2] == NewProcess(2, two.satp, InitialContext(two), 3)
    ensures states[5].current == 2 && IsSyscall(events[5], SYS_RECEIVE)
    ensures states[6].frame.a0 == 7 && states[6].frame.a1 == 1
    ensures IsSyscall(events[6], SYS_REPLY) && states[7].procs[1].state.Ready? && states[7].procs[1].context.a0 == 9
  {
    hide Next, Enabled, Shape, NewProcess, InitialContext;
    var p1 := NewProcess(1, 1, USER_FRAME, 0).(state := Running);
    var p2 := NewProcess(2, 2, USER_FRAME, 0);
    var e0, e1, e2 := Request(SYS_SPAWN, 0, 0, Some(one)), Request(SYS_CALL, 2, 7, None), Request(SYS_EXIT, 0, 0, None);
    var e3, e4 := Request(SYS_SPAWN, 0, 0, Some(two)), Request(SYS_YIELD, 0, 0, None);
    var e5, e6 := Request(SYS_RECEIVE, 0, 0, None), Request(SYS_REPLY, 1, 9, None);
    UserContext(one);
    UserContext(two);
    NewProcessIs(1, 1, USER_FRAME, 0);
    NewProcessIs(2, 2, USER_FRAME, 0);
    NewProcessIs(3, one.satp, InitialContext(one), 1);
    NewProcessIs(2, two.satp, InitialContext(two), 3);
    var s0 := On(Slots(p1, p2, UNUSED), 1, USER_FRAME);
    assert Initial(s0) by { TwoOfFourBoot(p1, p2); }
    SpawnStep(s0.procs, 1, USER_FRAME, 3, one);
    var p3 := NewProcess(3, one.satp, InitialContext(one), 1);
    assert s0.procs[3 := p3] == Slots(p1, p2, p3);
    var s1 := Next(s0, e0);
    CallStepTo(p1, p2, p3, s1.frame, 7);
    var s2, caller := Next(s1, e1), Calling(p1, e1);
    ExitStep(caller, p2.(state := Running), p3, s2.frame);
    var s3 := Next(s2, e2);
    SpawnStep(s3.procs, 3, s3.frame, 2, two);
    var s4, q2, r3 := Next(s3, e3), NewProcess(2, two.satp, InitialContext(two), 3), p3.(state := Running);
    assert s3.procs[2 := q2] == Slots(caller, q2, r3);
    YieldStep(caller, q2, r3, s4.frame);
    var s5 := Next(s4, e4);
    var r2, w3 := q2.(state := Running), r3.(context := Advance(e4.frame), state := Ready);
    ReceiveStep(caller, r2, w3, s5.frame);
    var s6 := Next(s5, e5);
    ReplyStep(caller, r2, w3, s6.frame, 9);
    states, events := [s0, s1, s2, s3, s4, s5, s6, Next(s6, e6)], [e0, e1, e2, e3, e4, e5, e6];
  }

  lemma NewProcessIs(pid: nat, satp: Word, context: TrapFrame, parent: nat)
    ensures var p := NewProcess(pid, satp, context, parent);
            && p.state.Ready? && p.satp == satp && p.context == context && p.parent == parent
            && p.irqNum == 0 && !p.irqPending
  {
  }

  lemma UserContext(image: Image)
    ensures IsUser(InitialContext(image))
  {
  }

  lemma TwoOfFourBoot(p1: Process, p2: Process)
    requires p1.state.Running? && p2.state.Ready? && p1.context == USER_FRAME && p2.context == USER_FRAME
    ensures Initial(On(Slots(p1, p2, UNUSED), 1, USER_FRAME))
  {
  }
}
