/** Bounded waiting under round-robin, and independence from the order in which
    the two sides of a rendezvous arrive. */
module KernelFairness {
  import opened Words
  import opened ProcessTable
  import opened Scheduler
  import opened Ipc
  import opened Lifecycle
  import opened Dispatch
  import opened KernelInvariant
  import opened ProcessView
  import opened KernelRuns

  // ---------- Bounded waiting ----------

  /** The CPU stays where it is, or moves to a process no farther in cyclic order than `q`. */
  ghost predicate StaysOrNearest(s: State, t: State, q: nat) {
    && |t.procs| == |s.procs| >= 3
    && 1 <= s.current < |s.procs| && 1 <= t.current < |s.procs| && 1 <= q < |s.procs|
    && (t.current == s.current
        || Distance(s.current, t.current, |s.procs|) <= Distance(s.current, q, |s.procs|))
  }

  lemma ScheduleNearest(s: State, q: nat)
    requires |s.procs| >= 3 && 1 <= s.current < |s.procs| && 1 <= q < |s.procs|
    requires q != s.current && s.procs[q].state.Ready?
    ensures StaysOrNearest(s, Schedule(s, s.current), q)
  {
    var s1 := Save(s, s.current);
    ScanPicksNearest(s1.procs, s.current, 1, |s.procs|);
    assert s1.procs[q].state.Ready?;
  }

  lemma PreemptNearest(s: State, q: nat)
    requires |s.procs| >= 3 && 1 <= s.current < |s.procs| && 1 <= q < |s.procs|
    requires q != s.current && s.procs[q].state.Ready?
    ensures StaysOrNearest(s, Preempt(s), q)
  {
    ScanPicksNearest(s.procs, s.current, 1, |s.procs| - 1);
  }

  lemma YieldNearest(s: State, q: nat)
    requires Inv(s) && UserMode(s) && 1 <= q < |s.procs| && s.procs[q].state.Ready?
    ensures StaysOrNearest(s, SysYield(s), q)
  {
    ScanPicksNearest(s.procs, s.current, 1, |s.procs| - 1);
    assert Scan(s.procs, s.current, 1, |s.procs| - 1) != 0;
    YieldHandsOver(s);
    hide SysYield, Scan;
  }

  lemma SendNearest(s: State, q: nat)
    requires Inv(s) && UserMode(s) && 1 <= q < |s.procs| && s.procs[q].state.Ready?
    ensures StaysOrNearest(s, SysSend(s), q)
  {
    hide Schedule, TableInv;
    var s0 := s.(frame := Advance(s.frame));
    ScheduleNearest(s0.(procs := s0.procs[s.current := s0.procs[s.current].(
                    ipcTarget := s0.frame.a0, ipcValue := s0.frame.a1, state := BlockedSend)]), q);
  }

  lemma CallNearest(s: State, q: nat)
    requires Inv(s) && UserMode(s) && 1 <= q < |s.procs| && s.procs[q].state.Ready?
    ensures StaysOrNearest(s, SysCall(s), q)
  {
    hide Schedule, TableInv;
    var s0 := s.(frame := Advance(s.frame));
    var f, t := s0.frame, s0.frame.a0;
    if ValidIpcTarget(t, s.current, |s.procs|) {
      var r := s0.procs[t];
      var woken := r.(context := r.context.(a0 := f.a1, a1 := s.current, a2 := f.a2, a3 := f.a3), state := Ready);
      var s1 := if WouldRendezvous(s0, t) then s0.(procs := s0.procs[t := woken]) else s0;
      ScheduleNearest(s1.(procs := s1.procs[s.current := s1.procs[s.current].(
                      ipcTarget := t, ipcValue := f.a1, ipcArg2 := f.a2, ipcArg3 := f.a3,
                      state := BlockedCall)]), q);
    }
  }

  lemma ReceiveNearest(s: State, q: nat)
    requires Inv(s) && UserMode(s) && 1 <= q < |s.procs| && s.procs[q].state.Ready?
    ensures StaysOrNearest(s, SysReceive(s), q)
  {
    hide Schedule, TableInv;
    var s0 := s.(frame := Advance(s.frame));
    ScheduleNearest(s0.(procs := s0.procs[s.current := s0.procs[s.current].(
                    ipcTarget := s0.frame.a0, state := BlockedRecv)]), q);
  }

  lemma WaitNearest(s: State, q: nat)
    requires Inv(s) && UserMode(s) && 1 <= q < |s.procs| && s.procs[q].state.Ready?
    ensures StaysOrNearest(s, SysWait(s), q)
  {
    hide Schedule, TableInv;
    var s0 := s.(frame := Advance(s.frame));
    ScheduleNearest(s0.(procs := s0.procs[s.current := s0.procs[s.current].(
                    ipcTarget := s0.frame.a0, state := BlockedWait)]), q);
  }

  lemma NetNearest(s: State, reply: NetReply, q: nat)
    requires Inv(s) && UserMode(s) && 1 <= q < |s.procs| && s.procs[q].state.Ready?
    ensures StaysOrNearest(s, NetRequest(s, reply), q)
  {
    hide Schedule, TableInv;
    if reply.NetPark? {
      var s0 := s.(frame := Advance(s.frame));
      ScheduleNearest(s0.(procs := s0.procs[s.current := s0.procs[s.current].(
                     netOp := reply.op, netSocket := reply.socket, netBufVa := reply.bufVa,
                     netBufLen := reply.bufLen, state := BlockedNet)]), q);
    }
  }

  lemma TimerNearest(s: State, wakes: seq<Option<Word>>, q: nat)
    requires Inv(s) && UserMode(s) && |wakes| == |s.procs| && 1 <= q < |s.procs| && s.procs[q].state.Ready?
    ensures StaysOrNearest(s, HandleTimer(s, wakes), q)
  {
    var s1 := s.(procs := WakeBlocked(s.procs, wakes));
    assert s1.procs[q] == s.procs[q];
    hide Preempt, WakeBlocked, TableInv;
    PreemptNearest(s1, q);
  }

  lemma EcallNearest(s: State, env: Env, q: nat)
    requires Inv(s) && UserMode(s) && 1 <= q < |s.procs| && s.procs[q].state.Ready?
    requires s.frame.a7 != SYS_EXIT
    ensures StaysOrNearest(s, HandleEcall(s, env), q)
  {
    hide SysExit, SysSend, SysReceive, SysCall, SysWait, SysYield, NetRequest, TableInv;
    var n := s.frame.a7;
    if n == SYS_SEND { SendNearest(s, q); }
    else if n == SYS_RECEIVE { ReceiveNearest(s, q); }
    else if n == SYS_CALL { CallNearest(s, q); NetNearest(s, env.net, q); }
    else if n == SYS_WAIT { WaitNearest(s, q); }
    else if n == SYS_YIELD { YieldNearest(s, q); }
  }

  /** While `q` is Ready, no trap other than an exit or a kill lets the CPU go past it. */
  lemma SwitchesTowards(s: State, e: Event, q: nat)
    requires Inv(s) && UserMode(s) && Enabled(s, e) && !IsExit(e)
    requires 1 <= q < |s.procs| && s.procs[q].state.Ready?
    ensures StaysOrNearest(s, Next(s, e), q)
  {
    EnterKeepsInv(s, e);
    var s1 := Enter(s, e);
    hide HandleEcall, HandleTimer, Inv;
    match e
    case Ecall(_, env) => EcallNearest(s1, env, q);
    case Timer(_, wakes) => TimerNearest(s1, wakes, q);
    case External(_, irq, wakes) => ExternalNearest(s1, irq, wakes, q);
  }

  lemma ExternalNearest(s: State, irq: Word, wakes: seq<Option<Word>>, q: nat)
    requires Inv(s) && UserMode(s) && |wakes| == |s.procs| && 1 <= q < |s.procs| && s.procs[q].state.Ready?
    ensures StaysOrNearest(s, HandleExternal(s, irq, wakes), q)
  {
    hide TableInv;
  }

  /** The number of times the CPU changes hands between states `i` and `j`. */
  ghost function Switches(states: seq<State>, i: nat, j: nat): nat
    requires i <= j < |states|
    decreases j - i
  {
    if i == j then 0
    else (if states[i].current != states[i + 1].current then 1 else 0) + Switches(states, i + 1, j)
  }

  ghost predicate NoExits(events: seq<Event>, i: nat, j: nat) {
    forall k {:trigger events[k]} :: i <= k < j <= |events| ==> !IsExit(events[k])
  }

  lemma DistanceAdds(c: nat, r: nat, q: nat, n: nat)
    requires 1 <= c < n && 1 <= r < n && 1 <= q < n && r != q && Distance(c, r, n) <= Distance(c, q, n)
    ensures Distance(c, r, n) + Distance(r, q, n) == Distance(c, q, n)
  {
  }

  lemma UserModeFollowsCurrent(s: State, q: nat)
    requires Inv(s) && q < |s.procs| && s.procs[q].state.Ready? && s.current != 0
    ensures UserMode(s) && s.current != q
  {
  }

  /** Bounded waiting: while `q` stays Ready and nobody exits or is killed, every switch
      brings the CPU strictly nearer to `q` in cyclic order. The machine never idles, and
      at most MAX_PROCS - 2 switches happen before `q` runs. */
  lemma {:induction false} BoundedWaiting(states: seq<State>, events: seq<Event>, i: nat, j: nat, q: nat)
    requires IsRun(states, events) && i <= j < |states| && Inv(states[i]) && UserMode(states[i])
    requires 1 <= q && ReadyThroughout(states, i, j, q) && NoExits(events, i, j)
    ensures UserMode(states[j]) && |states[j].procs| == |states[i].procs|
    ensures q < |states[i].procs| && 1 <= states[i].current < |states[i].procs|
            && 1 <= states[j].current < |states[i].procs|
    ensures Switches(states, i, j) + Distance(states[j].current, q, |states[i].procs|)
            <= Distance(states[i].current, q, |states[i].procs|)
    ensures Switches(states, i, j) <= |states[i].procs| - 2
    decreases j - i
  {
    assert states[i].procs[q].state.Ready?;
    assert 1 <= states[i].current < |states[i].procs|;
    hide Next, Inv, Step, Enabled;
    if i < j {
      StepAt(states, events, i);
      assert !IsExit(events[i]);
      SwitchesTowards(states[i], events[i], q);
      assert states[i + 1].procs[q].state.Ready?;
      UserModeFollowsCurrent(states[i + 1], q);
      BoundedWaiting(states, events, i + 1, j, q);
      if states[i + 1].current != states[i].current {
        DistanceAdds(states[i].current, states[i + 1].current, q, |states[i].procs|);
        assert Distance(states[i].current, states[i + 1].current, |states[i].procs|) >= 1;
      }
    }
  }

  // ---------- The order of a rendezvous ----------

  /** The registers that process `p` will see when it runs next. */
  ghost function Registers(s: State, p: nat): TrapFrame
    requires p < |s.procs|
  {
    if UserMode(s) && s.current == p then s.frame else s.procs[p].context
  }

  ghost predicate Runnable(s: State, p: nat)
    requires p < |s.procs|
  {
    s.procs[p].state.Ready? || s.procs[p].state.Running?
  }

  /** What a completed rendezvous has done: `r` holds message `m` from `p`, the SEND of
      `p` has returned 0, and both can run. */
  ghost predicate Exchanged(s: State, p: nat, r: nat, m: Word) {
    && p < |s.procs| && r < |s.procs|
    && Runnable(s, p) && Runnable(s, r)
    && Registers(s, r).a0 == m && Registers(s, r).a1 == p
    && Registers(s, p).a0 == 0
  }

  /** Receiver first: it sleeps, then `p` sends. */
  lemma SendMeetsReceiver(s: State, e: Event, r: nat)
    requires Inv(s) && UserMode(s) && Enabled(s, e) && IsSyscall(e, SYS_SEND)
    requires e.frame.a0 == r && 1 <= r < |s.procs|
    requires s.procs[r].state.BlockedRecv? && Accepts(s.procs[r].ipcTarget, s.current)
    ensures Exchanged(Next(s, e), s.current, r, e.frame.a1)
  {
    hide TableInv;
  }

  /** Sender first: `p` sleeps in SEND, then `r` receives. No interrupt is pending for `r`
      and `p` is the lowest-numbered sender that `r` accepts. */
  lemma ReceiveMeetsSender(s: State, e: Event, p: nat)
    requires Inv(s) && UserMode(s) && Enabled(s, e) && ReceivesFrom(s, e, p)
    requires s.procs[p].state.BlockedSend?
    ensures Exchanged(Next(s, e), p, s.current, s.procs[p].ipcValue)
  {
    hide TableInv;
  }

  /** Two runs in which `p` sends `m` to `r`. In the first the send happens at step `i1` and
      blocks, whatever happens then, until some receive releases it; in the second `r` is
      already asleep when the send happens at `i2`. Both exchange the same thing. */
  lemma RendezvousOrderDoesNotMatter(
      states1: seq<State>, events1: seq<Event>, i1: nat, j1: nat,
      states2: seq<State>, events2: seq<Event>, i2: nat,
      p: nat, r: nat, m: Word) returns (k: nat)
    requires IsBootedRun(states1, events1) && i1 < j1 < |states1|
    requires SendsAt(states1[i1], events1[i1], p, r, m)
    requires p < |states1[i1 + 1].procs| && states1[i1 + 1].procs[p].state.BlockedSend?
    requires p < |states1[j1].procs| && !states1[j1].procs[p].state.BlockedSend?
    requires IsBootedRun(states2, events2) && i2 < |events2|
    requires SendsAt(states2[i2], events2[i2], p, r, m)
    requires r < |states2[i2].procs| && states2[i2].procs[r].state.BlockedRecv?
             && Accepts(states2[i2].procs[r].ipcTarget, p)
    ensures i1 < k < j1 && states1[k].current == r && IsSyscall(events1[k], SYS_RECEIVE)
    ensures Exchanged(states1[k + 1], p, r, m)
    ensures Exchanged(states2[i2 + 1], p, r, m)
  {
    hide Next, TableInv, Enabled;
    EveryReachableStateIsSafe(states1, events1, i1);
    StepAt(states1, events1, i1);
    OwnerStep(states1[i1], events1[i1]);
    k := SendIsDeliveredOnce(states1, events1, i1 + 1, j1, p);
    EveryReachableStateIsSafe(states1, events1, k);
    StepAt(states1, events1, k);
    assert states1[k].procs[p].state.BlockedSend? && states1[k].procs[p].ipcValue == m;
    ReceiveMeetsSender(states1[k], events1[k], p);
    EveryReachableStateIsSafe(states2, events2, i2);
    StepAt(states2, events2, i2);
    SendMeetsReceiver(states2[i2], events2[i2], r);
  }

  ghost predicate SendsAt(s: State, e: Event, p: nat, r: nat, m: Word) {
    UserMode(s) && s.current == p && IsSyscall(e, SYS_SEND) && e.frame.a0 == r != 0 && e.frame.a1 == m
  }

  /** For SYS_CALL the message and the caller's PID arrive in either order, but the extra
      arguments reach only a receiver that was already asleep: one that receives later keeps
      its own a2 and a3. */
  lemma CallArgumentsDependOnOrder(s: State, e: Event, r: nat, s2: State, e2: Event, p: nat)
    requires Inv(s) && UserMode(s) && Enabled(s, e) && IsIpcCall(s, e) && s.current == p
    requires e.frame.a0 == r && 1 <= r < |s.procs|
    requires s.procs[r].state.BlockedRecv? && Accepts(s.procs[r].ipcTarget, p)
    requires Inv(s2) && UserMode(s2) && Enabled(s2, e2) && ReceivesFrom(s2, e2, p) && s2.current == r
    requires s2.procs[p].state.BlockedCall? && s2.procs[p].ipcValue == e.frame.a1
    ensures var t, t2 := Next(s, e), Next(s2, e2);
            && |t.procs| == |s.procs| && |t2.procs| == |s2.procs|
            && Registers(t, r).a0 == Registers(t2, r).a0 == e.frame.a1
            && Registers(t, r).a1 == Registers(t2, r).a1 == p
            && Registers(t, r).a2 == e.frame.a2 && Registers(t, r).a3 == e.frame.a3
            && Registers(t2, r).a2 == e2.frame.a2 && Registers(t2, r).a3 == e2.frame.a3
            && t.procs[p].state.BlockedCall? && t2.procs[p].state.BlockedCall?
  {
    hide Next, Inv, Enabled, Effect, OwnerOutcome;
    ReceiveResult(s2, e2, p);
    TableSizeStep(s, e);
    TableSizeStep(s2, e2);
    CallerStep(s2, e2, p);
    CallReachesSleeper(s, e, r);
    CallBlocksCaller(s, e);
  }

  lemma CallReachesSleeper(s: State, e: Event, r: nat)
    requires Inv(s) && UserMode(s) && Enabled(s, e) && IsIpcCall(s, e) && e.frame.a0 == r && 1 <= r < |s.procs|
    requires s.procs[r].state.BlockedRecv? && Accepts(s.procs[r].ipcTarget, s.current)
    ensures r != s.current && r < |Next(s, e).procs|
    ensures var f := Registers(Next(s, e), r);
            f.a0 == e.frame.a1 && f.a1 == s.current && f.a2 == e.frame.a2 && f.a3 == e.frame.a3
  {
    TableSizeStep(s, e);
    BystanderStep(s, e, r);
    hide Next, TableInv, Enabled;
  }

  lemma CallBlocksCaller(s: State, e: Event)
    requires Inv(s) && UserMode(s) && Enabled(s, e) && IsIpcCall(s, e)
    requires ValidIpcTarget(e.frame.a0, s.current, |s.procs|)
    ensures s.current < |Next(s, e).procs| && Next(s, e).procs[s.current].state.BlockedCall?
  {
    EnterKeepsInv(s, e);
    var s1 := Enter(s, e);
    hide Schedule, TableInv;
    var s0 := s1.(frame := Advance(s1.frame));
    var f, t := s0.frame, s0.frame.a0;
    var q := s0.procs[t];
    var woken := q.(context := q.context.(a0 := f.a1, a1 := s.current, a2 := f.a2, a3 := f.a3), state := Ready);
    var s2 := if WouldRendezvous(s0, t) then s0.(procs := s0.procs[t := woken]) else s0;
    ScheduleOwner(s2.(procs := s2.procs[s.current := s2.procs[s.current].(
                    ipcTarget := t, ipcValue := f.a1, ipcArg2 := f.a2, ipcArg3 := f.a3,
                    state := BlockedCall)]), s.current);
  }
}
