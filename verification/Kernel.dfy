/** The kernel as it runs: one object holding the process table, CURRENT_PID, the
    live trap frame, satp and IRQ_OWNER, updated in place by one method per trap.
    Each method is proved equal to the step function its module defines. */
module Kernel {
  import opened Words
  import opened ProcessTable
  import opened Scheduler
  import opened Ipc
  import opened Lifecycle
  import opened Dispatch
  import opened KernelInvariant

  class Machine {
    const procs: array<Process>
    const irqOwner: array<nat>
    const cfg: Config
    var current: nat
    var frame: TrapFrame
    var satp: Word
    var panicked: bool

    ghost function Snapshot(): State
      reads this, procs, irqOwner
    {
      State(procs[..], current, frame, satp, irqOwner[..], cfg, panicked)
    }

    ghost predicate Valid()
      reads this, procs, irqOwner
    {
      procs as object != irqOwner as object && Shape(Snapshot())
    }

    /** The table that `launch` hands over when it drops into PID 1. */
    constructor (boot: seq<Process>, cfg: Config, frame: TrapFrame)
      requires 3 <= |boot| < WORD_LIMIT && boot[0].state.Free? && boot[1].state.Ready? && !frame.sstatus.spp
      requires forall i :: 0 <= i < |boot| ==> boot[i].state.Free? || boot[i].state.Ready?
      requires forall i :: 0 <= i < |boot| && boot[i].state.Ready? ==> boot[i].context.sstatus == USER_STATUS
      ensures Valid() && Initial(Snapshot())
      ensures Snapshot().procs == boot[1 := boot[1].(state := Running)] && Snapshot().frame == frame
    {
      procs := new Process[|boot|](i requires 0 <= i < |boot| => boot[i]);
      irqOwner := new nat[MAX_IRQS](_ => 0);
      this.cfg := cfg;
      this.frame := frame;
      current := 1;
      satp := boot[1].satp;
      panicked := false;
      new;
      procs[1] := procs[1].(state := Running);
      assert procs[..] == boot[1 := boot[1].(state := Running)];
    }

    // ---------- Scan loops ----------

    /** `for i in 1..MAX_PROCS { if .. { break } }` */
    method FindFirst(q: Query) returns (r: nat)
      requires Valid()
      ensures r == First(procs[..], q, 1)
    {
      r := 0;
      var i := 1;
      while i < procs.Length
        invariant 1 <= i <= procs.Length
        invariant r == 0 && First(procs[..], q, 1) == First(procs[..], q, i)
      {
        if Matches(q, i, procs[i]) {
          return i;
        }
        i := i + 1;
      }
    }

    /** `for offset in 1..limit`, round-robin from `c`. */
    method ScanReady(c: nat, limit: nat) returns (r: nat)
      requires Valid() && 1 <= c < procs.Length && limit <= procs.Length
      ensures r == Scan(procs[..], c, 1, limit)
    {
      r := 0;
      var offset := 1;
      while offset < limit
        invariant 1 <= offset
        invariant r == 0 && Scan(procs[..], c, 1, limit) == Scan(procs[..], c, offset, limit)
      {
        var i := (c - 1 + offset) % (procs.Length - 1) + 1;
        assert i == ProbePid(c, offset, procs.Length);
        if procs[i].state.Ready? {
          return i;
        }
        offset := offset + 1;
      }
    }

    // ---------- Scheduler ----------

    method Load(next: nat)
      requires Valid() && next < procs.Length
      modifies this, procs
      ensures Valid() && Snapshot() == SwitchTo(old(Snapshot()), next)
    {
      frame := procs[next].context;
      procs[next] := procs[next].(state := Running);
      current := next;
      satp := procs[next].satp;
      assert procs[..] == old(procs[..])[next := old(procs[next]).(state := Running)];
    }

    method Idle()
      requires Valid()
      modifies this
      ensures Valid() && Snapshot() == EnterIdle(old(Snapshot()))
    {
      current := 0;
      satp := cfg.kernelSatp;
      frame := frame.(sstatus := IDLE_STATUS, sepc := cfg.idleEntry);
    }

    method ScheduleAway(blocked: nat)
      requires Valid() && 1 <= blocked < procs.Length
      modifies this, procs
      ensures Valid() && Snapshot() == Schedule(old(Snapshot()), blocked)
    {
      procs[blocked] := procs[blocked].(context := frame);
      assert Snapshot() == Save(old(Snapshot()), blocked);
      var next := ScanReady(blocked, procs.Length);
      if next == 0 {
        var alive := FindFirst(IsAlive);
        if alive == 0 {
          panicked := true;
          return;
        }
        Idle();
        return;
      }
      Load(next);
    }

    method PreemptCurrent()
      requires Valid()
      modifies this, procs
      ensures Valid() && Snapshot() == Preempt(old(Snapshot()))
    {
      if current == 0 { return; }
      var next := ScanReady(current, procs.Length - 1);
      if next == 0 { return; }
      procs[current] := procs[current].(context := frame);
      procs[current] := procs[current].(state := Ready);
      assert procs[..] == old(procs[..])[current := old(procs[current]).(context := frame, state := Ready)];
      ghost var saved := Save(old(Snapshot()), current);
      assert Snapshot() == saved.(procs := saved.procs[current := saved.procs[current].(state := Ready)]);
      Load(next);
    }

    method WakeFromIdle()
      requires Valid()
      modifies this, procs
      ensures Valid() && Snapshot() == ScheduleFromIdle(old(Snapshot()))
    {
      var next := FindFirst(IsReady);
      if next != 0 {
        Load(next);
      }
    }

    method YieldCpu()
      requires Valid()
      modifies this, procs
      ensures Valid() && Snapshot() == SysYield(old(Snapshot()))
    {
      frame := Advance(frame);
      if current == 0 { return; }
      var other := ScanReady(current, procs.Length - 1);
      if other == 0 {
        frame := frame.(a0 := 0);
        return;
      }
      var me := current;
      procs[me] := procs[me].(state := Ready);
      assert procs[..] == old(procs[..])[me := old(procs[me]).(state := Ready)];
      ScheduleAway(me);
      frame := frame.(a0 := 0);
    }

    // ---------- IPC ----------

    method Call()
      requires Valid() && current >= 1
      modifies this, procs
      ensures Valid() && Snapshot() == SysCall(old(Snapshot()))
    {
      frame := Advance(frame);
      var me, target, msg := current, frame.a0, frame.a1;
      if !ValidIpcTarget(target, me, procs.Length) {
        frame := frame.(a0 := MAX_WORD);
        return;
      }
      if procs[target].state.BlockedRecv? && Accepts(procs[target].ipcTarget, me) {
        procs[target] := procs[target].(
          context := procs[target].context.(a0 := msg, a1 := me, a2 := frame.a2, a3 := frame.a3),
          state := Ready);
      }
      ghost var mid := procs[..];
      procs[me] := procs[me].(
        ipcTarget := target, ipcValue := msg, ipcArg2 := frame.a2, ipcArg3 := frame.a3, state := BlockedCall);
      assert procs[..] == mid[me := procs[me]];
      ScheduleAway(me);
    }

    method Reply()
      requires Valid()
      modifies this, procs
      ensures Valid() && Snapshot() == SysReply(old(Snapshot()))
    {
      frame := Advance(frame);
      var target, value := frame.a0, frame.a1;
      if !ValidIpcTarget(target, current, procs.Length) {
        frame := frame.(a0 := MAX_WORD);
        return;
      }
      if procs[target].state.BlockedCall? && procs[target].ipcTarget == current {
        procs[target] := procs[target].(context := procs[target].context.(a0 := value), state := Ready);
        frame := frame.(a0 := 0);
        assert procs[..] == old(procs[..])[target := procs[target]];
        return;
      }
      frame := frame.(a0 := MAX_WORD);
    }

    method Send()
      requires Valid() && current >= 1
      modifies this, procs
      ensures Valid() && Snapshot() == SysSend(old(Snapshot()))
    {
      frame := Advance(frame);
      var me, target, msg := current, frame.a0, frame.a1;
      if !ValidIpcTarget(target, me, procs.Length) {
        frame := frame.(a0 := MAX_WORD);
        return;
      }
      if procs[target].state.BlockedRecv? && Accepts(procs[target].ipcTarget, me) {
        procs[target] := procs[target].(context := procs[target].context.(a0 := msg, a1 := me), state := Ready);
        frame := frame.(a0 := 0);
        assert procs[..] == old(procs[..])[target := procs[target]];
        return;
      }
      procs[me] := procs[me].(ipcTarget := target, ipcValue := msg, state := BlockedSend);
      assert procs[..] == old(procs[..])[me := procs[me]];
      ScheduleAway(me);
    }

    method Receive()
      requires Valid() && current >= 1
      modifies this, procs
      ensures Valid() && Snapshot() == SysReceive(old(Snapshot()))
    {
      frame := Advance(frame);
      var me, from := current, frame.a0;
      if procs[me].irqPending && from == 0 {
        procs[me] := procs[me].(irqPending := false);
        frame := frame.(a0 := procs[me].irqNum, a1 := 0);
        assert procs[..] == old(procs[..])[me := procs[me]];
        return;
      }
      var i := FindFirst(SendsTo(me, from));
      if i != 0 {
        var msg := procs[i].ipcValue;
        if procs[i].state.BlockedSend? {
          procs[i] := procs[i].(state := Ready, context := procs[i].context.(a0 := 0));
          assert procs[..] == old(procs[..])[i := procs[i]];
        }
        frame := frame.(a0 := msg, a1 := i);
        return;
      }
      procs[me] := procs[me].(ipcTarget := from, state := BlockedRecv);
      assert procs[..] == old(procs[..])[me := procs[me]];
      ScheduleAway(me);
    }

    method NotifyIrq(irq: Word, owner: nat)
      requires Valid() && owner < procs.Length
      modifies procs
      ensures Valid() && Snapshot() == IrqNotify(old(Snapshot()), irq, owner)
    {
      if procs[owner].state.BlockedRecv? {
        procs[owner] := procs[owner].(context := procs[owner].context.(a0 := irq, a1 := 0), state := Ready);
      } else {
        procs[owner] := procs[owner].(irqPending := true);
      }
      assert procs[..] == old(procs[..])[owner := procs[owner]];
    }

    // ---------- Exit, kill, wait ----------

    /** The common head of `sys_exit` and `kill_current`. */
    method ReapCurrent(code: Word)
      requires Valid()
      modifies procs, irqOwner
      ensures Valid() && Snapshot() == Reap(old(Snapshot()), code)
    {
      var me := current;
      procs[me] := procs[me].(state := Free, exitCode := code);
      if procs[me].irqNum != 0 {
        if procs[me].irqNum < MAX_IRQS {
          irqOwner[procs[me].irqNum] := 0;
        }
        procs[me] := procs[me].(irqNum := 0);
      }
      procs[me] := procs[me].(netOp := NoNetOp, netSocket := 0, netBufVa := 0, netBufLen := 0);
      assert procs[..] == old(procs[..])[me := procs[me]];
      assert Snapshot() == Retire(old(Snapshot()), code);
      ghost var mid := procs[..];
      var i := FindFirst(WaitsFor(me));
      if i != 0 {
        procs[i] := procs[i].(context := procs[i].context.(a0 := code), state := Ready);
        assert procs[..] == mid[i := procs[i]];
      }
    }

    method Kill(code: Word)
      requires Valid()
      modifies this, procs, irqOwner
      ensures Valid() && Snapshot() == KillCurrent(old(Snapshot()), code)
    {
      if current == 0 {
        panicked := true;
        return;
      }
      ReapCurrent(code);
      var next := FindFirst(IsReady);
      if next == 0 {
        var alive := FindFirst(IsAlive);
        satp := cfg.kernelSatp;
        if alive != 0 {
          Idle();
          return;
        }
        current := 0;
        frame := frame.(sstatus := IDLE_STATUS, sepc := cfg.exitEntry);
        return;
      }
      Load(next);
    }

    method Exit()
      requires Valid()
      modifies this, procs, irqOwner
      ensures Valid() && Snapshot() == SysExit(old(Snapshot()))
    {
      ReapCurrent(frame.a0);
      var next := FindFirst(IsReady);
      if next == 0 {
        var alive := FindFirst(IsAlive);
        satp := cfg.kernelSatp;
        if alive != 0 {
          Idle();
          return;
        }
        frame := frame.(sstatus := frame.sstatus.(spp := true));
        frame := frame.(sstatus := frame.sstatus.(spie := true));
        frame := frame.(sepc := cfg.exitEntry);
        return;
      }
      Load(next);
    }

    method Wait()
      requires Valid() && current >= 1
      modifies this, procs
      ensures Valid() && Snapshot() == SysWait(old(Snapshot()))
    {
      frame := Advance(frame);
      var me, child := current, frame.a0;
      if !ValidIpcTarget(child, me, procs.Length) || procs[child].parent != me {
        frame := frame.(a0 := MAX_WORD);
        return;
      }
      if procs[child].state.Free? {
        frame := frame.(a0 := procs[child].exitCode);
        return;
      }
      procs[me] := procs[me].(ipcTarget := child, state := BlockedWait);
      assert procs[..] == old(procs[..])[me := procs[me]];
      ScheduleAway(me);
    }

    // ---------- Spawn, IRQ registration, network ----------

    method Spawn(image: Option<Image>)
      requires Valid()
      modifies this, procs
      ensures Valid() && Snapshot() == SysSpawn(old(Snapshot()), image)
    {
      frame := Advance(frame);
      if image.None? {
        frame := frame.(a0 := MAX_WORD);
        return;
      }
      var pid := FindFirst(IsFree);
      if pid == 0 {
        frame := frame.(a0 := MAX_WORD);
        return;
      }
      procs[pid] := NewProcess(pid, image.value.satp, InitialContext(image.value), current);
      assert procs[..] == old(procs[..])[pid := procs[pid]];
      frame := frame.(a0 := pid);
    }

    method RegisterIrq()
      requires Valid()
      modifies this, procs, irqOwner
      ensures Valid() && Snapshot() == SysIrqRegister(old(Snapshot()))
    {
      frame := Advance(frame);
      var irq := frame.a0 % 0x1_0000_0000;
      if irq >= MAX_IRQS {
        frame := frame.(a0 := MAX_WORD);
        return;
      }
      if irqOwner[irq] != 0 {
        frame := frame.(a0 := MAX_WORD);
        return;
      }
      irqOwner[irq] := current;
      procs[current] := procs[current].(irqNum := irq);
      assert procs[..] == old(procs[..])[current := procs[current]];
      assert irqOwner[..] == old(irqOwner[..])[irq := current];
      frame := frame.(a0 := 0);
    }

    method NetCall(reply: NetReply)
      requires Valid() && current >= 1
      modifies this, procs
      ensures Valid() && Snapshot() == NetRequest(old(Snapshot()), reply)
    {
      frame := Advance(frame);
      match reply
      case NetDone(v) => frame := frame.(a0 := v);
      case NetPark(op, socket, va, len) =>
        var me := current;
        procs[me]
            := procs[me].(netOp := op, netSocket := socket, netBufVa := va, netBufLen := len, state := BlockedNet);
        assert procs[..] == old(procs[..])[me := procs[me]];
        ScheduleAway(me);
    }

    method WakeNet(wakes: seq<Option<Word>>)
      requires Valid() && |wakes| == procs.Length
      modifies procs
      ensures Valid() && Snapshot() == old(Snapshot()).(procs := WakeBlocked(old(procs[..]), wakes))
    {
      var pid := 1;
      while pid < procs.Length
        invariant 1 <= pid <= procs.Length && Valid()
        invariant forall k :: 0 <= k < pid ==> procs[k] == WakeBlocked(old(procs[..]), wakes)[k]
        invariant forall k :: pid <= k < procs.Length ==> procs[k] == old(procs[k])
      {
        if procs[pid].state.BlockedNet? && !procs[pid].netOp.NoNetOp? && wakes[pid].Some? {
          procs[pid] := procs[pid].(
            context := procs[pid].context.(a0 := wakes[pid].value), netOp := NoNetOp, state := Ready);
        }
        pid := pid + 1;
      }
      assert procs[..] == WakeBlocked(old(procs[..]), wakes);
    }

    // ---------- Traps ----------

    method OnEcall(env: Env)
      requires Valid() && current >= 1
      modifies this, procs, irqOwner
      ensures Valid() && Snapshot() == HandleEcall(old(Snapshot()), env)
    {
      hide SysExit, SysSend, SysReceive, SysCall, SysReply, SysWait, SysYield, SysSpawn, SysIrqRegister, NetRequest;
      var n := frame.a7;
      if n == SYS_EXIT { Exit(); }
      else if n == SYS_SEND { Send(); }
      else if n == SYS_RECEIVE { Receive(); }
      else if n == SYS_CALL {
        if cfg.netEnabled && frame.a0 == NET_SERVER_PID { NetCall(env.net); } else { Call(); }
      }
      else if n == SYS_REPLY { Reply(); }
      else if n == SYS_SPAWN { Spawn(env.image); }
      else if n == SYS_WAIT { Wait(); }
      else if n == SYS_YIELD { YieldCpu(); }
      else if n == SYS_IRQ_REGISTER { RegisterIrq(); }
      else {
        var result :=
          if n == SYS_PUTCHAR then 0
          else if SYS_MAP <= n <= SYS_FREE_PAGES then env.result
          else if n == SYS_GETPID then current
          else if n == SYS_IRQ_ACK && procs[current].irqNum != 0 then 0
          else MAX_WORD;
        frame := Advance(frame).(a0 := result);
      }
    }

    method OnTimer(wakes: seq<Option<Word>>)
      requires Valid() && |wakes| == procs.Length
      modifies this, procs
      ensures Valid() && Snapshot() == HandleTimer(old(Snapshot()), wakes)
    {
      hide Preempt, ScheduleFromIdle, WakeBlocked;
      WakeNet(wakes);
      if !frame.sstatus.spp { PreemptCurrent(); } else { WakeFromIdle(); }
    }

    method OnExternal(irq: Word, wakes: seq<Option<Word>>)
      requires Valid() && |wakes| == procs.Length
      modifies this, procs
      ensures Valid() && Snapshot() == HandleExternal(old(Snapshot()), irq, wakes)
    {
      if irq == 0 { return; }
      var owner := if irq < MAX_IRQS then irqOwner[irq] else 0;
      if owner != 0 {
        NotifyIrq(irq, owner);
        if frame.sstatus.spp { WakeFromIdle(); }
        return;
      }
      WakeNet(wakes);
    }

    /** One trap from entry to return. Started in a state of the joint invariant, as
        `launch` leaves it, the machine stays in it. */
    method Trap(e: Event)
      requires Valid() && Inv(Snapshot()) && Enabled(Snapshot(), e)
      modifies this, procs, irqOwner
      ensures Valid() && Snapshot() == Next(old(Snapshot()), e)
      ensures Inv(Snapshot())
    {
      hide HandleEcall, HandleTimer, HandleExternal, KillCurrent;
      NextKeepsInv(Snapshot(), e);
      frame := e.frame;
      match e
      case Ecall(_, env) => OnEcall(env);
      case Timer(_, wakes) => OnTimer(wakes);
      case External(_, irq, wakes) => OnExternal(irq, wakes);
      case Fault(_, code) => Kill(128 + code);
    }
  }
}
