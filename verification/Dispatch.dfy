/** Trap dispatch: the step relation of the kernel (trap.rs, handlers.rs). */
module Dispatch {
  import opened Words
  import opened ProcessTable
  import opened Scheduler
  import opened Ipc
  import opened Lifecycle

  const SYS_PUTCHAR := 0
  const SYS_EXIT := 1
  const SYS_SEND := 2
  const SYS_RECEIVE := 3
  const SYS_CALL := 4
  const SYS_REPLY := 5
  const SYS_MAP := 6
  const SYS_FREE_PAGES := 9
  const SYS_SPAWN := 10
  const SYS_WAIT := 11
  const SYS_GETPID := 12
  const SYS_YIELD := 13
  const SYS_IRQ_REGISTER := 14
  const SYS_IRQ_ACK := 15
  const SYS_REBOOT := 16

  const NET_SERVER_PID := 3

  /** What the rest of the system contributes to one system call. */
  datatype Env = Env(
    result: Word,             // a0 of a memory system call
    image: Option<Image>,     // outcome of the loader
    net: NetReply)            // outcome of the network stack

  /** A trap, with the registers found on entry. `wakes` are the network events
      that `wake_blocked` finds completed. */
  datatype Event =
    | Ecall(frame: TrapFrame, env: Env)
    | Timer(frame: TrapFrame, wakes: seq<Option<Word>>)
    | External(frame: TrapFrame, irq: Word, wakes: seq<Option<Word>>)
    | Fault(frame: TrapFrame, code: Word)

  /** Advance past the ecall and put `v` in a0. */
  function Answer(s: State, v: Word): State {
    s.(frame := Advance(s.frame).(a0 := v))
  }

  function HandleEcall(s: State, env: Env): State
    requires Shape(s) && s.current >= 1
  {
    var n := s.frame.a7;
    if n == SYS_PUTCHAR then Answer(s, 0)
    else if n == SYS_EXIT then SysExit(s)
    else if n == SYS_SEND then SysSend(s)
    else if n == SYS_RECEIVE then SysReceive(s)
    else if n == SYS_CALL then
      if s.cfg.netEnabled && s.frame.a0 == NET_SERVER_PID then NetRequest(s, env.net) else SysCall(s)
    else if n == SYS_REPLY then SysReply(s)
    else if SYS_MAP <= n <= SYS_FREE_PAGES then Answer(s, env.result)
    else if n == SYS_SPAWN then SysSpawn(s, env.image)
    else if n == SYS_WAIT then SysWait(s)
    else if n == SYS_GETPID then Answer(s, s.current)
    else if n == SYS_YIELD then SysYield(s)
    else if n == SYS_IRQ_REGISTER then SysIrqRegister(s)
    else if n == SYS_IRQ_ACK then Answer(s, if s.procs[s.current].irqNum == 0 then MAX_WORD else 0)
    else Answer(s, MAX_WORD)
  }

  function HandleTimer(s: State, wakes: seq<Option<Word>>): State
    requires Shape(s) && |wakes| == |s.procs|
  {
    var s1 := s.(procs := WakeBlocked(s.procs, wakes));
    if !s1.frame.sstatus.spp then Preempt(s1) else ScheduleFromIdle(s1)
  }

  function HandleExternal(s: State, irq: Word, wakes: seq<Option<Word>>): State
    requires Shape(s) && |wakes| == |s.procs|
  {
    if irq == 0 then s
    else
      var owner := if irq < MAX_IRQS then s.irqOwner[irq] else 0;
      if owner != 0 then
        var s1 := IrqNotify(s, irq, owner);
        if s1.frame.sstatus.spp then ScheduleFromIdle(s1) else s1
      else s.(procs := WakeBlocked(s.procs, wakes))
  }

  /** The traps the hardware can raise in `s`. System calls and faults come from
      U-mode only; SPP on entry says which mode was running; a reboot ends the run. */
  ghost predicate Enabled(s: State, e: Event) {
    && e.frame.sstatus.spp == s.frame.sstatus.spp
    && match e
       case Ecall(f, env) => !f.sstatus.spp && f.a7 != SYS_REBOOT && (env.net.NetPark? ==> !env.net.op.NoNetOp?)
       case Timer(_, wakes) => |wakes| == |s.procs|
       case External(_, irq, wakes) => irq < 0x1_0000_0000 && |wakes| == |s.procs|
       case Fault(f, code) => !f.sstatus.spp && code < 64
  }

  /** The state after trap entry has saved the live registers. */
  function Enter(s: State, e: Event): State {
    s.(frame := e.frame)
  }

  function Next(s: State, e: Event): State
    requires Shape(s) && Enabled(s, e)
    requires !s.frame.sstatus.spp ==> s.current >= 1
  {
    var s1 := Enter(s, e);
    match e
    case Ecall(_, env) => HandleEcall(s1, env)
    case Timer(_, wakes) => HandleTimer(s1, wakes)
    case External(_, irq, wakes) => HandleExternal(s1, irq, wakes)
    case Fault(_, code) => KillCurrent(s1, 128 + code)
  }
}
