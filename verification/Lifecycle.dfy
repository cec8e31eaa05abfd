/** Exit, kill, wait, spawn, IRQ ownership and network blocking
    (lifecycle.rs, syscall.rs, net.rs). */
module Lifecycle {
  import opened Words
  import opened ProcessTable
  import opened Scheduler
  import opened Ipc

  /** What the dying process leaves behind: a Free slot with its exit code, its
      IRQ released, no pending network operation. */
  function Retire(s: State, code: Word): State
    requires Shape(s)
  {
    var me := s.procs[s.current];
    s.(procs := s.procs[s.current := me.(
           state := Free, exitCode := code, irqNum := 0,
           netOp := NoNetOp, netSocket := 0, netBufVa := 0, netBufLen := 0)],
       irqOwner := if 0 < me.irqNum < MAX_IRQS then s.irqOwner[me.irqNum := 0] else s.irqOwner)
  }

  /** Hand the exit code to the parent that waits for `child`, if there is one. */
  function WakeParent(procs: seq<Process>, child: nat, code: Word): (r: seq<Process>)
    requires |procs| >= 1
    ensures |r| == |procs|
  {
    var i := First(procs, WaitsFor(child), 1);
    if i == 0 then procs
    else procs[i := procs[i].(context := procs[i].context.(a0 := code), state := Ready)]
  }

  function Reap(s: State, code: Word): (r: State)
    requires Shape(s)
    ensures |r.procs| == |s.procs|
  {
    var s1 := Retire(s, code);
    s1.(procs := WakeParent(s1.procs, s.current, code))
  }

  function KillCurrent(s: State, code: Word): State
    requires Shape(s)
  {
    if s.current == 0 then s.(panicked := true)
    else
      var s1 := Reap(s, code);
      var next := First(s1.procs, IsReady, 1);
      if next != 0 then SwitchTo(s1, next)
      else if First(s1.procs, IsAlive, 1) != 0 then EnterIdle(s1)
      else s1.(current := 0, satp := s.cfg.kernelSatp,
               frame := s1.frame.(sstatus := IDLE_STATUS, sepc := s.cfg.exitEntry))
  }

  /** When the last process ends, CURRENT_PID keeps its PID. */
  function SysExit(s: State): State
    requires Shape(s)
  {
    var s1 := Reap(s, s.frame.a0);
    var next := First(s1.procs, IsReady, 1);
    if next != 0 then SwitchTo(s1, next)
    else if First(s1.procs, IsAlive, 1) != 0 then EnterIdle(s1)
    else s1.(satp := s.cfg.kernelSatp,
             frame := s1.frame.(sstatus := s1.frame.sstatus.(spp := true, spie := true), sepc := s.cfg.exitEntry))
  }

  function SysWait(s: State): State
    requires Shape(s) && s.current >= 1
  {
    var s0 := s.(frame := Advance(s.frame));
    var child := s0.frame.a0;
    if !ValidIpcTarget(child, s.current, |s.procs|) then Fail(s0)
    else if s0.procs[child].parent != s.current then Fail(s0)
    else if s0.procs[child].state.Free? then s0.(frame := s0.frame.(a0 := s0.procs[child].exitCode))
    else
      Schedule(s0.(procs := s0.procs[s.current := s0.procs[s.current].(ipcTarget := child, state := BlockedWait)]),
               s.current)
  }

  const USER_STACK_TOP: Word := 0x7FFF_0000 + 4096

  /** A program image that the loader has built: its page table and entry point. */
  datatype Image = Image(satp: Word, entry: Word)

  function InitialContext(image: Image): TrapFrame {
    ZeroFrame().(sepc := image.entry, sp := USER_STACK_TOP, sstatus := USER_STATUS)
  }

  /** `image` is None when the size check or the ELF parser rejects the request. */
  function SysSpawn(s: State, image: Option<Image>): State
    requires Shape(s)
  {
    var s0 := s.(frame := Advance(s.frame));
    if image.None? then Fail(s0)
    else
      var pid := First(s0.procs, IsFree, 1);
      if pid == 0 then Fail(s0)
      else
        s0.(procs := s0.procs[pid := NewProcess(pid, image.value.satp, InitialContext(image.value), s.current)],
            frame := s0.frame.(a0 := pid))
  }

  function SysIrqRegister(s: State): State
    requires Shape(s)
  {
    var s0 := s.(frame := Advance(s.frame));
    var irq := s0.frame.a0 % 0x1_0000_0000;
    if irq >= MAX_IRQS || s.irqOwner[irq] != 0 then Fail(s0)
    else
      s0.(irqOwner := s0.irqOwner[irq := s.current],
          procs := s0.procs[s.current := s0.procs[s.current].(irqNum := irq)],
          frame := s0.frame.(a0 := 0))
  }

  /** What the network stack answers: a value at once, or park the caller. */
  datatype NetReply = NetDone(value: Word) | NetPark(op: NetOp, socket: Word, bufVa: Word, bufLen: Word)

  function NetRequest(s: State, reply: NetReply): State
    requires Shape(s) && s.current >= 1
  {
    var s0 := s.(frame := Advance(s.frame));
    match reply
    case NetDone(v) => s0.(frame := s0.frame.(a0 := v))
    case NetPark(op, socket, va, len) =>
      Schedule(s0.(procs := s0.procs[s.current := s0.procs[s.current].(
                     netOp := op, netSocket := socket, netBufVa := va, netBufLen := len, state := BlockedNet)]),
               s.current)
  }

  /** A parked process whose network event has arrived becomes Ready with the result in a0. */
  function WakeOne(p: Process, outcome: Option<Word>): Process {
    if p.state.BlockedNet? && !p.netOp.NoNetOp? && outcome.Some? then
      p.(context := p.context.(a0 := outcome.value), netOp := NoNetOp, state := Ready)
    else p
  }

  /** The sweep over PIDs `i`, i + 1, ...; PID 0 is never looked at. */
  function WakeBlocked(procs: seq<Process>, outcomes: seq<Option<Word>>): (r: seq<Process>)
    requires |outcomes| == |procs|
    ensures |r| == |procs|
  {
    seq(|procs|, i requires 0 <= i < |procs| => if i == 0 then procs[i] else WakeOne(procs[i], outcomes[i]))
  }
}
