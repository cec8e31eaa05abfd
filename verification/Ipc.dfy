/** Rendezvous IPC: send, receive, call, reply and IRQ notification (ipc.rs). */
module Ipc {
  import opened ProcessTable
  import opened Scheduler

  predicate WouldRendezvous(s: State, target: nat)
    requires target < |s.procs|
  {
    s.procs[target].state.BlockedRecv? && Accepts(s.procs[target].ipcTarget, s.current)
  }

  function Fail(s: State): State {
    s.(frame := s.frame.(a0 := MAX_WORD))
  }

  function SysCall(s: State): State
    requires Shape(s) && s.current >= 1
  {
    var s0 := s.(frame := Advance(s.frame));
    var f, t := s0.frame, s0.frame.a0;
    if !ValidIpcTarget(t, s.current, |s.procs|) then Fail(s0)
    else
      var s1 := if WouldRendezvous(s0, t) then
                  var p := s0.procs[t];
                  s0.(procs := s0.procs[t := p.(
                      context := p.context.(a0 := f.a1, a1 := s.current, a2 := f.a2, a3 := f.a3),
                      state := Ready)])
                else s0;
      var s2 := s1.(procs := s1.procs[s.current := s1.procs[s.current].(
                      ipcTarget := t, ipcValue := f.a1, ipcArg2 := f.a2, ipcArg3 := f.a3,
                      state := BlockedCall)]);
      Schedule(s2, s.current)
  }

  function SysReply(s: State): State
    requires Shape(s)
  {
    var s0 := s.(frame := Advance(s.frame));
    var t := s0.frame.a0;
    if !ValidIpcTarget(t, s.current, |s.procs|) then Fail(s0)
    else
      var p := s0.procs[t];
      if p.state.BlockedCall? && p.ipcTarget == s.current then
        s0.(procs := s0.procs[t := p.(context := p.context.(a0 := s0.frame.a1), state := Ready)],
            frame := s0.frame.(a0 := 0))
      else Fail(s0)
  }

  function SysSend(s: State): State
    requires Shape(s) && s.current >= 1
  {
    var s0 := s.(frame := Advance(s.frame));
    var f, t := s0.frame, s0.frame.a0;
    if !ValidIpcTarget(t, s.current, |s.procs|) then Fail(s0)
    else if WouldRendezvous(s0, t) then
      var p := s0.procs[t];
      s0.(procs := s0.procs[t := p.(context := p.context.(a0 := f.a1, a1 := s.current), state := Ready)],
          frame := f.(a0 := 0))
    else
      var s1 := s0.(procs := s0.procs[s.current := s0.procs[s.current].(
                      ipcTarget := t, ipcValue := f.a1, state := BlockedSend)]);
      Schedule(s1, s.current)
  }

  function SysReceive(s: State): State
    requires Shape(s) && s.current >= 1
  {
    var s0 := s.(frame := Advance(s.frame));
    var from := s0.frame.a0;
    var me := s0.procs[s.current];
    if me.irqPending && from == 0 then
      s0.(procs := s0.procs[s.current := me.(irqPending := false)],
          frame := s0.frame.(a0 := me.irqNum, a1 := 0))
    else
      var i := First(s0.procs, SendsTo(s.current, from), 1);
      if i != 0 then
        var p := s0.procs[i];
        s0.(procs := if p.state.BlockedSend?
                     then s0.procs[i := p.(state := Ready, context := p.context.(a0 := 0))]
                     else s0.procs,
            frame := s0.frame.(a0 := p.ipcValue, a1 := i))
      else
        Schedule(s0.(procs := s0.procs[s.current := me.(ipcTarget := from, state := BlockedRecv)]), s.current)
  }

  function IrqNotify(s: State, irq: Word, owner: nat): State
    requires owner < |s.procs|
  {
    var p := s.procs[owner];
    s.(procs := s.procs[owner :=
         if p.state.BlockedRecv?
         then p.(context := p.context.(a0 := irq, a1 := 0), state := Ready)
         else p.(irqPending := true)])
  }
}
