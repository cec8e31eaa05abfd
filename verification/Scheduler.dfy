/** Process selection and context switching (sched.rs). */
module Scheduler {
  import opened ProcessTable

  /** The PID that the round-robin scan from `c` looks at in its `offset`-th probe. */
  function ProbePid(c: nat, offset: nat, n: nat): (pid: nat)
    requires n >= 3 && 1 <= c < n
    ensures 1 <= pid < n
  {
    (c - 1 + offset) % (n - 1) + 1
  }

  /** How many probes the scan from `c` needs to reach `q`: between 1 and n - 1. */
  function Distance(c: nat, q: nat, n: nat): (d: nat)
    requires 1 <= c < n && 1 <= q < n
    ensures 1 <= d < n
  {
    if q > c then q - c else q + (n - 1) - c
  }

  /** The first Ready process among probes `offset`, ..., `limit` - 1, or 0. */
  function Scan(procs: seq<Process>, c: nat, offset: nat, limit: nat): (r: nat)
    requires |procs| >= 3 && 1 <= c < |procs|
    ensures r == 0 || (1 <= r < |procs| && procs[r].state.Ready?)
    decreases limit - offset
  {
    if offset >= limit then 0
    else
      var i := ProbePid(c, offset, |procs|);
      if procs[i].state.Ready? then i else Scan(procs, c, offset + 1, limit)
  }

  lemma ModOnce(x: nat, m: nat)
    requires m > 0 && x < 2 * m
    ensures x % m == if x < m then x else x - m
  {
    if x >= m {
      assert x == m + (x - m);
      assert x / m == 1;
    }
  }

  lemma ProbeClosedForm(c: nat, offset: nat, n: nat)
    requires n >= 3 && 1 <= c < n && offset < n
    ensures ProbePid(c, offset, n) == if c + offset < n then c + offset else c + offset - (n - 1)
  {
    ModOnce(c - 1 + offset, n - 1);
  }

  /** The scan visits every PID exactly once: probe number and PID determine each other. */
  lemma ProbeVisitsEachOnce(c: nat, q: nat, offset: nat, n: nat)
    requires n >= 3 && 1 <= c < n && 1 <= q < n && 1 <= offset < n
    ensures ProbePid(c, offset, n) == q <==> offset == Distance(c, q, n)
  {
    ProbeClosedForm(c, offset, n);
  }

  /** The scan picks the Ready process nearest in cyclic order, and misses none in reach. */
  lemma {:induction false} ScanPicksNearest(procs: seq<Process>, c: nat, offset: nat, limit: nat)
    requires |procs| >= 3 && 1 <= c < |procs| && 1 <= offset && limit <= |procs|
    ensures var r := Scan(procs, c, offset, limit);
            && (r == 0
                <==> forall q | 1 <= q < |procs| && offset <= Distance(c, q, |procs|) < limit :: !procs[q].state.Ready?)
            && (r != 0 ==> offset <= Distance(c, r, |procs|) < limit)
            && (r != 0 ==>
                forall q | 1 <= q < |procs| && offset <= Distance(c, q, |procs|) < limit && procs[q].state.Ready? ::
                  Distance(c, r, |procs|) <= Distance(c, q, |procs|))
    decreases limit - offset
  {
    if offset < limit {
      var i := ProbePid(c, offset, |procs|);
      forall q | 1 <= q < |procs| ensures ProbePid(c, offset, |procs|) == q <==> offset == Distance(c, q, |procs|) {
        ProbeVisitsEachOnce(c, q, offset, |procs|);
      }
      assert Distance(c, i, |procs|) == offset;
      ScanPicksNearest(procs, c, offset + 1, limit);
    }
  }

  /** Load `next` onto the CPU: its context, its page table, CURRENT_PID. */
  function SwitchTo(s: State, next: nat): State
    requires next < |s.procs|
  {
    s.(procs := s.procs[next := s.procs[next].(state := Running)],
       current := next,
       frame := s.procs[next].context,
       satp := s.procs[next].satp)
  }

  /** Return into the kernel idle loop. */
  function EnterIdle(s: State): State {
    s.(current := 0,
       satp := s.cfg.kernelSatp,
       frame := s.frame.(sstatus := IDLE_STATUS, sepc := s.cfg.idleEntry))
  }

  function Save(s: State, pid: nat): State
    requires pid < |s.procs|
  {
    s.(procs := s.procs[pid := s.procs[pid].(context := s.frame)])
  }

  function Schedule(s: State, blocked: nat): State
    requires |s.procs| >= 3 && 1 <= blocked < |s.procs|
  {
    var s1 := Save(s, blocked);
    var next := Scan(s1.procs, blocked, 1, |s1.procs|);
    if next != 0 then SwitchTo(s1, next)
    else if First(s1.procs, IsAlive, 1) == 0 then s1.(panicked := true)
    else EnterIdle(s1)
  }

  function Preempt(s: State): State
    requires |s.procs| >= 3 && s.current < |s.procs|
  {
    if s.current == 0 then s
    else
      var next := Scan(s.procs, s.current, 1, |s.procs| - 1);
      if next == 0 then s
      else
        var s1 := Save(s, s.current);
        SwitchTo(s1.(procs := s1.procs[s.current := s1.procs[s.current].(state := Ready)]), next)
  }

  function ScheduleFromIdle(s: State): State
    requires |s.procs| >= 1
  {
    var next := First(s.procs, IsReady, 1);
    if next == 0 then s else SwitchTo(s, next)
  }

  /** The final `a0 := 0` lands on whichever frame `Schedule` has just loaded. */
  function SysYield(s: State): State
    requires |s.procs| >= 3 && s.current < |s.procs|
  {
    var s0 := s.(frame := Advance(s.frame));
    if s.current == 0 then s0
    else if Scan(s.procs, s.current, 1, |s.procs| - 1) == 0 then
      s0.(frame := s0.frame.(a0 := 0))
    else
      var s1 := s0.(procs := s0.procs[s.current := s0.procs[s.current].(state := Ready)]);
      var s2 := Schedule(s1, s.current);
      s2.(frame := s2.frame.(a0 := 0))
  }
}
