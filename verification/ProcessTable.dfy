/** The process table: trap frames, process control blocks and the kernel's
    global scheduling state (trap.rs, process.rs, security.rs). */
module ProcessTable {
  import opened Words

  const WORD_LIMIT := U64_LIMIT

  /** A 64-bit `usize`. */
  type Word = U64

  const MAX_WORD: Word := 0xFFFF_FFFF_FFFF_FFFF

  const MAX_IRQS := 64

  /** The bits of `sstatus` that the handlers look at, and the rest of it. */
  datatype Sstatus = Sstatus(spp: bool, spie: bool, other: Word)

  /** SPP = U, SPIE = 1: the status every new process starts with. */
  const USER_STATUS := Sstatus(false, true, 0)

  /** SPP = S, SPIE = 1: the status of a return into the kernel's idle code. */
  const IDLE_STATUS := Sstatus(true, true, 0)

  const OTHER_REGISTERS := 25

  /** The saved registers. `others` holds the general registers that no handler names. */
  datatype TrapFrame = TrapFrame(
    a0: Word, a1: Word, a2: Word, a3: Word, a7: Word,
    sp: Word, sepc: Word, sstatus: Sstatus, others: seq<Word>)

  function ZeroFrame(): TrapFrame {
    TrapFrame(0, 0, 0, 0, 0, 0, 0, Sstatus(false, false, 0), seq(OTHER_REGISTERS, _ => 0))
  }

  /** `sepc += 4`, wrapping as release builds do. */
  function Advance(f: TrapFrame): TrapFrame {
    f.(sepc := (f.sepc + 4) % WORD_LIMIT)
  }

  datatype Status =
    | Free | Ready | Running
    | BlockedSend | BlockedRecv | BlockedCall | BlockedWait | BlockedNet

  datatype NetOp = NoNetOp | NetRecv | NetConnect

  datatype Process = Process(
    pid: nat,
    state: Status,
    satp: Word,
    context: TrapFrame,
    ipcTarget: Word,
    ipcValue: Word,
    ipcArg2: Word,
    ipcArg3: Word,
    parent: nat,
    exitCode: Word,
    irqNum: Word,
    irqPending: bool,
    netOp: NetOp,
    netSocket: Word,
    netBufVa: Word,
    netBufLen: Word)

  /** The control block that every creation path installs. */
  function NewProcess(pid: nat, satp: Word, context: TrapFrame, parent: nat): Process {
    Process(pid, Ready, satp, context, 0, 0, 0, 0, parent, 0, 0, false, NoNetOp, 0, 0, 0)
  }

  /** Addresses and features fixed at boot. */
  datatype Config = Config(kernelSatp: Word, idleEntry: Word, exitEntry: Word, netEnabled: bool)

  /** PROCS, CURRENT_PID, the live trap frame, the satp register and IRQ_OWNER.
      `panicked` records that a handler reached a `panic!`. */
  datatype State = State(
    procs: seq<Process>,
    current: nat,
    frame: TrapFrame,
    satp: Word,
    irqOwner: seq<nat>,
    cfg: Config,
    panicked: bool)

  /** Table sizes; MAX_PROCS stays symbolic. */
  ghost predicate Shape(s: State) {
    && 3 <= |s.procs| < WORD_LIMIT
    && s.current < |s.procs|
    && |s.irqOwner| == MAX_IRQS
    && forall k :: 0 <= k < MAX_IRQS ==> s.irqOwner[k] < |s.procs|
  }

  predicate IsSender(p: Process) {
    p.state.BlockedSend? || p.state.BlockedCall?
  }

  /** A receiver's `ipc_target` of 0 means that it takes a message from anyone. */
  predicate Accepts(from: Word, sender: nat) {
    from == 0 || from == sender
  }

  predicate ValidIpcTarget(target: Word, current: nat, n: nat) {
    0 < target < n && target != current
  }

  /** The conditions the handlers scan the table for. */
  datatype Query =
    | IsReady
    | IsFree
    | IsAlive
    | WaitsFor(child: nat)
    | SendsTo(receiver: nat, from: Word)

  predicate Matches(q: Query, i: nat, p: Process) {
    match q
    case IsReady => p.state.Ready?
    case IsFree => p.state.Free?
    case IsAlive => !p.state.Free?
    case WaitsFor(child) => p.state.BlockedWait? && p.ipcTarget == child
    case SendsTo(receiver, from) => IsSender(p) && p.ipcTarget == receiver && Accepts(from, i)
  }

  /** The lowest PID at or above `i` that matches, or 0. */
  function First(procs: seq<Process>, q: Query, i: nat): (r: nat)
    requires 1 <= i <= |procs|
    ensures r == 0 <==> forall k :: i <= k < |procs| ==> !Matches(q, k, procs[k])
    ensures r != 0 ==> i <= r < |procs| && Matches(q, r, procs[r])
    ensures r != 0 ==> forall k :: i <= k < r ==> !Matches(q, k, procs[k])
    decreases |procs| - i
  {
    if i == |procs| then 0
    else if Matches(q, i, procs[i]) then i
    else First(procs, q, i + 1)
  }
}
