/** Processes, CPUs and locks of kernel/proc.c and kernel/sleeplock.c as interleaved steps.  One step
    takes one CPU over one lock operation, memory update or context switch. */
module ProcMachine {
  /** initproc is the first slot of the process table. */
  const INIT: nat := 0

  datatype Option<T> = None | Some(value: T)

  datatype PState = UNUSED | USED | SLEEPING | RUNNABLE | RUNNING | ZOMBIE

  /** Spinlocks: that of process p, wait_lock, and the one inside sleep lock l. */
  datatype Lock = P(p: nat) | W | S(l: nat)

  datatype Chan = NoChan | OnLock(l: nat) | OnProc(p: int)

  /** Where a thread may be when an interrupt makes it yield: the points at which it holds no spinlock. */
  datatype Point =
    | InKernel
    | InRelock(lk: Lock)
    | InFork(i: nat)
    | InForkPar(i: nat)
    | InForkRun(i: nat)
    | InKill(i: nat, target: nat)

  /** Where a thread goes on when the scheduler switches to it. */
  datatype Cont = AfterYield(at: Point) | AfterSleep(lk: Lock) | Never

  /** Where wakeup returns to: releasesleep, reparent's loop at k, or exit. */
  datatype Then = ThenRel(l: nat) | ThenReparent(k: nat) | ThenExit

  /** Program points of a kernel thread; "Got" points hold the lock just acquired. */
  datatype Pc =
    | Off(k: Cont)                              // not on a CPU
    | Resumed(k: Cont)                          // back from swtch, p->lock held
    | Kernel                                    // no spinlock held
    | YieldGot(at: Point)
    | Sched(k: Cont)                            // p->lock held, about to swtch
    | SleepCall(lk: Lock) | SleepGot(lk: Lock) | SleepRel(lk: Lock) | Relock(lk: Lock)
    | AcqCheck(l: nat) | RelGot(l: nat) | RelEnd(l: nat)
    | Wake(ch: Chan, i: nat, back: Then) | WakeGot(ch: Chan, i: nat, back: Then)
    | WaitScan(i: nat, kids: bool) | WaitGot(i: nat, kids: bool) | WaitEnd
    | Reparent(i: nat) | ExitLock | ExitGot
    | Fork(i: nat) | ForkGot(i: nat) | ForkMade(i: nat) | ForkPar(i: nat) | ForkParGot(i: nat) | ForkRun(i: nat)
    | ForkRunGot(i: nat)
    | Kill(i: nat, target: nat) | KillGot(i: nat, target: nat)

  /** Program points of a CPU's scheduler; it is inside process p's thread at In(p). */
  datatype At = Scan(p: nat) | Got(p: nat) | Pick(p: nat) | In(p: nat) | Back(p: nat)

  /** The process table as one sequence per field, the CPUs, who holds which spinlock, and the sleep
      locks.  home[p] is the CPU that has c->proc == p, or -1; reaped collects the pids wait returned. */
  datatype State = State(
    pc: seq<Pc>, st: seq<PState>, chan: seq<Chan>, killed: seq<bool>, pid: seq<nat>, parent: seq<int>,
    home: seq<int>, at: seq<At>, held: map<Lock, nat>, locked: seq<bool>, nextpid: nat, reaped: set<nat>)

  ghost predicate Shape(s: State) {
    && |s.pc| == |s.st| == |s.chan| == |s.killed| == |s.pid| == |s.parent| == |s.home|
    && INIT < |s.pc| && |s.at| > 0
  }

  /** What a step does to the spinlocks. */
  datatype Change = Same | Gain(x: Lock) | Lose(x: Lock)

  function After(held: map<Lock, nat>, c: nat, g: Change): map<Lock, nat> {
    match g
    case Same => held
    case Gain(x) => held[x := c]
    case Lose(x) => held - {x}
  }

  /** What a step of thread p does to the process table and the sleep locks. */
  datatype Update =
    | Keep
    | SetState(i: nat, st: PState)
    | SetChan(ch: Chan)
    | Doze(ch: Chan)                            // p->chan = ch; p->state = SLEEPING
    | SetLocked(l: nat, b: bool)
    | SetParent(i: nat, q: nat)
    | Claim(i: nat)                             // allocproc found slot i
    | Free(i: nat)                              // freeproc
    | Reap(i: nat)                              // freeproc of a child in wait
    | MarkKilled(i: nat, wake: bool)

  /** The step: the next point, the lock taken or given back, and the update. */
  datatype Move = Move(next: Pc, g: Change, up: Update)

  /** What a thread does where the source leaves it open. */
  datatype Choice =
    | Go | Fail | DoYield | DoAcquire(l: nat) | DoRelease(l: nat) | DoWait | DoExit | DoFork | DoKill(target: nat)

  function ChanOf(p: nat, lk: Lock): Chan {
    match lk
    case S(l) => OnLock(l)
    case _ => OnProc(p)
  }

  /** Where sleep's caller goes on. */
  function Recheck(lk: Lock): Pc {
    match lk
    case S(l) => AcqCheck(l)
    case _ => WaitScan(0, false)
  }

  function Return(t: Then): Pc {
    match t
    case ThenRel(l) => RelEnd(l)
    case ThenReparent(k) => Reparent(k + 1)
    case ThenExit => ExitLock
  }

  /** The lock-free points; a timer interrupt at one of them calls yield, which comes back to it. */
  function Here(pc: Pc): Option<Point> {
    match pc
    case Kernel => Some(InKernel)
    case Relock(lk) => Some(InRelock(lk))
    case Fork(i) => Some(InFork(i))
    case ForkPar(i) => Some(InForkPar(i))
    case ForkRun(i) => Some(InForkRun(i))
    case Kill(i, t) => Some(InKill(i, t))
    case _ => None
  }

  function Resume(at: Point): Pc {
    match at
    case InKernel => Kernel
    case InRelock(lk) => Relock(lk)
    case InFork(i) => Fork(i)
    case InForkPar(i) => ForkPar(i)
    case InForkRun(i) => ForkRun(i)
    case InKill(i, t) => Kill(i, t)
  }

  /** An interrupt may come wherever interrupts are on, that is, where the thread holds no spinlock. */
  function YieldMove(p: nat, pc: Pc): Option<Move> {
    if Here(pc).Some? then Some(Move(YieldGot(Here(pc).value), Gain(P(p)), Keep)) else None
  }

  /** A thread outside any of these functions calls one of them. */
  function Enter(s: State, p: nat, ch: Choice): Option<Move> {
    match ch
    case DoAcquire(l) => if l < |s.locked| then Some(Move(AcqCheck(l), Gain(S(l)), Keep)) else None
    case DoRelease(l) => if l < |s.locked| then Some(Move(RelGot(l), Gain(S(l)), Keep)) else None
    case DoWait => Some(Move(WaitScan(0, false), Gain(W), Keep))
    case DoExit => if p == INIT then None else Some(Move(Reparent(0), Gain(W), Keep))
    case DoFork => Some(Move(Fork(0), Same, Keep))
    case DoKill(t) => Some(Move(Kill(0, t), Same, Keep))
    case _ => None
  }

  /** yield, sleep and the return from sched */
  function SleepMove(p: nat, pc: Pc): Option<Move> {
    match pc
    case YieldGot(at) => Some(Move(Sched(AfterYield(at)), Same, SetState(p, RUNNABLE)))
    case SleepCall(lk) => Some(Move(SleepGot(lk), Gain(P(p)), Keep))
    case SleepGot(lk) => Some(Move(SleepRel(lk), Lose(lk), Keep))
    case SleepRel(lk) => Some(Move(Sched(AfterSleep(lk)), Same, Doze(ChanOf(p, lk))))
    case Resumed(AfterSleep(lk)) => Some(Move(Relock(lk), Lose(P(p)), SetChan(NoChan)))
    case Resumed(AfterYield(at)) => Some(Move(Resume(at), Lose(P(p)), Keep))
    case Relock(lk) => Some(Move(Recheck(lk), Gain(lk), Keep))
    case _ => None
  }

  /** acquiresleep and releasesleep */
  function SleepLockMove(s: State, pc: Pc): Option<Move> {
    match pc
    case AcqCheck(l) =>
      if l >= |s.locked| then None
      else if s.locked[l] then Some(Move(SleepCall(S(l)), Same, Keep))
      else Some(Move(Kernel, Lose(S(l)), SetLocked(l, true)))
    case RelGot(l) => Some(Move(Wake(OnLock(l), 0, ThenRel(l)), Same, SetLocked(l, false)))
    case RelEnd(l) => Some(Move(Kernel, Lose(S(l)), Keep))
    case _ => None
  }

  /** wakeup */
  function WakeMove(s: State, p: nat, pc: Pc): Option<Move>
    requires Shape(s)
  {
    match pc
    case Wake(ch, i, b) =>
      if i >= |s.pc| then Some(Move(Return(b), Same, Keep))
      else if i == p then Some(Move(Wake(ch, i + 1, b), Same, Keep))
      else Some(Move(WakeGot(ch, i, b), Gain(P(i)), Keep))
    case WakeGot(ch, i, b) =>
      if i >= |s.pc| then None
      else
        var up := if s.st[i] == SLEEPING && s.chan[i] == ch then SetState(i, RUNNABLE) else Keep;
        Some(Move(Wake(ch, i + 1, b), Lose(P(i)), up))
    case _ => None
  }

  /** wait */
  function WaitMove(s: State, p: nat, pc: Pc, ch: Choice): Option<Move>
    requires Shape(s) && p < |s.pc|
  {
    match pc
    case WaitScan(i, kids) =>
      if i >= |s.pc| then
        if !kids || s.killed[p] then Some(Move(Kernel, Lose(W), Keep)) else Some(Move(SleepCall(W), Same, Keep))
      else if s.parent[i] == p then Some(Move(WaitGot(i, kids), Gain(P(i)), Keep))
      else Some(Move(WaitScan(i + 1, kids), Same, Keep))
    case WaitGot(i, kids) =>
      if i >= |s.pc| then None
      else if s.st[i] != ZOMBIE then Some(Move(WaitScan(i + 1, true), Lose(P(i)), Keep))
      else if ch == Fail then Some(Move(WaitEnd, Lose(P(i)), Keep))  // copyout failed
      else Some(Move(WaitEnd, Lose(P(i)), Reap(i)))
    case WaitEnd => Some(Move(Kernel, Lose(W), Keep))
    case _ => None
  }

  /** exit and reparent */
  function ExitMove(s: State, p: nat, pc: Pc): Option<Move>
    requires Shape(s) && p < |s.pc|
  {
    match pc
    case Reparent(i) =>
      if i >= |s.pc| then Some(Move(Wake(OnProc(s.parent[p]), 0, ThenExit), Same, Keep))
      else if s.parent[i] == p then Some(Move(Wake(OnProc(INIT), 0, ThenReparent(i)), Same, SetParent(i, INIT)))
      else Some(Move(Reparent(i + 1), Same, Keep))
    case ExitLock => Some(Move(ExitGot, Gain(P(p)), Keep))
    case ExitGot => Some(Move(Sched(Never), Lose(W), SetState(p, ZOMBIE)))
    case _ => None
  }

  /** allocproc and fork */
  function ForkMove(s: State, p: nat, pc: Pc, ch: Choice): Option<Move>
    requires Shape(s)
  {
    match pc
    case Fork(i) => if i >= |s.pc| then Some(Move(Kernel, Same, Keep)) else Some(Move(ForkGot(i), Gain(P(i)), Keep))
    case ForkGot(i) =>
      if i >= |s.pc| then None
      else if s.st[i] != UNUSED then Some(Move(Fork(i + 1), Lose(P(i)), Keep))
      else Some(Move(ForkMade(i), Same, Claim(i)))
    case ForkMade(i) =>
      if ch == Fail then Some(Move(Kernel, Lose(P(i)), Free(i))) else Some(Move(ForkPar(i), Lose(P(i)), Keep))
    case ForkPar(i) => Some(Move(ForkParGot(i), Gain(W), Keep))
    case ForkParGot(i) => Some(Move(ForkRun(i), Lose(W), SetParent(i, p)))
    case ForkRun(i) => Some(Move(ForkRunGot(i), Gain(P(i)), Keep))
    case ForkRunGot(i) => Some(Move(Kernel, Lose(P(i)), SetState(i, RUNNABLE)))
    case _ => None
  }

  /** kill */
  function KillMove(s: State, pc: Pc): Option<Move>
    requires Shape(s)
  {
    match pc
    case Kill(i, t) =>
      if i >= |s.pc| then Some(Move(Kernel, Same, Keep))
      else Some(Move(KillGot(i, t), Gain(P(i)), Keep))
    case KillGot(i, t) =>
      if i >= |s.pc| then None
      else if s.pid[i] != t then Some(Move(Kill(i + 1, t), Lose(P(i)), Keep))
      else Some(Move(Kernel, Lose(P(i)), MarkKilled(i, s.st[i] == SLEEPING)))
    case _ => None
  }

  /** The step of thread p at its program point; sched's swtch is a step of its own. */
  function ThreadMove(s: State, p: nat, ch: Choice): Option<Move>
    requires Shape(s) && p < |s.pc|
  {
    var pc := s.pc[p];
    if ch == DoYield then YieldMove(p, pc) else
    match pc
    case Kernel => Enter(s, p, ch)
    case YieldGot(_) | SleepCall(_) | SleepGot(_) | SleepRel(_) | Resumed(_) | Relock(_) => SleepMove(p, pc)
    case AcqCheck(_) | RelGot(_) | RelEnd(_) => SleepLockMove(s, pc)
    case Wake(_, _, _) | WakeGot(_, _, _) => WakeMove(s, p, pc)
    case WaitScan(_, _) | WaitGot(_, _) | WaitEnd => WaitMove(s, p, pc, ch)
    case Reparent(_) | ExitLock | ExitGot => ExitMove(s, p, pc)
    case Fork(_) | ForkGot(_) | ForkMade(_) | ForkPar(_) | ForkParGot(_) | ForkRun(_) | ForkRunGot(_) =>
      ForkMove(s, p, pc, ch)
    case Kill(_, _) | KillGot(_, _) => KillMove(s, pc)
    case Off(_) | Sched(_) => None
  }

  /** The slot an update is about. */
  predicate InTable(s: State, up: Update) {
    match up
    case SetState(i, _) => i < |s.pc|
    case SetParent(i, _) => i < |s.pc|
    case Claim(i) => i < |s.pc|
    case Free(i) => i < |s.pc|
    case Reap(i) => i < |s.pc|
    case MarkKilled(i, _) => i < |s.pc|
    case SetLocked(l, _) => l < |s.locked|
    case _ => true
  }

  /** The state fields after an update by thread p. */
  function NewSt(st: seq<PState>, p: nat, up: Update): seq<PState> {
    match up
    case SetState(i, x) => if i < |st| then st[i := x] else st
    case Doze(_) => if p < |st| then st[p := SLEEPING] else st
    case Claim(i) => if i < |st| then st[i := USED] else st
    case Free(i) => if i < |st| then st[i := UNUSED] else st
    case Reap(i) => if i < |st| then st[i := UNUSED] else st
    case MarkKilled(i, wake) => if wake && i < |st| then st[i := RUNNABLE] else st
    case _ => st
  }

  function NewChan(chan: seq<Chan>, p: nat, up: Update): seq<Chan> {
    match up
    case SetChan(ch) => if p < |chan| then chan[p := ch] else chan
    case Doze(ch) => if p < |chan| then chan[p := ch] else chan
    case Free(i) => if i < |chan| then chan[i := NoChan] else chan
    case Reap(i) => if i < |chan| then chan[i := NoChan] else chan
    case _ => chan
  }

  function NewParent(parent: seq<int>, up: Update): seq<int> {
    match up
    case SetParent(i, q) => if i < |parent| then parent[i := q] else parent
    case Free(i) => if i < |parent| then parent[i := -1] else parent
    case Reap(i) => if i < |parent| then parent[i := -1] else parent
    case _ => parent
  }

  function NewPid(pid: seq<nat>, nextpid: nat, up: Update): seq<nat> {
    match up
    case Claim(i) => if i < |pid| then pid[i := nextpid] else pid
    case Free(i) => if i < |pid| then pid[i := 0] else pid
    case Reap(i) => if i < |pid| then pid[i := 0] else pid
    case _ => pid
  }

  function NewKilled(killed: seq<bool>, up: Update): seq<bool> {
    match up
    case Free(i) => if i < |killed| then killed[i := false] else killed
    case Reap(i) => if i < |killed| then killed[i := false] else killed
    case MarkKilled(i, _) => if i < |killed| then killed[i := true] else killed
    case _ => killed
  }

  /** Thread points: p moves on; a claimed slot gets a context that starts at forkret. */
  function NewPc(pc: seq<Pc>, p: nat, m: Move): seq<Pc>
    requires p < |pc|
  {
    (if m.up.Claim? && m.up.i < |pc| then pc[m.up.i := Off(AfterYield(InKernel))] else pc)[p := m.next]
  }

  /** s' is s after thread p on CPU c made move m. */
  ghost predicate Applied(s: State, s': State, c: nat, p: nat, m: Move)
    requires Shape(s) && p < |s.pc|
  {
    && (m.g.Gain? ==> m.g.x !in s.held) && s'.held == After(s.held, c, m.g)
    && s'.pc == NewPc(s.pc, p, m) && s'.st == NewSt(s.st, p, m.up) && s'.chan == NewChan(s.chan, p, m.up)
    && s'.parent == NewParent(s.parent, m.up) && s'.pid == NewPid(s.pid, s.nextpid, m.up)
    && s'.killed == NewKilled(s.killed, m.up)
    && s'.locked == (if m.up.SetLocked? && m.up.l < |s.locked| then s.locked[m.up.l := m.up.b] else s.locked)
    && s'.nextpid == (if m.up.Claim? then s.nextpid + 1 else s.nextpid)
    && s'.reaped == (if m.up.Reap? && m.up.i < |s.pid| then s.reaped + {s.pid[m.up.i]} else s.reaped)
    && s'.at == s.at && s'.home == s.home
  }

  ghost predicate ThreadStep(s: State, s': State, c: nat, p: nat, ch: Choice)
    requires Shape(s)
  {
    && c < |s.at| && p < |s.pc| && s.at[c] == In(p)
    && ThreadMove(s, p, ch).Some? && Applied(s, s', c, p, ThreadMove(s, p, ch).value)
  }

  /** Steps that are about CPUs change nothing else. */
  ghost predicate TableSame(s: State, s': State) {
    && s'.chan == s.chan && s'.killed == s.killed && s'.pid == s.pid && s'.parent == s.parent
    && s'.locked == s.locked && s'.nextpid == s.nextpid && s'.reaped == s.reaped
  }

  /** The scheduler's loop on CPU c, with the switch into and out of process k. */
  ghost predicate SchedulerStep(s: State, s': State, c: nat, k: nat)
    requires Shape(s)
  {
    && c < |s.at| && k < |s.pc| && s.at[c].p == k && TableSame(s, s')
    && match s.at[c]
       case Scan(_) =>
         && P(k) !in s.held && s'.held == s.held[P(k) := c] && s'.at == s.at[c := Got(k)]
         && s'.pc == s.pc && s'.st == s.st && s'.home == s.home
       case Got(_) =>
         if s.st[k] == RUNNABLE then
           && s'.st == s.st[k := RUNNING] && s'.home == s.home[k := c] && s'.at == s.at[c := Pick(k)]
           && s'.pc == s.pc && s'.held == s.held
         else
           && s'.held == s.held - {P(k)} && s'.at == s.at[c := Scan((k + 1) % |s.pc|)]
           && s'.pc == s.pc && s'.st == s.st && s'.home == s.home
       case Pick(_) =>
         && s.pc[k].Off? && s'.pc == s.pc[k := Resumed(s.pc[k].k)] && s'.at == s.at[c := In(k)]
         && s'.st == s.st && s'.home == s.home && s'.held == s.held
       case In(_) =>
         && s.pc[k].Sched? && s'.pc == s.pc[k := Off(s.pc[k].k)] && s'.at == s.at[c := Back(k)]
         && s'.st == s.st && s'.home == s.home && s'.held == s.held
       case Back(_) =>
         && s'.held == s.held - {P(k)} && s'.home == s.home[k := -1] && s'.at == s.at[c := Scan((k + 1) % |s.pc|)]
         && s'.pc == s.pc && s'.st == s.st
  }

  /** After userinit: init can run, no other slot is used, every CPU is in its scheduler. */
  ghost predicate Init(s: State) {
    && Shape(s) && s.held == map[] && s.reaped == {} && s.nextpid == 2
    && (forall l :: 0 <= l < |s.locked| ==> !s.locked[l])
    && (forall c :: 0 <= c < |s.at| ==> s.at[c] == Scan(0))
    && (forall p :: 0 <= p < |s.pc| ==> s.home[p] == -1 && s.parent[p] == -1 && s.chan[p] == NoChan)
    && (forall p :: 0 <= p < |s.pc| ==>
          if p == INIT then s.st[p] == RUNNABLE && s.pc[p] == Off(AfterYield(InKernel)) && s.pid[p] == 1
          else s.st[p] == UNUSED && s.pc[p] == Off(Never))
  }

  ghost predicate Next(s: State, s': State)
    requires Shape(s)
  {
    || (exists c, p, ch :: ThreadStep(s, s', c, p, ch))
    || (exists c, k :: SchedulerStep(s, s', c, k))
  }

  ghost predicate StepIn(t: seq<State>, i: nat) {
    i + 1 < |t| && Shape(t[i]) && Next(t[i], t[i + 1])
  }

  ghost predicate IsRun(t: seq<State>) {
    && |t| > 0 && Init(t[0])
    && forall i: nat {:trigger StepIn(t, i)} :: i + 1 < |t| ==> StepIn(t, i)
  }

  /** State i of run t. */
  ghost predicate RunTo(t: seq<State>, i: nat, s: State) {
    IsRun(t) && i < |t| && t[i] == s
  }

  ghost predicate Reachable(s: State) {
    exists t, i: nat :: RunTo(t, i, s)
  }
}
