/** Every step keeps the lock and CPU invariants. */
module ProcCore {
  import opened ProcMachine
  import opened ProcLocks

  predicate LockOk(lk: Lock, nl: nat) {
    lk == W || (lk.S? && lk.l < nl)
  }

  predicate PointOk(at: Point, nl: nat) {
    at.InRelock? ==> LockOk(at.lk, nl)
  }

  predicate ContOk(k: Cont, nl: nat) {
    match k
    case AfterYield(at) => PointOk(at, nl)
    case AfterSleep(lk) => LockOk(lk, nl)
    case Never => true
  }

  predicate WakeOk(ch: Chan, b: Then, p: nat, nl: nat) {
    match b
    case ThenRel(l) => ch == OnLock(l) && l < nl
    case ThenReparent(_) => ch == OnProc(INIT) && p != INIT
    case ThenExit => ch.OnProc? && p != INIT
  }

  /** Program points have arguments in range; only processes other than init exit. */
  predicate PcOk(pc: Pc, p: nat, n: nat, nl: nat) {
    match pc
    case Off(k) => ContOk(k, nl)
    case Resumed(k) => ContOk(k, nl)
    case Sched(k) => ContOk(k, nl)
    case YieldGot(at) => PointOk(at, nl)
    case SleepCall(lk) => LockOk(lk, nl)
    case SleepGot(lk) => LockOk(lk, nl)
    case SleepRel(lk) => LockOk(lk, nl)
    case Relock(lk) => LockOk(lk, nl)
    case AcqCheck(l) => l < nl
    case RelGot(l) => l < nl
    case RelEnd(l) => l < nl
    case Wake(ch, _, b) => WakeOk(ch, b, p, nl)
    case WakeGot(ch, i, b) => WakeOk(ch, b, p, nl) && i < n && i != p
    case WaitGot(i, _) => i < n
    case ForkGot(i) => i < n
    case KillGot(i, _) => i < n
    case Reparent(_) | ExitLock | ExitGot => p != INIT
    case _ => true
  }

  ghost predicate PcInv(pc: seq<Pc>, nl: nat) {
    forall p: nat {:trigger pc[p]} :: p < |pc| ==> PcOk(pc[p], p, |pc|, nl)
  }

  function PointSlot(at: Point): int {
    match at
    case InForkPar(i) => i
    case InForkRun(i) => i
    case _ => -1
  }

  function ContSlot(k: Cont): int {
    if k.AfterYield? then PointSlot(k.at) else -1
  }

  /** The slot a fork is filling, or -1; a fork that yields goes on filling it. */
  function Slot(pc: Pc): int {
    match pc
    case Off(k) => ContSlot(k)
    case Resumed(k) => ContSlot(k)
    case Sched(k) => ContSlot(k)
    case YieldGot(at) => PointSlot(at)
    case ForkMade(i) => i
    case ForkPar(i) => i
    case ForkParGot(i) => i
    case ForkRun(i) => i
    case ForkRunGot(i) => i
    case _ => -1
  }

  ghost predicate ForkOk(pc: seq<Pc>, st: seq<PState>, p: nat)
    requires p < |pc| == |st|
  {
    var i := Slot(pc[p]);
    i >= 0 ==> i < |pc| && i != p && st[i] == USED && pc[i] == Off(AfterYield(InKernel))
  }

  ghost predicate OneFork(pc: seq<Pc>, p: nat, q: nat)
    requires p < |pc| && q < |pc|
  {
    p != q && Slot(pc[p]) >= 0 ==> Slot(pc[p]) != Slot(pc[q])
  }

  /** A slot being filled is USED, off the CPUs, and has one filler. */
  ghost predicate ForkInv(pc: seq<Pc>, st: seq<PState>)
    requires |pc| == |st|
  {
    && (forall p: nat {:trigger ForkOk(pc, st, p)} :: p < |pc| ==> ForkOk(pc, st, p))
    && (forall p: nat, q: nat {:trigger OneFork(pc, p, q)} :: p < |pc| && q < |pc| ==> OneFork(pc, p, q))
  }

  ghost predicate Core(s: State) {
    && Shape(s) && PcInv(s.pc, |s.locked|) && ForkInv(s.pc, s.st)
    && LockInv(s.pc, s.at, s.held) && HomeInv(s.pc, s.st, s.home, s.at)
  }

  /** A process whose lock another thread or a scheduler holds is running or off the CPUs. */
  lemma LockedElsewhere(s: State, c: nat, i: nat)
    requires Core(s) && c < |s.at| && i < |s.pc| && CpuHas(s.pc, s.at, c, P(i))
    requires s.at[c] != In(i) && s.at[c] != Pick(i) && s.at[c] != Back(i)
    ensures Parked(s, i)
  {
    assert ProcOk(s.pc, s.st, s.home, s.at, i);
    assert ClaimOk(s.pc, s.at, s.held, c, P(i));
    if s.home[i] >= 0 {
      assert ClaimOk(s.pc, s.at, s.held, s.home[i], P(i));
    }
  }

  /** If process i is not running, it is off the CPUs. */
  ghost predicate Parked(s: State, i: nat) {
    Shape(s) && i < |s.pc| && (s.st[i] != RUNNING ==> s.pc[i].Off? && s.home[i] < 0 && OffState(s.pc[i].k, s.st[i]))
  }

  /** Thread p runs on CPU c, with a state and program point that fit. */
  ghost predicate Ready(s: State, p: nat) {
    && Shape(s) && p < |s.pc| && !s.pc[p].Off? && PcOk(s.pc[p], p, |s.pc|, |s.locked|)
    && (!s.pc[p].Sched? ==> s.st[p] == RUNNING)
  }

  lemma OnCpu(s: State, c: nat, p: nat)
    requires Core(s) && c < |s.at| && p < |s.pc| && s.at[c] == In(p)
    ensures s.home[p] == c && Ready(s, p) && ForkOk(s.pc, s.st, p)
  {
    assert ProcOk(s.pc, s.st, s.home, s.at, p) && CpuOk(|s.pc|, s.home, s.at, c);
  }

  /** Move m of thread p changes the state of another process only while that is off the CPUs. */
  ghost predicate Fits(s: State, p: nat, m: Move)
    requires Shape(s) && p < |s.pc|
  {
    var st', pc' := NewSt(s.st, p, m.up), NewPc(s.pc, p, m);
    && InTable(s, m.up) && PcOk(m.next, p, |s.pc|, |s.locked|) && !m.next.Off?
    && (if m.next.Sched? then SchedState(m.next.k, st'[p]) else st'[p] == RUNNING)
    && (Slot(m.next) >= 0 ==>
          && Slot(m.next) < |s.pc| && st'[Slot(m.next)] == USED && pc'[Slot(m.next)] == Off(AfterYield(InKernel))
          && (Slot(m.next) == Slot(s.pc[p]) || s.st[Slot(m.next)] != USED))
    && (forall i: nat {:trigger st'[i]} :: i < |s.pc| && i != p && st'[i] != s.st[i] ==>
          && s.pc[i].Off? && s.home[i] < 0 && pc'[i].Off? && OffState(pc'[i].k, st'[i])
          && (s.st[i] == USED ==> Slot(s.pc[p]) == i))
    && (m.up.Claim? ==> m.up.i != p && s.st[m.up.i] == UNUSED)
  }

  ghost predicate LocksFit(p: nat, pc: Pc, m: Move) {
    && (m.g.Lose? ==> PcHas(pc, p, m.g.x))
    && forall x: Lock {:trigger PcHas(m.next, p, x)} :: Changed(PcHas(pc, p, x), PcHas(m.next, p, x), x, m.g)
  }

  lemma CoreMove(s: State, s': State, c: nat, p: nat, m: Move)
    requires Core(s) && c < |s.at| && p < |s.pc| && s.at[c] == In(p)
    requires Fits(s, p, m) && LocksFit(p, s.pc[p], m) && Applied(s, s', c, p, m)
    ensures Core(s')
  {
    OneStack(s.pc, s.st, s.home, s.at, c);
    OnCpu(s, c, p);
    var pc1 := if m.up.Claim? then s.pc[m.up.i := Off(AfterYield(InKernel))] else s.pc;
    if m.up.Claim? {
      assert s'.st[m.up.i] == USED;
      NoStack(s.pc, s.st, s.home, s.at, m.up.i);
      OffMove(s.pc, s.at, s.held, m.up.i, Off(AfterYield(InKernel)));
    }
    ThreadLocks(pc1, s.at, s.held, c, p, m.next, m.g);
    assert s'.pc == pc1[p := m.next];
    assert CpuOk(|s.pc|, s.home, s.at, c);
    CoreHome(s, s', c, p, m);
    CoreFork(s, s', c, p, m);
  }

  lemma CoreHome(s: State, s': State, c: nat, p: nat, m: Move)
    requires Shape(s) && HomeInv(s.pc, s.st, s.home, s.at) && c < |s.at| && p < |s.pc| && s.at[c] == In(p)
    requires Fits(s, p, m) && Applied(s, s', c, p, m)
    ensures HomeInv(s'.pc, s'.st, s'.home, s'.at)
  {
    assert CpuOk(|s.pc|, s.home, s.at, c);
    forall q: nat | q < |s.pc| && (s'.pc[q] != s.pc[q] || s'.st[q] != s.st[q])
      ensures ProcOk(s'.pc, s'.st, s.home, s.at, q)
    {
      assert ProcOk(s.pc, s.st, s.home, s.at, q);
    }
    HomeMove(s.pc, s.st, s'.pc, s'.st, s.home, s.at);
  }

  lemma CoreFork(s: State, s': State, c: nat, p: nat, m: Move)
    requires Shape(s) && ForkInv(s.pc, s.st) && c < |s.at| && p < |s.pc| && !s.pc[p].Off?
    requires Fits(s, p, m) && Applied(s, s', c, p, m)
    ensures ForkInv(s'.pc, s'.st)
  {
    forall q: nat | q < |s.pc| ensures ForkOk(s'.pc, s'.st, q) {
      assert ForkOk(s.pc, s.st, q) && ForkOk(s.pc, s.st, p) && OneFork(s.pc, q, p);
    }
    OneForkKept(s, s', p, m);
  }

  lemma OneForkKept(s: State, s': State, p: nat, m: Move)
    requires Shape(s) && ForkInv(s.pc, s.st) && p < |s.pc| && !s.pc[p].Off? && Fits(s, p, m)
             && s'.pc == NewPc(s.pc, p, m)
    ensures forall q: nat, r: nat {:trigger OneFork(s'.pc, q, r)} :: q < |s.pc| && r < |s.pc| ==> OneFork(s'.pc, q, r)
  {
    forall q: nat, r: nat | q < |s.pc| && r < |s.pc| ensures OneFork(s'.pc, q, r) {
      assert OneFork(s.pc, q, r) && OneFork(s.pc, r, q);
      assert ForkOk(s.pc, s.st, q) && ForkOk(s.pc, s.st, r);
    }
  }

  lemma FitsYield(s: State, p: nat)
    requires Ready(s, p) && ForkOk(s.pc, s.st, p) && YieldMove(p, s.pc[p]).Some?
    ensures Fits(s, p, YieldMove(p, s.pc[p]).value) && LocksFit(p, s.pc[p], YieldMove(p, s.pc[p]).value)
  {
  }

  lemma FitsEnter(s: State, p: nat, ch: Choice)
    requires Ready(s, p) && s.pc[p] == Kernel && Enter(s, p, ch).Some?
    ensures Fits(s, p, Enter(s, p, ch).value)
  {
  }

  lemma LocksFitEnter(s: State, p: nat, ch: Choice)
    requires Ready(s, p) && s.pc[p] == Kernel && Enter(s, p, ch).Some?
    ensures LocksFit(p, s.pc[p], Enter(s, p, ch).value)
  {
  }

  lemma FitsSwitch(s: State, p: nat)
    requires Ready(s, p) && ForkOk(s.pc, s.st, p) && (s.pc[p].YieldGot? || s.pc[p].Resumed?)
             && SleepMove(p, s.pc[p]).Some?
    ensures Fits(s, p, SleepMove(p, s.pc[p]).value)
  {
  }

  lemma FitsSleep(s: State, p: nat)
    requires Ready(s, p) && !s.pc[p].YieldGot? && !s.pc[p].Resumed? && SleepMove(p, s.pc[p]).Some?
    ensures Fits(s, p, SleepMove(p, s.pc[p]).value)
  {
  }

  lemma LocksFitSleep(s: State, p: nat)
    requires Ready(s, p) && SleepMove(p, s.pc[p]).Some?
    ensures LocksFit(p, s.pc[p], SleepMove(p, s.pc[p]).value)
  {
  }

  lemma FitsSleepLock(s: State, p: nat)
    requires Ready(s, p) && SleepLockMove(s, s.pc[p]).Some?
    ensures Fits(s, p, SleepLockMove(s, s.pc[p]).value)
  {
  }

  lemma LocksFitSleepLock(s: State, p: nat)
    requires Ready(s, p) && SleepLockMove(s, s.pc[p]).Some?
    ensures LocksFit(p, s.pc[p], SleepLockMove(s, s.pc[p]).value)
  {
  }

  lemma FitsWake(s: State, p: nat)
    requires Ready(s, p) && WakeMove(s, p, s.pc[p]).Some? && (s.pc[p].WakeGot? ==> Parked(s, s.pc[p].i))
    ensures Fits(s, p, WakeMove(s, p, s.pc[p]).value)
  {
  }

  lemma LocksFitWake(s: State, p: nat)
    requires Ready(s, p) && WakeMove(s, p, s.pc[p]).Some?
    ensures LocksFit(p, s.pc[p], WakeMove(s, p, s.pc[p]).value)
  {
  }

  lemma FitsWait(s: State, p: nat, ch: Choice)
    requires Ready(s, p) && WaitMove(s, p, s.pc[p], ch).Some?
             && (s.pc[p].WaitGot? && s.pc[p].i != p ==> Parked(s, s.pc[p].i))
    ensures Fits(s, p, WaitMove(s, p, s.pc[p], ch).value)
  {
  }

  lemma LocksFitWait(s: State, p: nat, ch: Choice)
    requires Ready(s, p) && WaitMove(s, p, s.pc[p], ch).Some?
    ensures LocksFit(p, s.pc[p], WaitMove(s, p, s.pc[p], ch).value)
  {
  }

  lemma FitsExit(s: State, p: nat)
    requires Ready(s, p) && ExitMove(s, p, s.pc[p]).Some?
    ensures Fits(s, p, ExitMove(s, p, s.pc[p]).value)
  {
  }

  lemma LocksFitExit(s: State, p: nat)
    requires Ready(s, p) && ExitMove(s, p, s.pc[p]).Some?
    ensures LocksFit(p, s.pc[p], ExitMove(s, p, s.pc[p]).value)
  {
  }

  lemma FitsFork(s: State, p: nat, ch: Choice)
    requires Ready(s, p) && ForkOk(s.pc, s.st, p) && ForkMove(s, p, s.pc[p], ch).Some?
    requires (s.pc[p].ForkGot? && s.pc[p].i != p) || s.pc[p].ForkMade? || s.pc[p].ForkRunGot? ==> Parked(s, s.pc[p].i)
    ensures Fits(s, p, ForkMove(s, p, s.pc[p], ch).value)
  {
  }

  lemma LocksFitFork(s: State, p: nat, ch: Choice)
    requires Ready(s, p) && ForkMove(s, p, s.pc[p], ch).Some?
    ensures LocksFit(p, s.pc[p], ForkMove(s, p, s.pc[p], ch).value)
  {
  }

  lemma FitsKill(s: State, p: nat)
    requires Ready(s, p) && KillMove(s, s.pc[p]).Some? && (s.pc[p].KillGot? && s.pc[p].i != p ==> Parked(s, s.pc[p].i))
    ensures Fits(s, p, KillMove(s, s.pc[p]).value)
  {
  }

  lemma LocksFitKill(s: State, p: nat)
    requires Ready(s, p) && KillMove(s, s.pc[p]).Some?
    ensures LocksFit(p, s.pc[p], KillMove(s, s.pc[p]).value)
  {
  }

  /** A thread that got the lock of another process finds it running or off the CPUs. */
  ghost predicate GotParked(s: State, p: nat)
    requires Shape(s) && p < |s.pc|
  {
    var pc := s.pc[p];
    pc.WakeGot? || pc.WaitGot? || pc.ForkGot? || pc.ForkMade? || pc.ForkRunGot? || pc.KillGot? ==>
      pc.i < |s.pc| && (pc.i != p ==> Parked(s, pc.i))
  }

  lemma GotLock(s: State, c: nat, p: nat)
    requires Core(s) && c < |s.at| && p < |s.pc| && s.at[c] == In(p)
    ensures GotParked(s, p)
  {
    OnCpu(s, c, p);
    var pc := s.pc[p];
    if pc.WakeGot? || pc.WaitGot? || pc.ForkGot? || pc.ForkMade? || pc.ForkRunGot? || pc.KillGot? {
      if pc.i != p {
        LockedElsewhere(s, c, pc.i);
      }
    }
  }

  lemma MoveFits(s: State, p: nat, ch: Choice)
    requires Ready(s, p) && ForkOk(s.pc, s.st, p) && GotParked(s, p) && ch != DoYield && ThreadMove(s, p, ch).Some?
    ensures Fits(s, p, ThreadMove(s, p, ch).value)
  {
    match s.pc[p]
    case Kernel => FitsEnter(s, p, ch);
    case YieldGot(_) | Resumed(_) => FitsSwitch(s, p);
    case SleepCall(_) | SleepGot(_) | SleepRel(_) | Relock(_) => FitsSleep(s, p);
    case AcqCheck(_) | RelGot(_) | RelEnd(_) => FitsSleepLock(s, p);
    case Wake(_, _, _) | WakeGot(_, _, _) => FitsWake(s, p);
    case WaitScan(_, _) | WaitGot(_, _) | WaitEnd => FitsWait(s, p, ch);
    case Reparent(_) | ExitLock | ExitGot => FitsExit(s, p);
    case Fork(_) | ForkGot(_) | ForkMade(_) | ForkPar(_) | ForkParGot(_) | ForkRun(_) | ForkRunGot(_) =>
      FitsFork(s, p, ch);
    case Kill(_, _) | KillGot(_, _) => FitsKill(s, p);
  }

  lemma MoveLocksFit(s: State, p: nat, ch: Choice)
    requires Ready(s, p) && ch != DoYield && ThreadMove(s, p, ch).Some?
    ensures LocksFit(p, s.pc[p], ThreadMove(s, p, ch).value)
  {
    match s.pc[p]
    case Kernel => LocksFitEnter(s, p, ch);
    case YieldGot(_) | SleepCall(_) | SleepGot(_) | SleepRel(_) | Resumed(_) | Relock(_) => LocksFitSleep(s, p);
    case AcqCheck(_) | RelGot(_) | RelEnd(_) => LocksFitSleepLock(s, p);
    case Wake(_, _, _) | WakeGot(_, _, _) => LocksFitWake(s, p);
    case WaitScan(_, _) | WaitGot(_, _) | WaitEnd => LocksFitWait(s, p, ch);
    case Reparent(_) | ExitLock | ExitGot => LocksFitExit(s, p);
    case Fork(_) | ForkGot(_) | ForkMade(_) | ForkPar(_) | ForkParGot(_) | ForkRun(_) | ForkRunGot(_) =>
      LocksFitFork(s, p, ch);
    case Kill(_, _) | KillGot(_, _) => LocksFitKill(s, p);
  }

  lemma ThreadFits(s: State, c: nat, p: nat, ch: Choice)
    requires Core(s) && c < |s.at| && p < |s.pc| && s.at[c] == In(p) && ThreadMove(s, p, ch).Some?
    ensures Fits(s, p, ThreadMove(s, p, ch).value) && LocksFit(p, s.pc[p], ThreadMove(s, p, ch).value)
  {
    OnCpu(s, c, p);
    GotLock(s, c, p);
    if ch == DoYield {
      FitsYield(s, p);
    } else {
      MoveFits(s, p, ch);
      MoveLocksFit(s, p, ch);
    }
  }

  /** What the scheduler holds before and after its step. */
  function SchedulerChange(s: State, c: nat, k: nat): Change
    requires Shape(s) && c < |s.at| && k < |s.pc|
  {
    match s.at[c]
    case Scan(_) => Gain(P(k))
    case Got(_) => if s.st[k] == RUNNABLE then Same else Lose(P(k))
    case Back(_) => Lose(P(k))
    case _ => Same
  }

  lemma SchedulerLocks(s: State, s': State, c: nat, k: nat)
    requires Core(s) && SchedulerStep(s, s', c, k)
    ensures LockInv(s'.pc, s'.at, s'.held)
  {
    if s.at[c] == Pick(k) || s.at[c] == In(k) {
      OneStack(s.pc, s.st, s.home, s.at, c);
    }
    LockMove(s.pc, s.at, s.held, s'.pc, s'.at, c, SchedulerChange(s, c, k));
  }

  lemma SchedulerHome(s: State, s': State, c: nat, k: nat)
    requires Core(s) && SchedulerStep(s, s', c, k)
    ensures HomeInv(s'.pc, s'.st, s'.home, s'.at)
  {
    assert CpuOk(|s.pc|, s.home, s.at, c) && ProcOk(s.pc, s.st, s.home, s.at, k);
    if s.at[c] == Got(k) {
      LockedElsewhere(s, c, k);
    }
    forall q: nat | q < |s.pc| ensures ProcOk(s'.pc, s'.st, s'.home, s'.at, q) {
      assert ProcOk(s.pc, s.st, s.home, s.at, q);
    }
    forall d: nat | d < |s.at| ensures CpuOk(|s.pc|, s'.home, s'.at, d) {
      assert CpuOk(|s.pc|, s.home, s.at, d);
    }
  }

  lemma SchedulerCore(s: State, s': State, c: nat, k: nat)
    requires Core(s) && SchedulerStep(s, s', c, k)
    ensures Core(s')
  {
    SchedulerLocks(s, s', c, k);
    SchedulerHome(s, s', c, k);
    SchedulerFork(s, s', c, k);
  }

  lemma SchedulerFork(s: State, s': State, c: nat, k: nat)
    requires Core(s) && SchedulerStep(s, s', c, k)
    ensures ForkInv(s'.pc, s'.st) && PcInv(s'.pc, |s'.locked|)
  {
    assert ProcOk(s.pc, s.st, s.home, s.at, k) && CpuOk(|s.pc|, s.home, s.at, c);
    forall q: nat | q < |s.pc| ensures ForkOk(s'.pc, s'.st, q) {
      assert ForkOk(s.pc, s.st, q);
    }
    forall q: nat, r: nat | q < |s.pc| && r < |s.pc| ensures OneFork(s'.pc, q, r) {
      assert OneFork(s.pc, q, r);
    }
  }
}
