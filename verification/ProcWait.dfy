/** exit and wait of kernel/proc.c: a parent never sleeps through the exit of a child. */
module ProcWait {
  import opened ProcMachine
  import opened ProcLocks
  import opened ProcCore
  import opened ProcSleep

  /** Process p sleeps in wait, or has let go of wait_lock to do so. */
  ghost predicate Asleep(s: State, p: nat)
    requires Shape(s) && p < |s.pc|
  {
    s.pc[p] == SleepRel(W) || (s.st[p] == SLEEPING && s.chan[p] == OnProc(p))
  }

  /** The thread at pc is in reparent, and its wakeup of init has not passed init. */
  predicate BeforeInit(pc: Pc) {
    (pc.Wake? || pc.WakeGot?) && pc.ch == OnProc(INIT) && pc.back.ThenReparent? && pc.i <= INIT
  }

  ghost predicate WakingInit(s: State)
    requires Shape(s)
  {
    && W in s.held && s.held[W] < |s.at|
    && var a := s.at[s.held[W]]; a.In? && a.p < |s.pc| && BeforeInit(s.pc[a.p])
  }

  /** Where a parent with wait_lock may be while k is a ZOMBIE child of it. */
  predicate MayMiss(pc: Pc, k: nat) {
    match pc
    case WaitScan(i, _) => k >= i
    case WaitGot(i, _) => k >= i
    case SleepCall(lk) => lk != W
    case SleepGot(lk) => lk != W
    case _ => true
  }

  /** While k is a ZOMBIE, its parent is not asleep in wait nor past k in its scan; init may be asleep
      only until the wakeup that follows the adoption. */
  ghost predicate ChildOk(s: State, p: nat, k: nat)
    requires Shape(s) && p < |s.pc| && k < |s.pc|
  {
    s.parent[k] == p && s.st[k] == ZOMBIE ==> MayMiss(s.pc[p], k) && (Asleep(s, p) ==> p == INIT && WakingInit(s))
  }

  /** The thread at pc is in exit and its wakeup has passed its parent, process q. */
  predicate PastParent(pc: Pc, q: int) {
    match pc
    case Wake(_, i, ThenExit) => i > q
    case WakeGot(_, i, ThenExit) => i > q
    case ExitLock => true
    case ExitGot => true
    case _ => false
  }

  ghost predicate ExitOk(s: State, p: nat)
    requires Shape(s) && p < |s.pc|
  {
    && ((s.pc[p].Wake? || s.pc[p].WakeGot?) && s.pc[p].back == ThenExit ==> s.pc[p].ch == OnProc(s.parent[p]))
    && (PastParent(s.pc[p], s.parent[p]) && 0 <= s.parent[p] < |s.pc| ==> !Asleep(s, s.parent[p]))
  }

  /** wait has locked a child of the caller. */
  ghost predicate GotChild(s: State, p: nat)
    requires Shape(s) && p < |s.pc|
  {
    s.pc[p].WaitGot? && s.pc[p].i < |s.pc| ==> s.parent[s.pc[p].i] == p
  }

  ghost predicate WaitInv(s: State) {
    && Shape(s)
    && (forall p: nat, k: nat {:trigger ChildOk(s, p, k)} :: p < |s.pc| && k < |s.pc| ==> ChildOk(s, p, k))
    && (forall p: nat {:trigger ExitOk(s, p)} :: p < |s.pc| ==> ExitOk(s, p))
    && (forall p: nat {:trigger GotChild(s, p)} :: p < |s.pc| ==> GotChild(s, p))
  }

  /** Who changes parents and makes ZOMBIEs. */
  ghost predicate ZombieFacts(s: State, p: nat, m: Move)
    requires Shape(s) && p < |s.pc|
  {
    && (m.up.SetState? && m.up.st == ZOMBIE ==> s.pc[p] == ExitGot && m.up.i == p && m.next == Sched(Never))
    && (m.up.Free? ==> s.pc[p] == ForkMade(m.up.i))
    && (m.up.Reap? ==> s.pc[p].WaitGot? && s.pc[p].i == m.up.i < |s.pc| && s.st[m.up.i] == ZOMBIE)
  }

  ghost predicate ParentFacts(s: State, p: nat, m: Move)
    requires Shape(s) && p < |s.pc|
  {
    m.up.SetParent? ==>
      || (s.pc[p] == ForkParGot(m.up.i) && m.up.q == p)
      || (s.pc[p] == Reparent(m.up.i) && m.up.q == INIT && m.next == Wake(OnProc(INIT), 0, ThenReparent(m.up.i))
          && m.g == Same)
  }

  /** How wait and exit get to their program points. */
  ghost predicate WaitFacts(s: State, p: nat, m: Move)
    requires Shape(s) && p < |s.pc|
  {
    var pc := s.pc[p];
    && (m.next.WaitScan? && m.next.i > 0 ==>
          && (pc.WaitScan? || pc.WaitGot?) && m.next.i == pc.i + 1 && pc.i < |s.pc|
          && (s.parent[pc.i] != p || s.st[pc.i] != ZOMBIE))
    && (m.next.WaitGot? ==> pc.WaitScan? && pc.i == m.next.i < |s.pc| && s.parent[pc.i] == p && m.up == Keep)
    && (m.next == SleepCall(W) ==> pc.WaitScan? && pc.i >= |s.pc|)
  }

  ghost predicate ExitFacts(s: State, p: nat, m: Move)
    requires Shape(s) && p < |s.pc|
  {
    var pc := s.pc[p];
    && (m.next.Wake? && m.next.back == ThenExit && !pc.Wake? && !pc.WakeGot? ==>
          m.next == Wake(OnProc(s.parent[p]), 0, ThenExit) && m.up == Keep)
    && (m.next == ExitLock ==> pc.Wake? && pc.back == ThenExit && pc.i >= |s.pc|)
    && (m.next == ExitGot ==> pc == ExitLock && m.up == Keep)
  }

  lemma MoveZombies(s: State, p: nat, ch: Choice)
    requires Shape(s) && p < |s.pc| && ThreadMove(s, p, ch).Some?
    ensures ZombieFacts(s, p, ThreadMove(s, p, ch).value)
  {
  }

  lemma MoveParents(s: State, p: nat, ch: Choice)
    requires Shape(s) && p < |s.pc| && ThreadMove(s, p, ch).Some?
    ensures ParentFacts(s, p, ThreadMove(s, p, ch).value)
  {
  }

  lemma MoveWaits(s: State, p: nat, ch: Choice)
    requires Shape(s) && p < |s.pc| && ThreadMove(s, p, ch).Some?
    ensures WaitFacts(s, p, ThreadMove(s, p, ch).value)
  {
  }

  lemma MoveExits(s: State, p: nat, ch: Choice)
    requires Shape(s) && p < |s.pc| && ThreadMove(s, p, ch).Some?
    ensures ExitFacts(s, p, ThreadMove(s, p, ch).value)
  {
  }

  /** Nobody else falls asleep in wait. */
  lemma OthersAwake(s: State, s': State, c: nat, p: nat, m: Move, q: nat)
    requires Shape(s) && Shape(s') && p < |s.pc| && q < |s.pc| && q != p && Facts(s, p, m) && Applied(s, s', c, p, m)
             && Asleep(s', q)
    ensures Asleep(s, q) && s'.pc[q] == s.pc[q]
  {
  }

  /** A thread that holds wait_lock on CPU c keeps every other thread out of it. */
  lemma HoldsWait(s: State, c: nat, p: nat, q: nat)
    requires Core(s) && c < |s.at| && p < |s.pc| && q < |s.pc| && p != q && s.at[c] == In(p) && PcHas(s.pc[p], p, W)
    ensures !PcHas(s.pc[q], q, W)
  {
    if PcHas(s.pc[q], q, W) {
      OnHome(s, q);
      Exclusive(s, c, s.home[q], W);
      assert false;
    }
  }

  /** A wakeup of process q from a thread that has q's lock reaches it. */
  lemma Woken(s: State, s': State, c: nat, p: nat, m: Move, q: nat)
    requires Core(s) && Shape(s') && c < |s.at| && p < |s.pc| && q < |s.pc| && s.at[c] == In(p) && Facts(s, p, m)
             && Applied(s, s', c, p, m)
    requires s.pc[p].WakeGot? && s.pc[p].i == q && s.pc[p].ch == OnProc(q) && q != p
    ensures !Asleep(s', q)
  {
    if Asleep(s', q) {
      OthersAwake(s, s', c, p, m, q);
      if s.pc[q] == SleepRel(W) {
        OnHome(s, q);
        Exclusive(s, c, s.home[q], P(q));
      }
      assert false;
    }
  }

  /** All that is known of a step of thread p on CPU c. */
  ghost predicate StepFacts(s: State, s': State, c: nat, p: nat, m: Move) {
    && Core(s) && Shape(s') && c < |s.at| && p < |s.pc| && s.at[c] == In(p) && !s.pc[p].Sched? && s.st[p] == RUNNING
    && Fits(s, p, m) && LocksFit(p, s.pc[p], m) && Facts(s, p, m) && Applied(s, s', c, p, m)
    && ZombieFacts(s, p, m) && ParentFacts(s, p, m)
  }

  /** Reparent's wakeup of init goes on until it has reached init. */
  lemma InitScanKept(s: State, s': State, c: nat, p: nat, m: Move)
    requires StepFacts(s, s', c, p, m) && WakingInit(s) && Asleep(s', INIT)
    ensures WakingInit(s')
  {
    var d := s.held[W];
    var r := s.at[d].p;
    assert HolderOk(s.pc, s.at, s.held, W) && ClaimOk(s.pc, s.at, s.held, c, W);
    OnCpu(s, d, r);
    if r == p {
      OneStack(s.pc, s.st, s.home, s.at, c);
      if s.pc[p].WakeGot? && s.pc[p].i == INIT {
        Woken(s, s', c, p, m, INIT);
      }
    }
  }

  /** A ZOMBIE child that was one before. */
  lemma OldChild(s: State, s': State, c: nat, p: nat, m: Move, q: nat, k: nat)
    requires StepFacts(s, s', c, p, m) && WaitInv(s) && WaitFacts(s, p, m) && q < |s.pc| && k < |s.pc|
    requires s.parent[k] == q && s.st[k] == ZOMBIE && s'.parent[k] == q && s'.st[k] == ZOMBIE
    ensures ChildOk(s', q, k)
  {
    assert ChildOk(s, q, k);
    if Asleep(s', q) {
      if q != p {
        OthersAwake(s, s', c, p, m, q);
      }
      InitScanKept(s, s', c, p, m);
    }
  }

  /** A child that became a ZOMBIE, or a ZOMBIE that init adopted. */
  lemma NewChild(s: State, s': State, c: nat, p: nat, m: Move, q: nat, k: nat)
    requires StepFacts(s, s', c, p, m) && WaitInv(s) && q < |s.pc| && k < |s.pc|
    requires s'.parent[k] == q && s'.st[k] == ZOMBIE && (s.parent[k] != q || s.st[k] != ZOMBIE)
    ensures ChildOk(s', q, k)
  {
    assert ExitOk(s, p) && ForkOk(s.pc, s.st, p);
    assert PcHas(s.pc[p], p, W);
    if q != p {
      HoldsWait(s, c, p, q);
      if Asleep(s', q) {
        OthersAwake(s, s', c, p, m, q);
      }
      assert ClaimOk(s.pc, s.at, s.held, c, W);
    }
  }

  lemma ExitOkSelf(s: State, s': State, c: nat, p: nat, m: Move)
    requires StepFacts(s, s', c, p, m) && WaitInv(s) && ExitFacts(s, p, m)
    ensures ExitOk(s', p)
  {
    assert ExitOk(s, p);
    var q := s.parent[p];
    if 0 <= q < |s.pc| && q != p && s'.parent[p] == q && PastParent(m.next, q) && Asleep(s', q) {
      OthersAwake(s, s', c, p, m, q);
      if s.pc[p].WakeGot? && s.pc[p].i == q {
        Woken(s, s', c, p, m, q);
      }
    }
  }

  lemma ExitOkOther(s: State, s': State, c: nat, p: nat, m: Move, q: nat)
    requires StepFacts(s, s', c, p, m) && WaitInv(s) && q < |s.pc| && q != p
    ensures ExitOk(s', q)
  {
    assert ExitOk(s, q) && ForkOk(s.pc, s.st, p);
    var r := s.parent[q];
    if PastParent(s'.pc[q], s'.parent[q]) || ((s'.pc[q].Wake? || s'.pc[q].WakeGot?) && s'.pc[q].back == ThenExit) {
      assert PcHas(s.pc[q], q, W);
      OnHome(s, q);
      HoldsWait(s, s.home[q], q, p);
      OnCpu(s, s.home[q], q);
      assert s'.parent[q] == r;
      if 0 <= r < |s.pc| && r != p && Asleep(s', r) {
        OthersAwake(s, s', c, p, m, r);
      }
    }
  }

  lemma GotChildKept(s: State, s': State, c: nat, p: nat, m: Move, q: nat)
    requires StepFacts(s, s', c, p, m) && WaitInv(s) && WaitFacts(s, p, m) && q < |s.pc|
    ensures GotChild(s', q)
  {
    assert GotChild(s, q);
    if q != p && s.pc[q].WaitGot? && s.pc[q].i < |s.pc| {
      OnHome(s, q);
      HoldsWait(s, s.home[q], q, p);
      OnCpu(s, s.home[q], q);
      if m.up.Free? && m.up.i == s.pc[q].i {
        Exclusive(s, c, s.home[q], P(m.up.i));
      }
    }
  }

  lemma WaitThread(s: State, s': State, c: nat, p: nat, ch: Choice)
    requires Core(s) && WaitInv(s) && Core(s') && ThreadStep(s, s', c, p, ch)
    ensures WaitInv(s')
  {
    var m := ThreadMove(s, p, ch).value;
    ThreadFits(s, c, p, ch);
    MoveUpdates(s, p, ch);
    MoveSleeps(s, p, ch);
    MoveZombies(s, p, ch);
    MoveParents(s, p, ch);
    MoveWaits(s, p, ch);
    MoveExits(s, p, ch);
    MoveWakes(s, p, ch);
    OnCpu(s, c, p);
    WaitMoves(s, s', c, p, m);
  }

  lemma WaitMoves(s: State, s': State, c: nat, p: nat, m: Move)
    requires StepFacts(s, s', c, p, m) && WaitInv(s) && WaitFacts(s, p, m) && ExitFacts(s, p, m)
    ensures WaitInv(s')
  {
    forall q: nat, k: nat | q < |s'.pc| && k < |s'.pc| ensures ChildOk(s', q, k) {
      if s'.parent[k] == q && s'.st[k] == ZOMBIE {
        if s.parent[k] == q && s.st[k] == ZOMBIE {
          OldChild(s, s', c, p, m, q, k);
        } else {
          NewChild(s, s', c, p, m, q, k);
        }
      }
    }
    forall q: nat | q < |s'.pc| ensures ExitOk(s', q) {
      if q == p {
        ExitOkSelf(s, s', c, p, m);
      } else {
        ExitOkOther(s, s', c, p, m, q);
      }
    }
    forall q: nat | q < |s'.pc| ensures GotChild(s', q) {
      GotChildKept(s, s', c, p, m, q);
    }
  }

  lemma WaitScheduler(s: State, s': State, c: nat, k: nat)
    requires Core(s) && WaitInv(s) && Shape(s') && SchedulerStep(s, s', c, k)
    ensures WaitInv(s')
  {
    assert CpuOk(|s.pc|, s.home, s.at, c) && ProcOk(s.pc, s.st, s.home, s.at, k);
    forall q: nat, j: nat | q < |s'.pc| && j < |s'.pc| ensures ChildOk(s', q, j) {
      assert ChildOk(s, q, j);
      if Asleep(s', q) && WakingInit(s) {
        assert s'.held[W] == s.held[W];
      }
    }
    forall q: nat | q < |s'.pc| ensures ExitOk(s', q) {
      assert ExitOk(s, q);
    }
    forall q: nat | q < |s'.pc| ensures GotChild(s', q) {
      assert GotChild(s, q);
    }
  }
}
