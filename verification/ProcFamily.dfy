/** Parents and children: what fork, exit and wait of kernel/proc.c do to the tree of processes. */
module ProcFamily {
  import opened ProcMachine
  import opened ProcLocks
  import opened ProcCore
  import opened ProcSleep
  import opened ProcWait
  import opened ProcRuns

  /** The thread at pc is in exit: of its children, those in slots below the result were given to init. */
  function GivenAway(pc: Pc, n: nat): nat {
    match pc
    case Reparent(i) => i
    case Wake(_, _, ThenReparent(i)) => i + 1
    case WakeGot(_, _, ThenReparent(i)) => i + 1
    case Wake(_, _, ThenExit) | WakeGot(_, _, ThenExit) | ExitLock | ExitGot => n
    case Sched(Never) | Off(Never) | Resumed(Never) => n
    case _ => 0
  }

  /** The slot of the child whose parent pointer the fork at pc has set, or -1. */
  function Adopted(pc: Pc): int {
    match pc
    case ForkRun(i) => i
    case ForkRunGot(i) => i
    case YieldGot(InForkRun(i)) => i
    case Sched(AfterYield(InForkRun(i))) => i
    case Off(AfterYield(InForkRun(i))) => i
    case Resumed(AfterYield(InForkRun(i))) => i
    case _ => -1
  }

  ghost predicate NoKids(s: State, p: nat, n: nat)
    requires Shape(s)
  {
    forall k: nat {:trigger s.parent[k]} :: k < n && k < |s.pc| ==> s.parent[k] != p
  }

  ghost predicate HasKid(s: State, p: nat)
    requires Shape(s)
  {
    exists k: nat :: k < |s.pc| && s.parent[k] == p
  }

  /** A process that has exited, or has not started, has no children. */
  ghost predicate ExitKids(s: State, p: nat)
    requires Shape(s) && p < |s.pc|
  {
    NoKids(s, p, GivenAway(s.pc[p], |s.pc|)) && (s.st[p] == UNUSED || s.st[p] == USED ==> NoKids(s, p, |s.pc|))
  }

  /** wait's havekids is right about the slots it has looked at. */
  ghost predicate ScanOk(s: State, p: nat)
    requires Shape(s) && p < |s.pc|
  {
    s.pc[p].WaitScan? || s.pc[p].WaitGot? ==> if s.pc[p].kids then HasKid(s, p) else NoKids(s, p, s.pc[p].i)
  }

  /** Where the thread of a slot that is not in use, or not yet, is. */
  predicate UnusedOff(pc: Pc, st: PState) {
    && (st == UNUSED ==> pc == Off(Never) || pc == Off(AfterYield(InKernel)))
    && (st == USED ==> pc == Off(AfterYield(InKernel)))
  }

  /** A slot has no parent until fork sets it, and then that of the forking process. */
  ghost predicate ParentOk(s: State, p: nat)
    requires Shape(s) && p < |s.pc|
  {
    && (s.st[p] == UNUSED ==> s.parent[p] == -1) && UnusedOff(s.pc[p], s.st[p])
    && (s.pc[p].ForkMade? && s.pc[p].i < |s.pc| ==> s.parent[s.pc[p].i] == -1)
    && (0 <= Adopted(s.pc[p]) < |s.pc| ==> s.parent[Adopted(s.pc[p])] == p)
    && -1 <= s.parent[p] < |s.pc|
  }

  /** init never exits. */
  ghost predicate InitLives(s: State)
    requires Shape(s)
  {
    && (s.st[INIT] == SLEEPING || s.st[INIT] == RUNNABLE || s.st[INIT] == RUNNING)
    && GivenAway(s.pc[INIT], 1) == 0
  }

  ghost predicate KidInv(s: State) {
    && Shape(s) && InitLives(s)
    && (forall p: nat {:trigger ExitKids(s, p)} :: p < |s.pc| ==> ExitKids(s, p))
    && (forall p: nat {:trigger ScanOk(s, p)} :: p < |s.pc| ==> ScanOk(s, p))
    && (forall p: nat {:trigger ParentOk(s, p)} :: p < |s.pc| ==> ParentOk(s, p))
  }

  // ---------------------------------------------------------------- what the steps do

  /** How exit gets on with its children. */
  ghost predicate LeaveFacts(s: State, p: nat, m: Move)
    requires Shape(s) && p < |s.pc|
  {
    var n, pc := |s.pc|, s.pc[p];
    || GivenAway(m.next, n) <= GivenAway(pc, n)
    || (pc.Reparent? && pc.i < n && GivenAway(m.next, n) == pc.i + 1
        && (s.parent[pc.i] != p || m.up == SetParent(pc.i, INIT)))
  }

  /** How wait goes through the table. */
  ghost predicate ScanFacts(s: State, p: nat, m: Move)
    requires Shape(s) && p < |s.pc|
  {
    var pc := s.pc[p];
    m.next.WaitScan? || m.next.WaitGot? ==>
      && m.up == Keep
      && (|| m.next == WaitScan(0, false)
          || (pc.WaitGot? && m.next == WaitScan(pc.i + 1, true))
          || (pc.WaitScan? && pc.i < |s.pc| && s.parent[pc.i] != p && m.next == WaitScan(pc.i + 1, pc.kids))
          || (pc.WaitScan? && pc.i < |s.pc| && s.parent[pc.i] == p && m.next == WaitGot(pc.i, pc.kids)))
  }

  /** How fork gets its child. */
  ghost predicate AdoptFacts(s: State, p: nat, m: Move)
    requires Shape(s) && p < |s.pc|
  {
    var pc := s.pc[p];
    && (Adopted(m.next) >= 0 ==>
          Adopted(pc) == Adopted(m.next) || (pc == ForkParGot(Adopted(m.next)) && m.up == SetParent(pc.i, p)))
    && (m.next.ForkMade? ==> m.up == Claim(m.next.i))
  }

  /** Who sets parents and states. */
  ghost predicate SetFacts(s: State, p: nat, m: Move)
    requires Shape(s) && p < |s.pc|
  {
    && (m.up.SetParent? && s.pc[p].Reparent? ==> m.up.i < |s.pc| && s.parent[m.up.i] == p)
    && (m.up.SetState? ==> m.up.st == RUNNABLE || m.up.st == ZOMBIE)
  }

  predicate InExit(pc: Pc) {
    pc.Reparent? || pc.ExitLock? || pc.ExitGot? || pc.Wake? || pc.WakeGot?
  }

  lemma OthersDoNotLeave(s: State, p: nat, ch: Choice)
    requires Shape(s) && p < |s.pc| && ThreadMove(s, p, ch).Some? && !InExit(s.pc[p])
    ensures GivenAway(ThreadMove(s, p, ch).value.next, |s.pc|) == 0
  {
    match s.pc[p]
    case Kernel => assert ch != DoYield ==> GivenAway(Enter(s, p, ch).value.next, |s.pc|) == 0;
    case WaitScan(_, _) | WaitGot(_, _) | WaitEnd =>
    case Fork(_) | ForkGot(_) | ForkMade(_) | ForkPar(_) | ForkParGot(_) | ForkRun(_) | ForkRunGot(_) =>
    case Kill(_, _) | KillGot(_, _) =>
    case _ =>
  }

  lemma ExitLeaves(s: State, p: nat)
    requires Shape(s) && p < |s.pc| && ExitMove(s, p, s.pc[p]).Some?
    ensures LeaveFacts(s, p, ExitMove(s, p, s.pc[p]).value)
  {
  }

  lemma WakeLeaves(s: State, p: nat)
    requires Shape(s) && p < |s.pc| && WakeMove(s, p, s.pc[p]).Some?
    ensures LeaveFacts(s, p, WakeMove(s, p, s.pc[p]).value)
  {
  }

  lemma MoveLeaves(s: State, p: nat, ch: Choice)
    requires Shape(s) && p < |s.pc| && ThreadMove(s, p, ch).Some?
    ensures LeaveFacts(s, p, ThreadMove(s, p, ch).value)
  {
    if !InExit(s.pc[p]) {
      OthersDoNotLeave(s, p, ch);
    } else if s.pc[p].Wake? || s.pc[p].WakeGot? {
      WakeLeaves(s, p);
    } else {
      ExitLeaves(s, p);
    }
  }

  lemma MoveScans(s: State, p: nat, ch: Choice)
    requires Shape(s) && p < |s.pc| && ThreadMove(s, p, ch).Some?
    ensures ScanFacts(s, p, ThreadMove(s, p, ch).value)
  {
  }

  lemma MoveAdopts(s: State, p: nat, ch: Choice)
    requires Shape(s) && p < |s.pc| && ThreadMove(s, p, ch).Some?
    ensures AdoptFacts(s, p, ThreadMove(s, p, ch).value)
  {
    match s.pc[p]
    case Fork(_) | ForkGot(_) | ForkMade(_) | ForkPar(_) | ForkParGot(_) | ForkRun(_) | ForkRunGot(_) =>
    case Resumed(_) | YieldGot(_) =>
    case _ => OthersDoNotFork(s, p, ch);
  }

  lemma OthersDoNotFork(s: State, p: nat, ch: Choice)
    requires Shape(s) && p < |s.pc| && ThreadMove(s, p, ch).Some?
    requires match s.pc[p]
             case Fork(_) | ForkGot(_) | ForkMade(_) | ForkPar(_) | ForkParGot(_) | ForkRun(_) | ForkRunGot(_) => false
             case Resumed(_) | YieldGot(_) => false
             case _ => true
    ensures Adopted(ThreadMove(s, p, ch).value.next) == -1 && !ThreadMove(s, p, ch).value.next.ForkMade?
  {
  }

  lemma MoveSets(s: State, p: nat, ch: Choice)
    requires Shape(s) && p < |s.pc| && ThreadMove(s, p, ch).Some?
    ensures SetFacts(s, p, ThreadMove(s, p, ch).value)
  {
  }

  // ---------------------------------------------------------------- the invariant, step by step

  /** A ZOMBIE is past its exit. */
  lemma ZombieGone(s: State, p: nat)
    requires Core(s) && p < |s.pc| && s.st[p] == ZOMBIE
    ensures GivenAway(s.pc[p], |s.pc|) == |s.pc|
  {
    assert ProcOk(s.pc, s.st, s.home, s.at, p);
  }

  /** Nobody but a forking process and init gets children. */
  lemma FewerKids(s: State, s': State, c: nat, p: nat, m: Move, q: nat, n: nat)
    requires Shape(s) && Shape(s') && p < |s.pc| && Applied(s, s', c, p, m) && ParentFacts(s, p, m) && NoKids(s, q, n)
    requires q != INIT && (q == p ==> !s.pc[p].ForkParGot?)
    ensures NoKids(s', q, n)
  {
  }

  lemma ExitKidsKept(s: State, s': State, c: nat, p: nat, m: Move, q: nat)
    requires StepFacts(s, s', c, p, m) && KidInv(s) && LeaveFacts(s, p, m) && SetFacts(s, p, m) && q < |s.pc|
    ensures ExitKids(s', q)
  {
    assert ExitKids(s, q) && ForkOk(s.pc, s.st, p);
    if q == INIT {
      InitKept(s, s', c, p, m);
    } else {
      var n := GivenAway(s'.pc[q], |s.pc|);
      if q == p {
        ExitKidsSelf(s, s', c, p, m);
      } else {
        FewerKids(s, s', c, p, m, q, GivenAway(s.pc[q], |s.pc|));
        if s'.st[q] == UNUSED || s'.st[q] == USED {
          NewlyUnused(s, s', c, p, m, q);
          FewerKids(s, s', c, p, m, q, |s.pc|);
        }
      }
    }
  }

  lemma ExitKidsSelf(s: State, s': State, c: nat, p: nat, m: Move)
    requires StepFacts(s, s', c, p, m) && ExitKids(s, p) && LeaveFacts(s, p, m) && SetFacts(s, p, m) && p != INIT
    ensures ExitKids(s', p)
  {
    if !s.pc[p].ForkParGot? {
      FewerKids(s, s', c, p, m, p, GivenAway(s.pc[p], |s.pc|));
    }
  }

  lemma NewlyUnused(s: State, s': State, c: nat, p: nat, m: Move, q: nat)
    requires StepFacts(s, s', c, p, m) && KidInv(s) && SetFacts(s, p, m) && q < |s.pc| && q != p
    requires s'.st[q] == UNUSED || s'.st[q] == USED
    ensures NoKids(s, q, |s.pc|)
  {
    assert ExitKids(s, q) && ForkOk(s.pc, s.st, p);
    if m.up.Reap? && m.up.i == q {
      ZombieGone(s, q);
    }
  }

  lemma ScanKeptSelf(s: State, s': State, c: nat, p: nat, m: Move)
    requires StepFacts(s, s', c, p, m) && KidInv(s) && WaitInv(s) && ScanFacts(s, p, m)
    ensures ScanOk(s', p)
  {
    assert ScanOk(s, p) && GotChild(s, p);
    if s'.pc[p].WaitScan? || s'.pc[p].WaitGot? {
      assert s'.parent == s.parent;
      if s.pc[p].WaitGot? {
        assert s'.parent[s.pc[p].i] == p;
      } else if s.pc[p].WaitScan? && s.pc[p].kids && s'.pc[p].kids {
        var k: nat :| k < |s.pc| && s.parent[k] == p;
        assert s'.parent[k] == p;
      }
    }
  }

  lemma ScanKeptOther(s: State, s': State, c: nat, p: nat, m: Move, q: nat)
    requires StepFacts(s, s', c, p, m) && KidInv(s) && q < |s.pc| && q != p
    ensures ScanOk(s', q)
  {
    assert ScanOk(s, q) && ParentOk(s, p);
    if s'.pc[q].WaitScan? || s'.pc[q].WaitGot? {
      OnHome(s, q);
      HoldsWait(s, s.home[q], q, p);
      OnCpu(s, s.home[q], q);
      assert s'.parent == s.parent;
      if s.pc[q].kids {
        var k: nat :| k < |s.pc| && s.parent[k] == q;
        assert s'.parent[k] == q;
      }
    }
  }

  /** Whose parent pointer a step changes: that of the child of a fork, of a ZOMBIE that is reaped, or of a
      child of p. */
  lemma ParentChanges(s: State, s': State, c: nat, p: nat, m: Move, i: nat)
    requires StepFacts(s, s', c, p, m) && SetFacts(s, p, m) && i < |s.pc| && s'.parent[i] != s.parent[i]
    ensures s.parent[i] == p || (s.st[i] == ZOMBIE && m.up == Reap(i)) || Slot(s.pc[p]) == i
  {
  }

  lemma UnusedKept(s: State, s': State, c: nat, p: nat, m: Move, q: nat)
    requires StepFacts(s, s', c, p, m) && KidInv(s) && SetFacts(s, p, m) && q < |s.pc|
    ensures (s'.st[q] == UNUSED ==> s'.parent[q] == -1) && -1 <= s'.parent[q] < |s.pc|
  {
    assert ParentOk(s, q) && ForkOk(s.pc, s.st, p);
  }

  lemma UnusedAt(s: State, s': State, c: nat, p: nat, m: Move, q: nat)
    requires StepFacts(s, s', c, p, m) && KidInv(s) && SetFacts(s, p, m) && q < |s.pc|
    ensures UnusedOff(s'.pc[q], s'.st[q])
  {
    assert ParentOk(s, q) && ForkOk(s.pc, s.st, p) && ProcOk(s.pc, s.st, s.home, s.at, q);
  }

  lemma ForkSelf(s: State, s': State, c: nat, p: nat, m: Move)
    requires StepFacts(s, s', c, p, m) && KidInv(s) && AdoptFacts(s, p, m)
    ensures s'.pc[p].ForkMade? && s'.pc[p].i < |s.pc| ==> s'.parent[s'.pc[p].i] == -1
    ensures 0 <= Adopted(s'.pc[p]) < |s.pc| ==> s'.parent[Adopted(s'.pc[p])] == p
  {
    assert ParentOk(s, p);
    if m.up.Claim? {
      assert ParentOk(s, m.up.i);
    }
  }

  lemma ForkOther(s: State, s': State, c: nat, p: nat, m: Move, q: nat, i: nat)
    requires StepFacts(s, s', c, p, m) && KidInv(s) && SetFacts(s, p, m) && q < |s.pc| && q != p && i < |s.pc|
    requires Slot(s.pc[q]) == i && (s.parent[i] == -1 || s.parent[i] == q)
    ensures s'.parent[i] == s.parent[i]
  {
    assert ForkOk(s.pc, s.st, q) && OneFork(s.pc, q, p);
    if s'.parent[i] != s.parent[i] {
      ParentChanges(s, s', c, p, m, i);
    }
  }

  lemma ParentKept(s: State, s': State, c: nat, p: nat, m: Move, q: nat)
    requires StepFacts(s, s', c, p, m) && KidInv(s) && AdoptFacts(s, p, m) && SetFacts(s, p, m) && q < |s.pc|
    ensures ParentOk(s', q)
  {
    UnusedKept(s, s', c, p, m, q);
    UnusedAt(s, s', c, p, m, q);
    if q == p {
      ForkSelf(s, s', c, p, m);
    } else {
      assert ParentOk(s, q);
      if s'.pc[q] == s.pc[q] && 0 <= Slot(s.pc[q]) < |s.pc| && (s.pc[q].ForkMade? || Adopted(s.pc[q]) >= 0) {
        ForkOther(s, s', c, p, m, q, Slot(s.pc[q]));
      }
    }
  }

  lemma InitKept(s: State, s': State, c: nat, p: nat, m: Move)
    requires StepFacts(s, s', c, p, m) && KidInv(s) && LeaveFacts(s, p, m) && SetFacts(s, p, m)
    ensures InitLives(s')
  {
    assert ForkOk(s.pc, s.st, p);
    OnCpu(s, c, p);
  }

  lemma KidMoves(s: State, s': State, c: nat, p: nat, m: Move)
    requires StepFacts(s, s', c, p, m) && KidInv(s) && WaitInv(s)
    requires LeaveFacts(s, p, m) && ScanFacts(s, p, m) && AdoptFacts(s, p, m) && SetFacts(s, p, m)
    ensures KidInv(s')
  {
    InitKept(s, s', c, p, m);
    forall q: nat | q < |s'.pc| ensures ExitKids(s', q) {
      ExitKidsKept(s, s', c, p, m, q);
    }
    forall q: nat | q < |s'.pc| ensures ScanOk(s', q) {
      if q == p {
        ScanKeptSelf(s, s', c, p, m);
      } else {
        ScanKeptOther(s, s', c, p, m, q);
      }
    }
    forall q: nat | q < |s'.pc| ensures ParentOk(s', q) {
      ParentKept(s, s', c, p, m, q);
    }
  }

  lemma KidThread(s: State, s': State, c: nat, p: nat, ch: Choice)
    requires Core(s) && WaitInv(s) && KidInv(s) && Core(s') && ThreadStep(s, s', c, p, ch)
    ensures KidInv(s')
  {
    ThreadFits(s, c, p, ch);
    MoveUpdates(s, p, ch);
    MoveSleeps(s, p, ch);
    MoveWakes(s, p, ch);
    MoveZombies(s, p, ch);
    MoveParents(s, p, ch);
    MoveLeaves(s, p, ch);
    MoveScans(s, p, ch);
    MoveAdopts(s, p, ch);
    MoveSets(s, p, ch);
    OnCpu(s, c, p);
    KidMoves(s, s', c, p, ThreadMove(s, p, ch).value);
  }

  lemma KidScheduler(s: State, s': State, c: nat, k: nat)
    requires Core(s) && KidInv(s) && Shape(s') && SchedulerStep(s, s', c, k)
    ensures KidInv(s')
  {
    assert CpuOk(|s.pc|, s.home, s.at, c) && ProcOk(s.pc, s.st, s.home, s.at, k);
    forall q: nat | q < |s'.pc| ensures ExitKids(s', q) {
      assert ExitKids(s, q);
    }
    forall q: nat | q < |s'.pc| ensures ScanOk(s', q) {
      assert ScanOk(s, q);
      if s'.pc[q].WaitScan? || s'.pc[q].WaitGot? {
        assert s'.parent == s.parent;
        if s.pc[q].kids {
          var j: nat :| j < |s.pc| && s.parent[j] == q;
          assert s'.parent[j] == q;
        }
      }
    }
    forall q: nat | q < |s'.pc| ensures ParentOk(s', q) {
      assert ParentOk(s, q);
    }
  }

  lemma KidNext(s: State, s': State)
    requires Inv(s) && KidInv(s) && Next(s, s')
    ensures KidInv(s')
  {
    NextInv(s, s');
    if c, p, ch :| ThreadStep(s, s', c, p, ch) {
      KidThread(s, s', c, p, ch);
    } else {
      var c, k :| SchedulerStep(s, s', c, k);
      KidScheduler(s, s', c, k);
    }
  }

  lemma KidInit(s: State)
    requires Init(s)
    ensures KidInv(s)
  {
    forall p: nat | p < |s.pc| ensures ExitKids(s, p) && ScanOk(s, p) && ParentOk(s, p) {
      assert s.parent[p] == -1;
    }
  }

  lemma {:induction false} KidRun(t: seq<State>, i: nat, s: State)
    requires RunTo(t, i, s)
    ensures KidInv(s)
  {
    if i == 0 {
      KidInit(s);
    } else {
      var before := t[i - 1];
      KidRun(t, i - 1, before);
      RunInv(t, i - 1, before);
      assert StepIn(t, i - 1);
      KidNext(before, s);
    }
  }

  lemma KidReachable(s: State)
    requires Reachable(s)
    ensures KidInv(s)
  {
    var t, i: nat :| RunTo(t, i, s);
    KidRun(t, i, s);
  }

  // ---------------------------------------------------------------- what holds in every run

  /** Nobody is an orphan: the parent of a process is alive, so after an exit it is init. */
  lemma ParentLives(s: State, k: nat)
    requires Reachable(s) && Shape(s) && k < |s.pc| && s.parent[k] != -1
    ensures 0 <= s.parent[k] < |s.pc|
    ensures s.st[s.parent[k]] == SLEEPING || s.st[s.parent[k]] == RUNNABLE || s.st[s.parent[k]] == RUNNING
  {
    ReachableInv(s);
    KidReachable(s);
    assert ParentOk(s, k);
    var q := s.parent[k];
    assert ExitKids(s, q);
    if s.st[q] == ZOMBIE {
      ZombieGone(s, q);
    }
  }

  /** Process p returns -1 from wait in this step, or goes to sleep in it. */
  predicate WaitFails(s: State, s': State, p: nat) {
    p < |s.pc| == |s'.pc| && s.pc[p].WaitScan? && s'.pc[p] == Kernel
  }

  predicate WaitSleeps(s: State, s': State, p: nat) {
    p < |s.pc| == |s'.pc| && s.pc[p].WaitScan? && s'.pc[p] == SleepCall(W)
  }

  ghost predicate EndFacts(s: State, p: nat, m: Move)
    requires Shape(s) && p < |s.pc|
  {
    s.pc[p].WaitScan? && (m.next == Kernel || m.next == SleepCall(W)) ==>
      && s.pc[p].i >= |s.pc|
      && (m.next == Kernel <==> !s.pc[p].kids || s.killed[p])
  }

  lemma MoveEnds(s: State, p: nat, ch: Choice)
    requires Shape(s) && p < |s.pc| && ThreadMove(s, p, ch).Some?
    ensures EndFacts(s, p, ThreadMove(s, p, ch).value)
  {
  }

  lemma ScanIsOver(s: State, p: nat)
    requires Inv(s) && KidInv(s) && p < |s.pc| && s.pc[p].WaitScan? && s.pc[p].i >= |s.pc|
    ensures s.pc[p].kids <==> HasKid(s, p)
    ensures forall k: nat {:trigger s.parent[k]} :: k < |s.pc| && s.parent[k] == p ==> s.st[k] != ZOMBIE
  {
    assert ScanOk(s, p);
    forall k: nat | k < |s.pc| && s.parent[k] == p ensures s.st[k] != ZOMBIE {
      assert ChildOk(s, p, k);
    }
  }

  /** wait gives up exactly if the caller has no children or is killed; otherwise it sleeps, and none of the
      children is a ZOMBIE. */
  lemma WaitGivesUp(s: State, s': State, p: nat)
    requires Reachable(s) && Shape(s) && Next(s, s') && (WaitFails(s, s', p) || WaitSleeps(s, s', p))
    ensures WaitFails(s, s', p) <==> !HasKid(s, p) || s.killed[p]
    ensures forall k: nat {:trigger s.parent[k]} :: k < |s.pc| && s.parent[k] == p ==> s.st[k] != ZOMBIE
  {
    ReachableInv(s);
    KidReachable(s);
    var c, ch := OwnStep(s, s', p);
    MoveEnds(s, p, ch);
    ScanIsOver(s, p);
  }
}
