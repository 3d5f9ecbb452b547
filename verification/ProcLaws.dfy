/** What the calls of kernel/proc.c and kernel/sleeplock.c promise to those who make them, told in the program
    points and the process table of whole runs. */
module ProcLaws {
  import opened ProcMachine
  import opened ProcLocks
  import opened ProcCore
  import opened ProcSleep
  import opened ProcWait
  import opened ProcRuns
  import opened ProcFamily

  // ---------------------------------------------------------------- where a thread can go

  /** A context switch keeps the continuation. */
  predicate Switched(pc: Pc, pc': Pc) {
    (pc.Off? && pc' == Resumed(pc.k)) || (pc.Sched? && pc' == Off(pc.k))
  }

  ghost predicate TakesStep(s: State, s': State, p: nat)
    requires Shape(s)
  {
    exists c, ch :: ThreadStep(s, s', c, p, ch)
  }

  /** A thread in use stands still, is switched on or off a CPU, or takes a step of its own. */
  lemma PcSteps(s: State, s': State, p: nat)
    requires Inv(s) && Next(s, s') && p < |s.pc| && s.st[p] != UNUSED
    ensures p < |s'.pc| && (s'.pc[p] == s.pc[p] || Switched(s.pc[p], s'.pc[p]) || TakesStep(s, s', p))
  {
    if c, q, ch :| ThreadStep(s, s', c, q, ch) {
      if q != p {
        ThreadFits(s, c, q, ch);
      }
    } else {
      var c, k :| SchedulerStep(s, s', c, k);
      assert CpuOk(|s.pc|, s.home, s.at, c);
    }
  }

  /** The same of a thread that is not where those of free slots are. */
  lemma ReachSteps(s: State, s': State, p: nat)
    requires Reachable(s) && Shape(s) && Next(s, s') && p < |s.pc|
    requires s.pc[p] != Off(Never) && s.pc[p] != Off(AfterYield(InKernel))
    ensures p < |s'.pc| && (s'.pc[p] == s.pc[p] || Switched(s.pc[p], s'.pc[p]) || TakesStep(s, s', p))
  {
    ReachableInv(s);
    KidReachable(s);
    assert ParentOk(s, p);
    PcSteps(s, s', p);
  }

  lemma OwnTakes(s: State, s': State, p: nat)
    requires Shape(s) && Next(s, s') && p < |s.pc| == |s'.pc| && s'.pc[p] != s.pc[p]
    requires !s'.pc[p].Off? && !s'.pc[p].Resumed?
    ensures TakesStep(s, s', p)
  {
    var c, ch := OwnStep(s, s', p);
  }

  // ---------------------------------------------------------------- sleep locks

  /** The thread is waiting in a sleep(..., lk) call, an interrupt on its way back included. */
  predicate InSleep(pc: Pc, lk: Lock) {
    match pc
    case SleepCall(x) => x == lk
    case SleepGot(x) => x == lk
    case SleepRel(x) => x == lk
    case Relock(x) => x == lk
    case YieldGot(at) => at == InRelock(lk)
    case Sched(k) => k == AfterSleep(lk) || k == AfterYield(InRelock(lk))
    case Off(k) => k == AfterSleep(lk) || k == AfterYield(InRelock(lk))
    case Resumed(k) => k == AfterSleep(lk) || k == AfterYield(InRelock(lk))
    case _ => false
  }

  /** The thread is inside acquiresleep(l), inside releasesleep(l). */
  predicate InAcquire(pc: Pc, l: nat) {
    pc == AcqCheck(l) || InSleep(pc, S(l))
  }

  predicate InRelease(pc: Pc, l: nat) {
    match pc
    case RelGot(x) => x == l
    case RelEnd(x) => x == l
    case Wake(_, _, b) => b == ThenRel(l)
    case WakeGot(_, _, b) => b == ThenRel(l)
    case _ => false
  }

  /** Process p returns from acquiresleep(l) in this step. */
  predicate Acquires(s: State, s': State, p: nat, l: nat) {
    p < |s.pc| == |s'.pc| && InAcquire(s.pc[p], l) && !InAcquire(s'.pc[p], l)
  }

  /** Process p finds sleep lock l taken and goes to sleep. */
  predicate Blocks(s: State, s': State, p: nat, l: nat) {
    p < |s.pc| == |s'.pc| && s.pc[p] == AcqCheck(l) && InSleep(s'.pc[p], S(l))
  }

  /** Process p gives sleep lock l up, in releasesleep. */
  predicate Releases(s: State, s': State, p: nat, l: nat) {
    p < |s.pc| == |s'.pc| && s.pc[p] == RelGot(l) && s'.pc[p].Wake?
  }

  ghost predicate SomeoneAcquires(s: State, s': State, l: nat) {
    exists p: nat :: Acquires(s, s', p, l)
  }

  ghost predicate SomeoneReleases(s: State, s': State, l: nat) {
    exists p: nat :: Releases(s, s', p, l)
  }

  ghost predicate LockFacts(s: State, p: nat, m: Move)
    requires Shape(s) && p < |s.pc|
  {
    && (m.up.SetLocked? ==>
          if m.up.b then s.pc[p] == AcqCheck(m.up.l) && m.next == Kernel
          else s.pc[p] == RelGot(m.up.l) && m.next.Wake?)
    && (s.pc[p].RelGot? ==> m.up == SetLocked(s.pc[p].l, false))
    && (s.pc[p].AcqCheck? ==>
          && s.pc[p].l < |s.locked|
          && if s.locked[s.pc[p].l] then m.next == SleepCall(S(s.pc[p].l)) && m.up == Keep
             else m.next == Kernel && m.up == SetLocked(s.pc[p].l, true))
  }

  lemma MoveTakes(s: State, p: nat, ch: Choice)
    requires Shape(s) && p < |s.pc| && ThreadMove(s, p, ch).Some?
    ensures LockFacts(s, p, ThreadMove(s, p, ch).value)
  {
  }

  /** A call of sleep goes on to its caller's check. */
  lemma MoveWaitsOn(s: State, p: nat, ch: Choice, lk: Lock)
    requires Shape(s) && p < |s.pc| && ThreadMove(s, p, ch).Some? && InSleep(s.pc[p], lk) && lk != P(p)
    ensures var m := ThreadMove(s, p, ch).value; InSleep(m.next, lk) || (m.next == Recheck(lk) && m.g == Gain(lk))
  {
  }

  ghost predicate AcquireFacts(s: State, p: nat, m: Move, l: nat)
    requires Shape(s) && p < |s.pc|
  {
    && LockFacts(s, p, m)
    && (InSleep(s.pc[p], S(l)) ==> InSleep(m.next, S(l)) || m.next == AcqCheck(l))
  }

  lemma AcquireStep(s: State, s': State, p: nat, l: nat) returns (c: nat, m: Move)
    requires Shape(s) && p < |s.pc| && TakesStep(s, s', p)
    ensures Applied(s, s', c, p, m) && AcquireFacts(s, p, m, l)
  {
    var d, ch :| ThreadStep(s, s', d, p, ch);
    MoveTakes(s, p, ch);
    if InSleep(s.pc[p], S(l)) {
      MoveWaitsOn(s, p, ch, S(l));
    }
    c, m := d, ThreadMove(s, p, ch).value;
  }

  lemma AcquireByMove(s: State, s': State, c: nat, p: nat, m: Move, l: nat)
    requires Shape(s) && p < |s.pc| && AcquireFacts(s, p, m, l) && Applied(s, s', c, p, m)
    requires Acquires(s, s', p, l) || Blocks(s, s', p, l)
    ensures l < |s.locked| == |s'.locked| && (s.locked[l] <==> Blocks(s, s', p, l)) && s'.locked[l]
    ensures Acquires(s, s', p, l) ==> s.pc[p] == AcqCheck(l) && s'.pc[p] == Kernel
  {
  }

  lemma SwitchStaysIn(s: State, s': State, p: nat, l: nat)
    requires Acquires(s, s', p, l) || Blocks(s, s', p, l)
    ensures s'.pc[p] != s.pc[p] && !Switched(s.pc[p], s'.pc[p])
    ensures s.pc[p] != Off(Never) && s.pc[p] != Off(AfterYield(InKernel))
  {
  }

  /** acquiresleep returns only from its check, with a lock that it found free, and sleeps only on one that is
      taken. */
  lemma AcquireLocks(s: State, s': State, p: nat, l: nat)
    requires Reachable(s) && Shape(s) && Next(s, s') && (Acquires(s, s', p, l) || Blocks(s, s', p, l))
    ensures l < |s.locked| == |s'.locked| && (s.locked[l] <==> Blocks(s, s', p, l)) && s'.locked[l]
    ensures Acquires(s, s', p, l) ==> s.pc[p] == AcqCheck(l) && s'.pc[p] == Kernel
  {
    SwitchStaysIn(s, s', p, l);
    ReachSteps(s, s', p);
    var c, m := AcquireStep(s, s', p, l);
    AcquireByMove(s, s', c, p, m, l);
  }

  lemma LockedByMove(s: State, s': State, c: nat, p: nat, m: Move, l: nat)
    requires Shape(s) && p < |s.pc| && LockFacts(s, p, m) && Applied(s, s', c, p, m) && l < |s'.locked|
    ensures |s'.locked| == |s.locked|
    ensures s.locked[l] && !s'.locked[l] ==> Releases(s, s', p, l)
    ensures !s.locked[l] && s'.locked[l] ==> Acquires(s, s', p, l)
    ensures forall q: nat :: Releases(s, s', q, l) ==> !s'.locked[l]
  {
    forall q: nat | Releases(s, s', q, l) ensures !s'.locked[l] {
      if q != p {
        OthersStand(s, s', c, p, m, q);
      }
    }
  }

  lemma LockedChanges(s: State, s': State, l: nat)
    requires Shape(s) && Next(s, s') && l < |s'.locked|
    ensures |s'.locked| == |s.locked|
    ensures s.locked[l] && !s'.locked[l] ==> SomeoneReleases(s, s', l)
    ensures !s.locked[l] && s'.locked[l] ==> SomeoneAcquires(s, s', l)
    ensures SomeoneReleases(s, s', l) ==> !s'.locked[l]
  {
    if c, p, ch :| ThreadStep(s, s', c, p, ch) {
      MoveTakes(s, p, ch);
      LockedByMove(s, s', c, p, ThreadMove(s, p, ch).value, l);
    }
  }

  lemma LockedNext(t: seq<State>, l: nat, j: nat)
    requires IsRun(t) && 0 < j < |t| && l < |t[j].locked|
    ensures |t[j - 1].locked| == |t[j].locked|
    ensures t[j - 1].locked[l] && !t[j].locked[l] ==> SomeoneReleases(t[j - 1], t[j], l)
    ensures !t[j - 1].locked[l] && t[j].locked[l] ==> SomeoneAcquires(t[j - 1], t[j], l)
    ensures SomeoneReleases(t[j - 1], t[j], l) ==> !t[j].locked[l]
  {
    assert StepIn(t, j - 1);
    LockedChanges(t[j - 1], t[j], l);
  }

  /** Taken at i and free at j: it was given up in between. */
  lemma {:induction false} GivenUp(t: seq<State>, l: nat, i: nat, j: nat) returns (k: nat)
    requires IsRun(t) && i <= j < |t| && l < |t[i].locked| && l < |t[j].locked| && t[i].locked[l] && !t[j].locked[l]
    ensures i <= k < j && SomeoneReleases(t[k], t[k + 1], l)
  {
    LockedNext(t, l, j);
    if t[j - 1].locked[l] {
      k := j - 1;
    } else {
      k := GivenUp(t, l, i, j - 1);
    }
  }

  /** Mutual exclusion of sleep locks: between two returns from acquiresleep(l), whoever makes the calls, the lock
      is given up in releasesleep(l). */
  lemma SleepLockExcludes(t: seq<State>, l: nat, p: nat, i: nat, q: nat, j: nat) returns (k: nat)
    requires IsRun(t) && i < j && j + 1 < |t| && Acquires(t[i], t[i + 1], p, l) && Acquires(t[j], t[j + 1], q, l)
    ensures i < k < j && SomeoneReleases(t[k], t[k + 1], l)
  {
    assert StepIn(t, i) && StepIn(t, j);
    RunReaches(t, i);
    RunReaches(t, j);
    AcquireLocks(t[i], t[i + 1], p, l);
    AcquireLocks(t[j], t[j + 1], q, l);
    k := GivenUp(t, l, i + 1, j);
  }

  ghost predicate NotReleased(t: seq<State>, l: nat, k: nat) {
    k + 1 < |t| && !SomeoneReleases(t[k], t[k + 1], l)
  }

  lemma {:induction false} TakenSince(t: seq<State>, l: nat, j: nat) returns (i: nat)
    requires IsRun(t) && j < |t| && l < |t[j].locked| && t[j].locked[l]
    ensures i < j && SomeoneAcquires(t[i], t[i + 1], l)
    ensures forall k: nat {:trigger NotReleased(t, l, k)} :: i < k < j ==> NotReleased(t, l, k)
  {
    assert j > 0;
    LockedNext(t, l, j);
    if t[j - 1].locked[l] {
      i := TakenSince(t, l, j - 1);
    } else {
      i := j - 1;
    }
  }

  /** acquiresleep sleeps only on a lock that somebody took and nobody gave up since. */
  lemma BlocksOnlyIfTaken(t: seq<State>, l: nat, p: nat, j: nat) returns (i: nat)
    requires IsRun(t) && j + 1 < |t| && Blocks(t[j], t[j + 1], p, l)
    ensures i < j && SomeoneAcquires(t[i], t[i + 1], l)
    ensures forall k: nat {:trigger NotReleased(t, l, k)} :: i < k < j ==> NotReleased(t, l, k)
  {
    assert StepIn(t, j);
    RunReaches(t, j);
    AcquireLocks(t[j], t[j + 1], p, l);
    i := TakenSince(t, l, j);
  }

  ghost predicate ReleaseFacts(s: State, p: nat, m: Move)
    requires Shape(s) && p < |s.pc|
  {
    forall l: nat {:trigger InRelease(m.next, l)} :: InRelease(m.next, l) && !InRelease(s.pc[p], l) ==>
      m.next == RelGot(l)
  }

  lemma MoveReleases(s: State, p: nat, ch: Choice)
    requires Shape(s) && p < |s.pc| && ThreadMove(s, p, ch).Some?
    ensures ReleaseFacts(s, p, ThreadMove(s, p, ch).value)
  {
  }

  /** A call of releasesleep gives the lock up first. */
  lemma ReleaseStarts(s: State, s': State, p: nat, l: nat)
    requires Shape(s) && Next(s, s') && p < |s.pc| == |s'.pc| && InRelease(s'.pc[p], l) && !InRelease(s.pc[p], l)
    ensures s'.pc[p] == RelGot(l)
  {
    var c, ch := OwnStep(s, s', p);
    MoveReleases(s, p, ch);
  }

  // ---------------------------------------------------------------- wait and exit

  /** The thread is inside wait. */
  predicate InWait(pc: Pc) {
    pc.WaitScan? || pc.WaitGot? || pc.WaitEnd? || InSleep(pc, W)
  }

  /** A child was reaped: its slot is free and its pid is the result. */
  ghost predicate Reaped(s: State, s': State, k: nat)
    requires Shape(s)
  {
    && k < |s.pc| && s'.st == s.st[k := UNUSED] && s'.parent == s.parent[k := -1]
    && s'.pid == s.pid[k := 0] && s'.killed == s.killed[k := false] && s'.reaped == s.reaped + {s.pid[k]}
  }

  ghost predicate ReturnFacts(s: State, p: nat, m: Move)
    requires Shape(s) && p < |s.pc|
  {
    var pc := s.pc[p];
    && (InWait(pc) && !InWait(m.next) ==> m.next == Kernel && (pc.WaitScan? || pc.WaitEnd?) && m.up == Keep)
    && (m.next.WaitEnd? ==>
          && pc.WaitGot? && pc.i < |s.pc| && s.st[pc.i] == ZOMBIE
          && (m.up == Reap(pc.i) || m.up == Keep))
  }

  lemma MoveReturns(s: State, p: nat, ch: Choice)
    requires Shape(s) && p < |s.pc| && ThreadMove(s, p, ch).Some?
    ensures ReturnFacts(s, p, ThreadMove(s, p, ch).value)
  {
  }

  lemma ReturnStep(s: State, s': State, p: nat) returns (c: nat, m: Move)
    requires Shape(s) && p < |s.pc| && TakesStep(s, s', p)
    ensures Applied(s, s', c, p, m) && ReturnFacts(s, p, m)
  {
    var d, ch :| ThreadStep(s, s', d, p, ch);
    MoveReturns(s, p, ch);
    c, m := d, ThreadMove(s, p, ch).value;
  }

  lemma InWaitSwitched(pc: Pc, pc': Pc)
    requires InWait(pc) && !InWait(pc')
    ensures pc' != pc && !Switched(pc, pc') && pc != Off(Never) && pc != Off(AfterYield(InKernel))
  {
  }

  lemma ReturnByMove(s: State, s': State, c: nat, p: nat, m: Move)
    requires Shape(s) && p < |s.pc| == |s'.pc| && ReturnFacts(s, p, m) && Applied(s, s', c, p, m)
    requires InWait(s.pc[p]) && !InWait(s'.pc[p])
    ensures s'.pc[p] == Kernel && (s.pc[p].WaitEnd? || WaitFails(s, s', p))
  {
  }

  /** wait returns in two ways only: it gives up, as in WaitGivesUp, or it has come to its end. */
  lemma WaitReturns(s: State, s': State, p: nat)
    requires Reachable(s) && Shape(s) && Next(s, s') && p < |s.pc| == |s'.pc| && InWait(s.pc[p]) && !InWait(s'.pc[p])
    ensures s'.pc[p] == Kernel && (s.pc[p].WaitEnd? || WaitFails(s, s', p))
  {
    InWaitSwitched(s.pc[p], s'.pc[p]);
    ReachSteps(s, s', p);
    var c, m := ReturnStep(s, s', p);
    ReturnByMove(s, s', c, p, m);
  }

  /** wait comes to its end only with a ZOMBIE child of the caller, which it reaps unless the copy of its exit
      status failed; then the child stays. */
  lemma WaitEnds(s: State, s': State, p: nat)
    requires Reachable(s) && Shape(s) && Next(s, s') && p < |s.pc| == |s'.pc|
    requires !s.pc[p].WaitEnd? && s'.pc[p].WaitEnd?
    ensures s.pc[p].WaitGot? && s.pc[p].i < |s.pc| && s.parent[s.pc[p].i] == p && s.st[s.pc[p].i] == ZOMBIE
    ensures Reaped(s, s', s.pc[p].i) || (s'.st == s.st && s'.parent == s.parent && s'.reaped == s.reaped)
  {
    OwnTakes(s, s', p);
    var c, m := ReturnStep(s, s', p);
    ReachableInv(s);
    assert GotChild(s, p);
  }

  /** The thread is inside exit, or has left the CPU in it. */
  predicate InLeaving(pc: Pc) {
    match pc
    case Reparent(_) | ExitLock | ExitGot => true
    case Wake(_, _, b) => !b.ThenRel?
    case WakeGot(_, _, b) => !b.ThenRel?
    case Sched(k) => k == Never
    case Off(k) => k == Never
    case _ => false
  }

  lemma MoveLeaving(s: State, p: nat, ch: Choice)
    requires Shape(s) && p < |s.pc| && ThreadMove(s, p, ch).Some? && InLeaving(s.pc[p])
    ensures InLeaving(ThreadMove(s, p, ch).value.next)
  {
  }

  /** exit never returns: the process stays in it, and is a ZOMBIE from when it leaves the CPU until it is
      reaped. */
  lemma ExitIsFinal(s: State, s': State, p: nat)
    requires Reachable(s) && Shape(s) && Next(s, s') && p < |s.pc| && s.st[p] != UNUSED && InLeaving(s.pc[p])
    ensures p < |s'.pc| && InLeaving(s'.pc[p]) && (s.pc[p].Off? ==> s.st[p] == ZOMBIE)
  {
    ReachableInv(s);
    KidReachable(s);
    assert ParentOk(s, p);
    LeavingStays(s, s', p);
  }

  lemma ClaimsUnused(s: State, s': State, c: nat, q: nat, m: Move, p: nat)
    requires Shape(s) && p < |s.pc| && q < |s.pc| && q != p && Fits(s, q, m) && Applied(s, s', c, q, m)
    ensures s'.pc[p] == s.pc[p] || s.st[p] == UNUSED
  {
  }

  lemma LeavingThread(s: State, s': State, c: nat, q: nat, ch: Choice, p: nat)
    requires Core(s) && ThreadStep(s, s', c, q, ch) && p < |s.pc| && s.st[p] != UNUSED && InLeaving(s.pc[p])
    ensures p < |s'.pc| && InLeaving(s'.pc[p])
  {
    if q == p {
      MoveLeaving(s, p, ch);
    } else {
      ThreadFits(s, c, q, ch);
      ClaimsUnused(s, s', c, q, ThreadMove(s, q, ch).value, p);
    }
  }

  lemma LeavingScheduler(s: State, s': State, c: nat, k: nat, p: nat)
    requires Core(s) && SchedulerStep(s, s', c, k) && p < |s.pc| && InLeaving(s.pc[p])
    ensures p < |s'.pc| && InLeaving(s'.pc[p])
  {
    assert ProcOk(s.pc, s.st, s.home, s.at, p) && CpuOk(|s.pc|, s.home, s.at, c);
  }

  lemma LeavingStays(s: State, s': State, p: nat)
    requires Core(s) && Next(s, s') && p < |s.pc| && s.st[p] != UNUSED && s.st[p] != USED && InLeaving(s.pc[p])
    ensures p < |s'.pc| && InLeaving(s'.pc[p]) && (s.pc[p].Off? ==> s.st[p] == ZOMBIE)
  {
    assert ProcOk(s.pc, s.st, s.home, s.at, p);
    if c, q, ch :| ThreadStep(s, s', c, q, ch) {
      LeavingThread(s, s', c, q, ch, p);
    } else {
      var c, k :| SchedulerStep(s, s', c, k);
      LeavingScheduler(s, s', c, k, p);
    }
  }

  // ---------------------------------------------------------------- kill

  ghost predicate KillFacts(s: State, p: nat, m: Move)
    requires Shape(s) && p < |s.pc|
  {
    var pc := s.pc[p];
    && (m.up.MarkKilled? ==> pc.KillGot? && pc.i == m.up.i < |s.pc| && s.pid[pc.i] == pc.target)
    && (pc.KillGot? && m.next == Kernel ==> pc.i < |s.pc| && m.up == MarkKilled(pc.i, s.st[pc.i] == SLEEPING))
    && (m.next.Kill? && m.next.i > 0 && !pc.Resumed? ==>
          pc == KillGot(m.next.i - 1, m.next.target) && m.next.i - 1 < |s.pc| && s.pid[m.next.i - 1] != m.next.target)
    && (pc.Kill? && m.next == Kernel ==> pc.i >= |s.pc|)
  }

  lemma MoveKills(s: State, p: nat, ch: Choice)
    requires Shape(s) && p < |s.pc| && ThreadMove(s, p, ch).Some?
    ensures KillFacts(s, p, ThreadMove(s, p, ch).value)
  {
  }

  /** kill(x) that returns 0 found a process with pid x, which is then marked and not asleep; nobody else is
      touched. */
  lemma KillHits(s: State, s': State, p: nat, i: nat, x: nat)
    requires Shape(s) && Next(s, s') && p < |s.pc| == |s'.pc| && s.pc[p] == KillGot(i, x) && s'.pc[p] == Kernel
    ensures Shape(s') && i < |s.pc| && s.pid[i] == s'.pid[i] == x && s'.killed == s.killed[i := true]
    ensures s'.st[i] != SLEEPING && s'.st == s.st[i := s'.st[i]] && (s.st[i] != SLEEPING ==> s'.st == s.st)
  {
    var c, ch := OwnStep(s, s', p);
    MoveKills(s, p, ch);
  }

  /** kill(x) passes over a slot only if its pid is another, and returns -1 only at the end of the table. */
  lemma KillPasses(s: State, s': State, p: nat, i: nat, x: nat)
    requires Shape(s) && Next(s, s') && p < |s.pc| == |s'.pc|
    ensures s.pc[p] == KillGot(i, x) && s'.pc[p] == Kill(i + 1, x) ==> i < |s.pc| && s.pid[i] != x
    ensures s.pc[p] == Kill(i, x) && s'.pc[p] == Kernel ==> i >= |s.pc|
  {
    if s.pc[p].KillGot? || s.pc[p].Kill? {
      if s'.pc[p] == Kernel || s'.pc[p] == Kill(i + 1, x) {
        if s'.pc[p] != s.pc[p] {
          var c, ch := OwnStep(s, s', p);
          MoveKills(s, p, ch);
        }
      }
    }
  }

  /** Only kill marks a process, and the mark stays until its slot is freed. */
  lemma KilledStays(s: State, s': State, i: nat)
    requires Shape(s) && Next(s, s') && i < |s.pc|
    ensures |s'.killed| == |s'.st| == |s.pc|
    ensures s.killed[i] && !s'.killed[i] ==> s'.st[i] == UNUSED
    ensures !s.killed[i] && s'.killed[i] ==> exists p: nat :: p < |s.pc| && s.pc[p] == KillGot(i, s.pid[i])
  {
    if c, p, ch :| ThreadStep(s, s', c, p, ch) {
      MoveKills(s, p, ch);
      KilledByMove(s, s', c, p, ThreadMove(s, p, ch).value, i);
    }
  }

  lemma KilledByMove(s: State, s': State, c: nat, p: nat, m: Move, i: nat)
    requires Shape(s) && p < |s.pc| && i < |s.pc| && KillFacts(s, p, m) && Applied(s, s', c, p, m)
    ensures |s'.killed| == |s'.st| == |s.pc| && (s.killed[i] && !s'.killed[i] ==> s'.st[i] == UNUSED)
    ensures !s.killed[i] && s'.killed[i] ==> s.pc[p] == KillGot(i, s.pid[i])
  {
  }

  // ---------------------------------------------------------------- fork

  /** The thread is inside fork, or interrupted in it. */
  predicate InForkCall(pc: Pc) {
    match pc
    case Fork(_) | ForkGot(_) | ForkMade(_) | ForkPar(_) | ForkParGot(_) | ForkRun(_) | ForkRunGot(_) => true
    case YieldGot(at) => at.InFork? || at.InForkPar? || at.InForkRun?
    case Sched(AfterYield(at)) => at.InFork? || at.InForkPar? || at.InForkRun?
    case Off(AfterYield(at)) => at.InFork? || at.InForkPar? || at.InForkRun?
    case Resumed(AfterYield(at)) => at.InFork? || at.InForkPar? || at.InForkRun?
    case _ => false
  }

  ghost predicate ForkFacts(s: State, p: nat, m: Move)
    requires Shape(s) && p < |s.pc|
  {
    var pc := s.pc[p];
    && (InForkCall(pc) && !InForkCall(m.next) ==>
          && m.next == Kernel
          && (|| (pc.ForkRunGot? && m.up == SetState(pc.i, RUNNABLE))
              || (pc.ForkMade? && m.up == Free(pc.i))
              || (pc.Fork? && pc.i >= |s.pc| && m.up == Keep)))
    && (pc.ForkGot? && m.next.Fork? ==> m.next == Fork(pc.i + 1) && pc.i < |s.pc| && s.st[pc.i] != UNUSED)
  }

  lemma MoveForks(s: State, p: nat, ch: Choice)
    requires Shape(s) && p < |s.pc| && ThreadMove(s, p, ch).Some?
    ensures ForkFacts(s, p, ThreadMove(s, p, ch).value)
  {
    match s.pc[p]
    case Fork(_) | ForkGot(_) | ForkMade(_) | ForkPar(_) | ForkParGot(_) | ForkRun(_) | ForkRunGot(_) =>
    case YieldGot(_) | Resumed(_) =>
    case _ =>
  }

  lemma ForkStep(s: State, s': State, p: nat) returns (c: nat, m: Move)
    requires Shape(s) && p < |s.pc| && TakesStep(s, s', p)
    ensures Applied(s, s', c, p, m) && ForkFacts(s, p, m)
  {
    var d, ch :| ThreadStep(s, s', d, p, ch);
    MoveForks(s, p, ch);
    c, m := d, ThreadMove(s, p, ch).value;
  }

  /** fork returns with a child, as in ForkMakesChild; or it fails, with the slot it had claimed given back; or it
      has come to the end of the table. */
  lemma ForkReturns(s: State, s': State, p: nat)
    requires Reachable(s) && Shape(s) && Next(s, s') && p < |s.pc| == |s'.pc|
    requires InForkCall(s.pc[p]) && !InForkCall(s'.pc[p])
    ensures s'.pc[p] == Kernel && ForkEnd(s, s', p)
  {
    InForkSwitched(s.pc[p], s'.pc[p]);
    ReachSteps(s, s', p);
    var c, m := ForkStep(s, s', p);
    ReachableInv(s);
    assert ForkOk(s.pc, s.st, p);
    ForkEnds(s, s', c, p, m);
  }

  lemma InForkSwitched(pc: Pc, pc': Pc)
    requires InForkCall(pc) && !InForkCall(pc')
    ensures pc' != pc && !Switched(pc, pc') && pc != Off(Never) && pc != Off(AfterYield(InKernel))
  {
  }

  ghost predicate ForkEnd(s: State, s': State, p: nat)
    requires Shape(s) && p < |s.pc|
  {
    match s.pc[p]
    case ForkRunGot(i) => true
    case ForkMade(i) => i < |s.pc| && s'.st == s.st[i := UNUSED] && s'.pid == s.pid[i := 0]
    case Fork(i) => i >= |s.pc| && s'.st == s.st
    case _ => false
  }

  lemma ForkEnds(s: State, s': State, c: nat, p: nat, m: Move)
    requires Shape(s) && p < |s.pc| == |s'.pc| && ForkOk(s.pc, s.st, p) && ForkFacts(s, p, m) && Applied(s, s', c, p, m)
    requires InForkCall(s.pc[p]) && !InForkCall(s'.pc[p])
    ensures s'.pc[p] == Kernel && ForkEnd(s, s', p)
  {
  }

  /** fork passes over a slot only if it is in use. */
  lemma ForkPasses(s: State, s': State, p: nat, i: nat)
    requires Shape(s) && Next(s, s') && p < |s.pc| == |s'.pc| && s.pc[p] == ForkGot(i) && s'.pc[p].Fork?
    ensures s'.pc[p] == Fork(i + 1) && i < |s.pc| && s.st[i] != UNUSED
  {
    var c, ch := OwnStep(s, s', p);
    MoveForks(s, p, ch);
  }

  /** The child of a fork that is about to return. */
  lemma ChildOfFork(s: State, p: nat, i: nat)
    requires Inv(s) && KidInv(s) && p < |s.pc| && s.pc[p] == ForkRunGot(i)
    ensures i < |s.pc| && i != p && s.st[i] == USED && s.parent[i] == p && s.pc[i] == Off(AfterYield(InKernel))
    ensures s.pid[i] > 0 && s.pid[i] !in s.reaped
    ensures forall q: nat {:trigger s.pid[q]} :: q < |s.pc| && q != i && s.st[q] != UNUSED ==> s.pid[q] != s.pid[i]
  {
    assert ForkOk(s.pc, s.st, p) && ParentOk(s, p) && PidOk(s, i);
    forall q: nat | q < |s.pc| && q != i && s.st[q] != UNUSED ensures s.pid[q] != s.pid[i] {
      assert PidsDiffer(s, q, i);
    }
  }

  lemma ForkByMove(s: State, s': State, c: nat, p: nat, m: Move, i: nat)
    requires Shape(s) && p < |s.pc| && i < |s.pc| && i != p && ForkFacts(s, p, m) && Applied(s, s', c, p, m)
    requires s.pc[p] == ForkRunGot(i) && s'.pc[p] == Kernel
    ensures s'.st == s.st[i := RUNNABLE] && s'.parent == s.parent && s'.pid == s.pid && s'.pc[i] == s.pc[i]
  {
  }

  /** fork returns with a child of the caller that can run and starts in the kernel, and whose pid is nobody else's
      and was never returned by wait. */
  lemma ForkMakesChild(s: State, s': State, p: nat, i: nat)
    requires Reachable(s) && Shape(s) && Next(s, s') && p < |s.pc| == |s'.pc|
    requires s.pc[p] == ForkRunGot(i) && s'.pc[p] == Kernel
    ensures i < |s.pc| && i != p && s.st[i] == USED && s'.st == s.st[i := RUNNABLE]
    ensures s'.parent == s.parent && s.parent[i] == p && s'.pc[i] == Off(AfterYield(InKernel))
    ensures s'.pid == s.pid && s.pid[i] > 0 && s.pid[i] !in s.reaped
    ensures forall q: nat {:trigger s.pid[q]} :: q < |s.pc| && q != i && s.st[q] != UNUSED ==> s.pid[q] != s.pid[i]
  {
    OwnTakes(s, s', p);
    var c, m := ForkStep(s, s', p);
    ReachableInv(s);
    KidReachable(s);
    ChildOfFork(s, p, i);
    ForkByMove(s, s', c, p, m, i);
  }

  // ---------------------------------------------------------------- timer interrupts

  /** The thread is inside a yield that an interrupt at point `at` began. */
  predicate Away(pc: Pc, at: Point) {
    pc == YieldGot(at) || pc == Sched(AfterYield(at)) || pc == Off(AfterYield(at)) || pc == Resumed(AfterYield(at))
  }

  predicate InYield(pc: Pc) {
    match pc
    case YieldGot(_) | Sched(AfterYield(_)) | Off(AfterYield(_)) | Resumed(AfterYield(_)) => true
    case _ => false
  }

  ghost predicate YieldFacts(s: State, p: nat, m: Move)
    requires Shape(s) && p < |s.pc|
  {
    var pc := s.pc[p];
    && (m.next.YieldGot? ==> Here(pc) == Some(m.next.at))
    && (pc.YieldGot? ==> m.next == Sched(AfterYield(pc.at)))
    && (pc.Resumed? && pc.k.AfterYield? ==> Here(m.next) == Some(pc.k.at))
    && !m.next.Off? && !m.next.Resumed?
  }

  lemma MoveYields(s: State, p: nat, ch: Choice)
    requires Shape(s) && p < |s.pc| && ThreadMove(s, p, ch).Some?
    ensures YieldFacts(s, p, ThreadMove(s, p, ch).value)
  {
  }

  /** Points and program points are in bijection. */
  lemma HereIsOne(a: Pc, b: Pc)
    requires Here(a).Some? && Here(a) == Here(b)
    ensures a == b
  {
  }

  /** Process p is inside that yield. */
  ghost predicate Yielding(s: State, p: nat, at: Point) {
    Shape(s) && p < |s.pc| && Away(s.pc[p], at) && (s.st[p] == RUNNING || s.st[p] == RUNNABLE)
  }

  lemma YieldOwn(s: State, s': State, c: nat, p: nat, m: Move, at: Point)
    requires Yielding(s, p, at) && Shape(s') && YieldFacts(s, p, m) && Applied(s, s', c, p, m) && Fits(s, p, m)
    requires SetFacts(s, p, m) && !s.pc[p].Off? && !s.pc[p].Sched?
    ensures Yielding(s', p, at) || Here(s'.pc[p]) == Some(at)
  {
  }

  lemma YieldOther(s: State, s': State, c: nat, q: nat, m: Move, p: nat, at: Point)
    requires StepFacts(s, s', c, q, m) && SetFacts(s, q, m) && q != p && Yielding(s, p, at)
    ensures Yielding(s', p, at)
  {
    assert ForkOk(s.pc, s.st, q);
  }

  lemma YieldThread(s: State, s': State, c: nat, q: nat, ch: Choice, p: nat, at: Point)
    requires Inv(s) && Inv(s') && ThreadStep(s, s', c, q, ch) && Yielding(s, p, at)
    ensures Yielding(s', p, at) || Here(s'.pc[p]) == Some(at)
  {
    ThreadFits(s, c, q, ch);
    OnCpu(s, c, q);
    MoveSets(s, q, ch);
    if q == p {
      MoveYields(s, p, ch);
      YieldOwn(s, s', c, p, ThreadMove(s, p, ch).value, at);
    } else {
      AllFacts(s, q, ch);
      YieldOther(s, s', c, q, ThreadMove(s, q, ch).value, p, at);
    }
  }

  lemma YieldScheduler(s: State, s': State, c: nat, k: nat, p: nat, at: Point)
    requires Core(s) && Shape(s') && SchedulerStep(s, s', c, k) && Yielding(s, p, at)
    ensures Yielding(s', p, at)
  {
    assert ProcOk(s.pc, s.st, s.home, s.at, p) && CpuOk(|s.pc|, s.home, s.at, c);
  }

  lemma YieldStep(s: State, s': State, p: nat, at: Point)
    requires Inv(s) && Inv(s') && Next(s, s') && Yielding(s, p, at)
    ensures Yielding(s', p, at) || (p < |s'.pc| && Here(s'.pc[p]) == Some(at))
  {
    if c, q, ch :| ThreadStep(s, s', c, q, ch) {
      YieldThread(s, s', c, q, ch, p, at);
    } else {
      var c, k :| SchedulerStep(s, s', c, k);
      YieldScheduler(s, s', c, k, p, at);
    }
  }

  lemma YieldStarts(s: State, s': State, p: nat)
    requires Inv(s) && Inv(s') && Next(s, s') && p < |s.pc| == |s'.pc| && !s.pc[p].YieldGot? && s'.pc[p].YieldGot?
    ensures Yielding(s', p, s'.pc[p].at) && Here(s.pc[p]) == Some(s'.pc[p].at)
  {
    var c, ch := OwnStep(s, s', p);
    MoveYields(s, p, ch);
    assert ProcOk(s'.pc, s'.st, s'.home, s'.at, p);
  }

  ghost predicate InYieldAt(t: seq<State>, p: nat, k: nat) {
    k < |t| && p < |t[k].pc| && InYield(t[k].pc[p])
  }

  lemma {:induction false} StillAway(t: seq<State>, p: nat, i: nat, j: nat, at: Point, s: State)
    requires IsRun(t) && i < j < |t| && Yielding(t[i], p, at) && s == t[j]
    requires forall k: nat {:trigger InYieldAt(t, p, k)} :: i <= k < j ==> InYieldAt(t, p, k)
    ensures Yielding(s, p, at) || (p < |s.pc| && Here(s.pc[p]) == Some(at))
  {
    var before := t[j - 1];
    if i < j - 1 {
      StillAway(t, p, i, j - 1, at, before);
      assert InYieldAt(t, p, j - 1);
    }
    RunInv(t, j - 1, before);
    RunInv(t, j, s);
    assert StepIn(t, j - 1);
    YieldStep(before, s, p, at);
  }

  /** A timer interrupt is transparent: a thread that yields comes back to where it was, whatever happens
      meanwhile. */
  lemma InterruptComesBack(t: seq<State>, p: nat, i: nat, j: nat)
    requires IsRun(t) && i + 1 < j < |t| && p < |t[i].pc| && p < |t[i + 1].pc| && p < |t[j].pc|
    requires !t[i].pc[p].YieldGot? && t[i + 1].pc[p].YieldGot? && !InYield(t[j].pc[p])
    requires forall k: nat {:trigger InYieldAt(t, p, k)} :: i < k < j ==> InYieldAt(t, p, k)
    ensures t[j].pc[p] == t[i].pc[p]
  {
    var s0, s1, s := t[i], t[i + 1], t[j];
    RunInv(t, i, s0);
    RunInv(t, i + 1, s1);
    assert StepIn(t, i);
    YieldStarts(s0, s1, p);
    StillAway(t, p, i + 1, j, s1.pc[p].at, s);
    HereIsOne(s.pc[p], s0.pc[p]);
  }

  lemma AllFacts(s: State, p: nat, ch: Choice)
    requires Shape(s) && p < |s.pc| && ThreadMove(s, p, ch).Some?
    ensures var m := ThreadMove(s, p, ch).value; Facts(s, p, m) && ZombieFacts(s, p, m) && ParentFacts(s, p, m)
  {
    MoveUpdates(s, p, ch);
    MoveSleeps(s, p, ch);
    MoveWakes(s, p, ch);
    MoveZombies(s, p, ch);
    MoveParents(s, p, ch);
  }
}
