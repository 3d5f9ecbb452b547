/** What holds in every run of the process machine. */
module ProcRuns {
  import opened ProcMachine
  import opened ProcLocks
  import opened ProcCore
  import opened ProcSleep
  import opened ProcWait

  ghost predicate PidOk(s: State, p: nat)
    requires Shape(s) && p < |s.pc|
  {
    s.st[p] != UNUSED ==> 0 < s.pid[p] < s.nextpid && s.pid[p] !in s.reaped
  }

  ghost predicate PidsDiffer(s: State, p: nat, q: nat)
    requires Shape(s) && p < |s.pc| && q < |s.pc|
  {
    p != q && s.st[p] != UNUSED && s.st[q] != UNUSED ==> s.pid[p] != s.pid[q]
  }

  /** Pids in use are distinct and have not been reaped. */
  ghost predicate PidInv(s: State) {
    && Shape(s) && s.nextpid > 0 && (forall x :: x in s.reaped ==> x < s.nextpid)
    && (forall p: nat {:trigger PidOk(s, p)} :: p < |s.pc| ==> PidOk(s, p))
    && (forall p: nat, q: nat {:trigger PidsDiffer(s, p, q)} :: p < |s.pc| && q < |s.pc| ==> PidsDiffer(s, p, q))
  }

  /** Only allocproc brings an UNUSED slot to life. */
  ghost predicate LiveFacts(s: State, p: nat, m: Move)
    requires Shape(s) && p < |s.pc|
  {
    && (m.up.SetState? ==>
          m.up.i == p || s.pc[p] == ForkRunGot(m.up.i) || (m.up.i < |s.pc| && s.st[m.up.i] == SLEEPING))
    && (m.up.MarkKilled? && m.up.wake ==> m.up.i < |s.pc| && s.st[m.up.i] == SLEEPING)
  }

  lemma MoveLives(s: State, p: nat, ch: Choice)
    requires Shape(s) && p < |s.pc| && ThreadMove(s, p, ch).Some?
    ensures LiveFacts(s, p, ThreadMove(s, p, ch).value)
  {
  }

  lemma PidMoves(s: State, s': State, c: nat, p: nat, m: Move)
    requires PidInv(s) && Shape(s') && p < |s.pc| && s.st[p] != UNUSED && ForkOk(s.pc, s.st, p)
    requires LiveFacts(s, p, m) && InTable(s, m.up) && (m.up.Reap? ==> s.st[m.up.i] == ZOMBIE)
             && Applied(s, s', c, p, m)
    ensures PidInv(s')
  {
    if m.up.Reap? {
      assert PidOk(s, m.up.i);
    }
    forall q: nat | q < |s'.pc| ensures PidOk(s', q) {
      assert PidOk(s, q) && (m.up.Reap? ==> PidsDiffer(s, m.up.i, q));
    }
    forall q: nat, r: nat | q < |s'.pc| && r < |s'.pc| ensures PidsDiffer(s', q, r) {
      assert PidsDiffer(s, q, r) && PidOk(s, q) && PidOk(s, r);
    }
  }

  lemma PidScheduler(s: State, s': State, c: nat, k: nat)
    requires PidInv(s) && Shape(s') && SchedulerStep(s, s', c, k)
    ensures PidInv(s')
  {
    forall q: nat | q < |s'.pc| ensures PidOk(s', q) {
      assert PidOk(s, q);
    }
    forall q: nat, r: nat | q < |s'.pc| && r < |s'.pc| ensures PidsDiffer(s', q, r) {
      assert PidsDiffer(s, q, r);
    }
  }

  ghost predicate Inv(s: State) {
    Core(s) && SleepInv(s) && WaitInv(s) && PidInv(s)
  }

  lemma InitInv(s: State)
    requires Init(s)
    ensures Inv(s)
  {
    assert forall p: nat :: p < |s.pc| ==> ProcOk(s.pc, s.st, s.home, s.at, p);
    assert forall c: nat :: c < |s.at| ==> CpuOk(|s.pc|, s.home, s.at, c);
    assert forall p: nat :: p < |s.pc| ==> ForkOk(s.pc, s.st, p);
  }

  lemma ThreadInv(s: State, s': State, c: nat, p: nat, ch: Choice)
    requires Inv(s) && ThreadStep(s, s', c, p, ch)
    ensures Inv(s')
  {
    var m := ThreadMove(s, p, ch).value;
    ThreadFits(s, c, p, ch);
    CoreMove(s, s', c, p, m);
    SleepThread(s, s', c, p, ch);
    WaitThread(s, s', c, p, ch);
    MoveLives(s, p, ch);
    MoveZombies(s, p, ch);
    OnCpu(s, c, p);
    PidMoves(s, s', c, p, m);
  }

  lemma SchedulerInv(s: State, s': State, c: nat, k: nat)
    requires Inv(s) && SchedulerStep(s, s', c, k)
    ensures Inv(s')
  {
    SchedulerCore(s, s', c, k);
    SleepScheduler(s, s', c, k);
    WaitScheduler(s, s', c, k);
    PidScheduler(s, s', c, k);
  }

  lemma NextInv(s: State, s': State)
    requires Inv(s) && Next(s, s')
    ensures Inv(s')
  {
    if c, p, ch :| ThreadStep(s, s', c, p, ch) {
      ThreadInv(s, s', c, p, ch);
    } else {
      var c, k :| SchedulerStep(s, s', c, k);
      SchedulerInv(s, s', c, k);
    }
  }

  lemma {:induction false} RunInv(t: seq<State>, i: nat, s: State)
    requires RunTo(t, i, s)
    ensures Inv(s)
  {
    if i == 0 {
      InitInv(s);
    } else {
      var before := t[i - 1];
      RunInv(t, i - 1, before);
      assert StepIn(t, i - 1);
      NextInv(before, s);
    }
  }

  lemma ReachableInv(s: State)
    requires Reachable(s)
    ensures Inv(s)
  {
    var t, i: nat :| RunTo(t, i, s);
    RunInv(t, i, s);
  }

  /** A thread goes on only by its own step or by a context switch. */
  lemma OthersStand(s: State, s': State, c: nat, p: nat, m: Move, q: nat)
    requires Shape(s) && p < |s.pc| && q < |s.pc| && q != p && Applied(s, s', c, p, m)
    ensures s'.pc[q] == s.pc[q] || s'.pc[q].Off?
  {
  }

  lemma OwnStep(s: State, s': State, p: nat) returns (c: nat, ch: Choice)
    requires Shape(s) && Next(s, s') && p < |s.pc| == |s'.pc| && s'.pc[p] != s.pc[p]
    requires !s'.pc[p].Off? && !s'.pc[p].Resumed?
    ensures ThreadStep(s, s', c, p, ch)
  {
    if d, q, x :| ThreadStep(s, s', d, q, x) {
      if q != p {
        OthersStand(s, s', d, q, ThreadMove(s, q, x).value, p);
      }
      c, ch := d, x;
    }
  }

  /** c->proc is p. */
  ghost predicate Current(s: State, c: nat, p: nat)
    requires c < |s.at|
  {
    Cur(s.at[c]) && s.at[c].p == p
  }

  /** A RUNNING process is current on exactly one CPU. */
  lemma OneCpuPerProcess(s: State, p: nat)
    requires Reachable(s) && p < |s.pc| && |s.st| == |s.pc| && s.st[p] == RUNNING
    ensures exists c: nat ::
              c < |s.at| && Current(s, c, p) && forall d: nat :: d < |s.at| && Current(s, d, p) ==> d == c
  {
    ReachableInv(s);
    assert ProcOk(s.pc, s.st, s.home, s.at, p);
    var c := s.home[p];
    assert Current(s, c, p);
    forall d: nat | d < |s.at| && Current(s, d, p) ensures d == c {
      assert CpuOk(|s.pc|, s.home, s.at, d);
    }
  }

  /** The scheduler switches only to a process whose kernel stack no CPU is on. */
  lemma SafeToSchedule(s: State, s': State, c: nat, k: nat, d: nat)
    requires Reachable(s) && Shape(s) && SchedulerStep(s, s', c, k) && s.at[c] == Got(k) && s.st[k] == RUNNABLE
             && d < |s.at|
    ensures s.at[d] != In(k)
  {
    ReachableInv(s);
    LockedElsewhere(s, c, k);
    NoStack(s.pc, s.st, s.home, s.at, k);
  }

  lemma SafeMove(s: State, c: nat, p: nat, m: Move)
    requires Core(s) && c < |s.at| && p < |s.pc| && s.at[c] == In(p) && Fits(s, p, m) && ZombieFacts(s, p, m)
    requires m.up.Reap? || m.up.Free? || m.up.Claim?
    ensures Only(s.at, -1, m.up.i)
  {
    OnCpu(s, c, p);
    var i := m.up.i;
    assert i != p && s.st[i] != NewSt(s.st, p, m.up)[i];
    NoStack(s.pc, s.st, s.home, s.at, i);
  }

  /** A slot is freed or handed out only while no CPU is on its kernel stack. */
  lemma SafeToReuse(s: State, s': State, c: nat, p: nat, ch: Choice, d: nat)
    requires Reachable(s) && Shape(s) && ThreadStep(s, s', c, p, ch) && d < |s.at|
    ensures var up := ThreadMove(s, p, ch).value.up;
            up.Reap? || up.Free? || up.Claim? ==> s.at[d] != In(up.i)
  {
    ReachableInv(s);
    ThreadFits(s, c, p, ch);
    MoveZombies(s, p, ch);
    var m := ThreadMove(s, p, ch).value;
    if m.up.Reap? || m.up.Free? || m.up.Claim? {
      SafeMove(s, c, p, m);
    }
  }

  /** No lost wakeup: a process asleep on a sleep lock that is not held will be woken by the release in
      progress, whose scan has yet to reach it. */
  lemma NoLostWakeup(s: State, p: nat, l: nat)
    requires Reachable(s) && Shape(s) && p < |s.pc| && l < |s.locked| && s.st[p] == SLEEPING && s.chan[p] == OnLock(l)
    ensures s.locked[l] || Scanning(s, l, p)
  {
    ReachableInv(s);
    assert NoLost(s, p, l);
  }

  /** Whenever wait_lock is free, no process sleeps in wait, or is about to, with a ZOMBIE child. */
  lemma NoMissedExit(s: State, p: nat, k: nat)
    requires Reachable(s) && Shape(s) && p < |s.pc| && k < |s.pc| && W !in s.held && s.parent[k] == p
             && s.st[k] == ZOMBIE
    ensures !Asleep(s, p) && s.pc[p] != SleepCall(W) && s.pc[p] != SleepGot(W)
  {
    ReachableInv(s);
    assert ChildOk(s, p, k);
  }

  /** wait reaps only a ZOMBIE child of the caller, and one whose pid it has never returned before. */
  lemma ReapedOnce(s: State, s': State, c: nat, p: nat, ch: Choice)
    requires Reachable(s) && Shape(s) && ThreadStep(s, s', c, p, ch) && ThreadMove(s, p, ch).value.up.Reap?
    ensures var k := ThreadMove(s, p, ch).value.up.i;
            && k < |s.pc| && s.parent[k] == p && s.st[k] == ZOMBIE && s.pid[k] !in s.reaped
            && s'.reaped == s.reaped + {s.pid[k]} && s'.st == s.st[k := UNUSED]
  {
    ReachableInv(s);
    MoveZombies(s, p, ch);
    var k := ThreadMove(s, p, ch).value.up.i;
    assert PidOk(s, k) && GotChild(s, p);
  }

  /** Nothing else returns a pid from wait. */
  lemma OnlyWaitReaps(s: State, s': State)
    requires Shape(s) && Next(s, s') && s'.reaped != s.reaped
    ensures exists c, p, ch :: ThreadStep(s, s', c, p, ch) && ThreadMove(s, p, ch).value.up.Reap?
  {
    if c, p, ch :| ThreadStep(s, s', c, p, ch) {
      assert ThreadMove(s, p, ch).value.up.Reap?;
    }
  }

  /** The pid a step returns from wait, if any. */
  ghost predicate Returns(s: State, s': State, x: nat)
    requires Shape(s)
  {
    exists c, p, ch :: Reaps(s, s', c, p, ch, x)
  }

  ghost predicate Reaps(s: State, s': State, c: nat, p: nat, ch: Choice, x: nat)
    requires Shape(s)
  {
    && ThreadStep(s, s', c, p, ch) && ThreadMove(s, p, ch).value.up.Reap?
    && ThreadMove(s, p, ch).value.up.i < |s.pid| && s.pid[ThreadMove(s, p, ch).value.up.i] == x
  }

  lemma {:induction false} ReapedStays(t: seq<State>, i: nat, j: nat)
    requires IsRun(t) && i <= j < |t|
    ensures t[i].reaped <= t[j].reaped
  {
    if i < j {
      ReapedStays(t, i, j - 1);
      assert StepIn(t, j - 1);
    }
  }

  lemma RunReaches(t: seq<State>, i: nat)
    requires IsRun(t) && i < |t|
    ensures Reachable(t[i])
  {
    assert RunTo(t, i, t[i]);
  }

  lemma ReturnsNew(t: seq<State>, i: nat, x: nat)
    requires IsRun(t) && i + 1 < |t| && Shape(t[i]) && Returns(t[i], t[i + 1], x)
    ensures x !in t[i].reaped && x in t[i + 1].reaped
  {
    var c, p, ch :| Reaps(t[i], t[i + 1], c, p, ch, x);
    RunReaches(t, i);
    ReapedOnce(t[i], t[i + 1], c, p, ch);
  }

  /** Over a whole run, wait returns no pid twice. */
  lemma EveryPidReturnedOnce(t: seq<State>, i: nat, j: nat, x: nat)
    requires IsRun(t) && i < j && j + 1 < |t| && Shape(t[i]) && Shape(t[j]) && Returns(t[i], t[i + 1], x)
    ensures !Returns(t[j], t[j + 1], x)
  {
    ReturnsNew(t, i, x);
    ReapedStays(t, i + 1, j);
    if Returns(t[j], t[j + 1], x) {
      ReturnsNew(t, j, x);
    }
  }
}
