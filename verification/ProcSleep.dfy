/** No wakeup is lost on a sleep lock: kernel/sleeplock.c over sleep and wakeup of kernel/proc.c. */
module ProcSleep {
  import opened ProcMachine
  import opened ProcLocks
  import opened ProcCore

  /** Process p sleeps on sleep lock l, or has let go of its spinlock to do so. */
  ghost predicate Waiting(s: State, p: nat, l: nat)
    requires Shape(s) && p < |s.pc|
  {
    s.pc[p] == SleepRel(S(l)) || (s.st[p] == SLEEPING && s.chan[p] == OnLock(l))
  }

  /** The thread at pc is in releasesleep(l), and its wakeup scan has not passed process p. */
  predicate BeforeIn(pc: Pc, l: nat, p: nat) {
    (pc.Wake? || pc.WakeGot?) && pc.ch == OnLock(l) && pc.back == ThenRel(l) && pc.i <= p
  }

  ghost predicate Scanning(s: State, l: nat, p: nat)
    requires Shape(s)
  {
    && S(l) in s.held && s.held[S(l)] < |s.at|
    && var a := s.at[s.held[S(l)]]; a.In? && a.p < |s.pc| && BeforeIn(s.pc[a.p], l, p)
  }

  ghost predicate NoLost(s: State, p: nat, l: nat)
    requires Shape(s) && p < |s.pc|
  {
    l < |s.locked| && Waiting(s, p, l) ==> s.locked[l] || Scanning(s, l, p)
  }

  /** A thread about to give up the spinlock in order to sleep has found the lock taken. */
  ghost predicate SawLocked(s: State, p: nat)
    requires Shape(s) && p < |s.pc|
  {
    (s.pc[p].SleepCall? || s.pc[p].SleepGot?) && s.pc[p].lk.S? && s.pc[p].lk.l < |s.locked| ==> s.locked[s.pc[p].lk.l]
  }

  ghost predicate SleepInv(s: State) {
    && Shape(s)
    && (forall p: nat, l: nat {:trigger NoLost(s, p, l)} :: p < |s.pc| ==> NoLost(s, p, l))
    && (forall p: nat {:trigger SawLocked(s, p)} :: p < |s.pc| ==> SawLocked(s, p))
  }

  /** What the steps say about sleeping and waking. */
  ghost predicate UpdateFacts(s: State, p: nat, m: Move)
    requires Shape(s) && p < |s.pc|
  {
    && (m.up.SetState? ==> m.up.st != SLEEPING)
    && (m.up.Doze? ==> s.pc[p].SleepRel? && m.up.ch == ChanOf(p, s.pc[p].lk) && m.g == Same)
    && (m.up.SetLocked? && !m.up.b ==>
          s.pc[p] == RelGot(m.up.l) && m.next == Wake(OnLock(m.up.l), 0, ThenRel(m.up.l)) && m.g == Same)
  }

  ghost predicate SleepFacts(s: State, p: nat, m: Move)
    requires Shape(s) && p < |s.pc|
  {
    && (m.next.SleepRel? ==> s.pc[p] == SleepGot(m.next.lk) && m.up == Keep)
    && (m.next.SleepGot? ==> s.pc[p] == SleepCall(m.next.lk) && m.up == Keep)
    && (m.next.SleepCall? ==> m.up == Keep && (m.next.lk.S? ==> m.next.lk.l < |s.locked| && s.locked[m.next.lk.l]))
  }

  ghost predicate WakeFacts(s: State, p: nat, m: Move)
    requires Shape(s) && p < |s.pc|
  {
    var pc := s.pc[p];
    && (m.next.WakeGot? ==> pc.Wake? && pc.i < |s.pc|)
    && (pc.Wake? && pc.i >= |s.pc| ==> m.next == Return(pc.back) && m.up == Keep)
    && (pc.Wake? ==>
          && m.up == Keep
          && (pc.i < |s.pc| ==>
                if pc.i == p then m.next == Wake(pc.ch, pc.i + 1, pc.back) && m.g == Same
                else m.next == WakeGot(pc.ch, pc.i, pc.back) && m.g == Gain(P(pc.i))))
    && (pc.WakeGot? ==>
          && m.next == Wake(pc.ch, pc.i + 1, pc.back) && m.g == Lose(P(pc.i)) && pc.i < |s.pc|
          && (m.up == Keep || m.up == SetState(pc.i, RUNNABLE))
          && (s.st[pc.i] == SLEEPING && s.chan[pc.i] == pc.ch ==> m.up == SetState(pc.i, RUNNABLE)))
  }

  ghost predicate Facts(s: State, p: nat, m: Move)
    requires Shape(s) && p < |s.pc|
  {
    UpdateFacts(s, p, m) && SleepFacts(s, p, m) && WakeFacts(s, p, m)
  }

  lemma MoveUpdates(s: State, p: nat, ch: Choice)
    requires Shape(s) && p < |s.pc| && ThreadMove(s, p, ch).Some?
    ensures UpdateFacts(s, p, ThreadMove(s, p, ch).value)
  {
  }

  lemma MoveSleeps(s: State, p: nat, ch: Choice)
    requires Shape(s) && p < |s.pc| && ThreadMove(s, p, ch).Some?
    ensures SleepFacts(s, p, ThreadMove(s, p, ch).value)
  {
  }

  lemma MoveWakes(s: State, p: nat, ch: Choice)
    requires Shape(s) && p < |s.pc| && ThreadMove(s, p, ch).Some?
    ensures WakeFacts(s, p, ThreadMove(s, p, ch).value)
  {
  }

  /** Two CPUs never hold the same lock. */
  lemma Exclusive(s: State, c: nat, d: nat, x: Lock)
    requires Core(s) && c < |s.at| && d < |s.at| && CpuHas(s.pc, s.at, c, x) && CpuHas(s.pc, s.at, d, x)
    ensures c == d
  {
    assert ClaimOk(s.pc, s.at, s.held, c, x) && ClaimOk(s.pc, s.at, s.held, d, x);
  }

  lemma OnHome(s: State, q: nat)
    requires Core(s) && q < |s.pc| && !s.pc[q].Off?
    ensures 0 <= s.home[q] < |s.at| && s.at[s.home[q]] == In(q)
    ensures forall x :: PcHas(s.pc[q], q, x) ==> CpuHas(s.pc, s.at, s.home[q], x)
  {
    assert ProcOk(s.pc, s.st, s.home, s.at, q);
  }

  /** Nobody else starts waiting. */
  lemma OthersStay(s: State, s': State, c: nat, p: nat, m: Move, q: nat, l: nat)
    requires Shape(s) && p < |s.pc| && q < |s.pc| && q != p && Facts(s, p, m) && Applied(s, s', c, p, m)
             && Waiting(s', q, l)
    ensures Waiting(s, q, l) && s'.pc[q] == s.pc[q]
  {
  }

  /** A scan that has not passed q still has not, or it has just woken q. */
  lemma ScanKept(s: State, s': State, c: nat, p: nat, m: Move, q: nat, l: nat)
    requires Core(s) && c < |s.at| && p < |s.pc| && q < |s.pc| && s.at[c] == In(p)
    requires Fits(s, p, m) && LocksFit(p, s.pc[p], m) && Facts(s, p, m) && Applied(s, s', c, p, m)
    requires Scanning(s, l, q) && Waiting(s', q, l)
    ensures Scanning(s', l, q)
  {
    var d := s.held[S(l)];
    var r := s.at[d].p;
    assert HolderOk(s.pc, s.at, s.held, S(l)) && ClaimOk(s.pc, s.at, s.held, c, S(l));
    OnCpu(s, d, r);
    if r == p {
      OneStack(s.pc, s.st, s.home, s.at, c);
      if s.pc[p].WakeGot? && s.pc[p].i == q {
        OthersStay(s, s', c, p, m, q, l);
        if s.pc[q] == SleepRel(S(l)) {
          OnHome(s, q);
          Exclusive(s, c, s.home[q], P(q));
          assert false;
        }
      }
    }
  }

  lemma NoLostKept(s: State, s': State, c: nat, p: nat, m: Move, q: nat, l: nat)
    requires Core(s) && SleepInv(s) && c < |s.at| && p < |s.pc| && q < |s.pc| && s.at[c] == In(p) && !s.pc[p].Sched?
    requires Shape(s') && Fits(s, p, m) && LocksFit(p, s.pc[p], m) && Facts(s, p, m) && Applied(s, s', c, p, m)
    ensures NoLost(s', q, l)
  {
    OnCpu(s, c, p);
    assert NoLost(s, q, l) && SawLocked(s, p);
    if l < |s.locked| && Waiting(s', q, l) {
      if q != p {
        OthersStay(s, s', c, p, m, q, l);
      }
      if Scanning(s, l, q) {
        ScanKept(s, s', c, p, m, q, l);
      } else if m.up == SetLocked(l, false) {
        assert ClaimOk(s.pc, s.at, s.held, c, S(l));
      }
    }
  }

  lemma SawLockedKept(s: State, s': State, c: nat, p: nat, m: Move, q: nat)
    requires Core(s) && SleepInv(s) && c < |s.at| && p < |s.pc| && q < |s.pc| && s.at[c] == In(p)
    requires Shape(s') && Facts(s, p, m) && Applied(s, s', c, p, m)
    ensures SawLocked(s', q)
  {
    assert SawLocked(s, q);
    if m.up.SetLocked? && !m.up.b && q != p && (s.pc[q].SleepCall? || s.pc[q].SleepGot?) && s.pc[q].lk == S(m.up.l) {
      OnHome(s, q);
      Exclusive(s, c, s.home[q], S(m.up.l));
    }
  }

  lemma SleepThread(s: State, s': State, c: nat, p: nat, ch: Choice)
    requires Core(s) && SleepInv(s) && Core(s') && ThreadStep(s, s', c, p, ch)
    ensures SleepInv(s')
  {
    var m := ThreadMove(s, p, ch).value;
    ThreadFits(s, c, p, ch);
    MoveUpdates(s, p, ch);
    MoveSleeps(s, p, ch);
    MoveWakes(s, p, ch);
    forall q: nat, l: nat | q < |s'.pc| ensures NoLost(s', q, l) {
      NoLostKept(s, s', c, p, m, q, l);
    }
    forall q: nat | q < |s'.pc| ensures SawLocked(s', q) {
      SawLockedKept(s, s', c, p, m, q);
    }
  }

  lemma SleepScheduler(s: State, s': State, c: nat, k: nat)
    requires Core(s) && SleepInv(s) && Core(s') && SchedulerStep(s, s', c, k)
    ensures SleepInv(s')
  {
    forall q: nat, l: nat | q < |s'.pc| ensures NoLost(s', q, l) {
      assert NoLost(s, q, l);
      if l < |s.locked| && Waiting(s', q, l) && Scanning(s, l, q) {
        assert s'.held[S(l)] == s.held[S(l)];
      }
    }
    forall q: nat | q < |s'.pc| ensures SawLocked(s', q) {
      assert SawLocked(s, q);
    }
  }
}
