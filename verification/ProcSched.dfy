/** The process table of kernel/proc.c over whole runs: who may change what, under which lock, and in which order
    the schedulers look at the processes. */
module ProcSched {
  import opened ProcMachine
  import opened ProcLocks
  import opened ProcCore
  import opened ProcSleep
  import opened ProcWait
  import opened ProcRuns
  import opened ProcFamily

  // ---------------------------------------------------------------- who changes a process, and how

  /** The edges of the process state diagram, and where the thread of process q stands when it makes process i go
      along one. */
  predicate Edge(s: State, q: nat, i: nat, from: PState, to: PState)
    requires Shape(s) && q < |s.pc| && i < |s.pc|
  {
    match to
    case USED => from == UNUSED && s.pc[q] == ForkGot(i)
    case RUNNABLE =>
      || (from == USED && s.pc[q] == ForkRunGot(i))
      || (from == RUNNING && q == i && s.pc[q].YieldGot?)
      || (from == SLEEPING && s.pc[q].WakeGot? && s.pc[q].i == i && s.pc[q].ch == s.chan[i])
      || (from == SLEEPING && s.pc[q] == KillGot(i, s.pid[i]))
    case SLEEPING => from == RUNNING && q == i && s.pc[q].SleepRel?
    case ZOMBIE => from == RUNNING && q == i && s.pc[q] == ExitGot
    case UNUSED =>
      || (from == USED && s.pc[q] == ForkMade(i))
      || (from == ZOMBIE && s.pc[q].WaitGot? && s.pc[q].i == i && s.parent[i] == q)
    case RUNNING => false
  }

  /** The slots of the table that an update touches, other than the parent field. */
  predicate Touches(up: Update, p: nat, i: nat) {
    match up
    case SetState(k, _) => k == i
    case Doze(_) => p == i
    case SetChan(_) => p == i
    case Claim(k) => k == i
    case Free(k) => k == i
    case Reap(k) => k == i
    case MarkKilled(k, _) => k == i
    case _ => false
  }

  ghost predicate ActFacts(s: State, p: nat, m: Move)
    requires Shape(s) && p < |s.pc|
  {
    var pc := s.pc[p];
    match m.up
    case SetState(i, x) =>
      || (pc == ForkRunGot(i) && x == RUNNABLE)
      || (pc.YieldGot? && i == p && x == RUNNABLE)
      || (pc.WakeGot? && pc.i == i < |s.pc| && s.st[i] == SLEEPING && s.chan[i] == pc.ch && x == RUNNABLE)
      || (pc == ExitGot && i == p && x == ZOMBIE)
    case Doze(_) => pc.SleepRel?
    case SetChan(_) => pc.Resumed?
    case Claim(i) => pc == ForkGot(i) && i < |s.pc| && s.st[i] == UNUSED
    case Free(i) => pc == ForkMade(i)
    case Reap(i) => pc.WaitGot? && pc.i == i < |s.pc| && s.st[i] == ZOMBIE
    case MarkKilled(i, wake) => i < |s.pc| && pc == KillGot(i, s.pid[i]) && wake == (s.st[i] == SLEEPING)
    case SetParent(i, _) => pc == ForkParGot(i) || pc == Reparent(i)
    case _ => true
  }

  lemma MoveActs(s: State, p: nat, ch: Choice)
    requires Shape(s) && p < |s.pc| && ThreadMove(s, p, ch).Some?
    ensures ActFacts(s, p, ThreadMove(s, p, ch).value)
  {
  }

  /** Such a thread has the lock of the slot. */
  lemma TouchedIsHeld(s: State, p: nat, m: Move, i: nat)
    requires Shape(s) && p < |s.pc| && ActFacts(s, p, m) && Touches(m.up, p, i)
    ensures PcHas(s.pc[p], p, P(i))
  {
  }

  lemma EdgeOfMove(s: State, s': State, c: nat, p: nat, m: Move, i: nat)
    requires Inv(s) && c < |s.at| && p < |s.pc| && s.at[c] == In(p) && Applied(s, s', c, p, m) && ActFacts(s, p, m)
    requires i < |s.pc| == |s'.st| && s'.st[i] != s.st[i]
    ensures Edge(s, p, i, s.st[i], s'.st[i]) && Touches(m.up, p, i)
  {
    assert ProcOk(s.pc, s.st, s.home, s.at, p);
    assert CpuOk(|s.pc|, s.home, s.at, c);
    assert ForkOk(s.pc, s.st, p);
    assert GotChild(s, p);
  }

  ghost predicate Has(s: State, c: nat, x: Lock) {
    c < |s.at| && x in s.held && s.held[x] == c
  }

  /** The step is one of CPU c. */
  ghost predicate StepOf(s: State, s': State, c: nat)
    requires Shape(s)
  {
    (exists p, ch :: ThreadStep(s, s', c, p, ch)) || (exists k :: SchedulerStep(s, s', c, k))
  }

  /** A thread goes along an edge with the lock of the process. */
  lemma ThreadEdge(s: State, s': State, c: nat, p: nat, ch: Choice, i: nat)
    requires Inv(s) && ThreadStep(s, s', c, p, ch) && i < |s.pc| == |s'.st| && s'.st[i] != s.st[i]
    ensures Has(s, c, P(i)) && Edge(s, p, i, s.st[i], s'.st[i])
  {
    var m := ThreadMove(s, p, ch).value;
    MoveActs(s, p, ch);
    EdgeOfMove(s, s', c, p, m, i);
    TouchedIsHeld(s, p, m, i);
    assert ClaimOk(s.pc, s.at, s.held, c, P(i));
  }

  /** The process state diagram: in every run a process changes state only along these edges, made by a thread on a
      CPU that holds the process's lock, or by a scheduler that holds it and starts a RUNNABLE process. */
  lemma StateDiagram(s: State, s': State, i: nat) returns (c: nat)
    requires Reachable(s) && Shape(s) && Next(s, s') && i < |s.pc| == |s'.st| && s'.st[i] != s.st[i]
    ensures StepOf(s, s', c) && Has(s, c, P(i))
    ensures if s'.st[i] == RUNNING then s.st[i] == RUNNABLE && s.at[c] == Got(i)
            else s.at[c].In? && s.at[c].p < |s.pc| && Edge(s, s.at[c].p, i, s.st[i], s'.st[i])
  {
    ReachableInv(s);
    if d, p, ch :| ThreadStep(s, s', d, p, ch) {
      c := d;
      ThreadEdge(s, s', c, p, ch, i);
    } else {
      var d, k :| SchedulerStep(s, s', d, k);
      c := d;
      assert ClaimOk(s.pc, s.at, s.held, c, P(i));
    }
  }

  /** A row of the table, but for its parent. */
  predicate SameRow(s: State, s': State, i: nat)
    requires Shape(s) && Shape(s') && i < |s.pc| == |s'.pc|
  {
    s'.st[i] == s.st[i] && s'.chan[i] == s.chan[i] && s'.killed[i] == s.killed[i] && s'.pid[i] == s.pid[i]
  }

  lemma RowOfMove(s: State, s': State, c: nat, p: nat, m: Move, i: nat)
    requires Shape(s) && Shape(s') && p < |s.pc| && Applied(s, s', c, p, m) && i < |s.pc| == |s'.pc|
    ensures SameRow(s, s', i) || Touches(m.up, p, i)
  {
  }

  /** State, channel, killed flag and pid of a process change only in steps of a CPU that holds its lock. */
  lemma RowIsGuarded(s: State, s': State, i: nat) returns (c: nat)
    requires Reachable(s) && Shape(s) && Shape(s') && Next(s, s') && i < |s.pc| == |s'.pc| && !SameRow(s, s', i)
    ensures StepOf(s, s', c) && Has(s, c, P(i))
  {
    ReachableInv(s);
    if d, p, ch :| ThreadStep(s, s', d, p, ch) {
      var m := ThreadMove(s, p, ch).value;
      c := d;
      MoveActs(s, p, ch);
      RowOfMove(s, s', c, p, m, i);
      TouchedIsHeld(s, p, m, i);
      assert ClaimOk(s.pc, s.at, s.held, c, P(i));
    } else {
      var d, k :| SchedulerStep(s, s', d, k);
      c := d;
      assert ClaimOk(s.pc, s.at, s.held, c, P(i));
    }
  }

  lemma ParentOfMove(s: State, s': State, c: nat, p: nat, m: Move, i: nat)
    requires Inv(s) && KidInv(s) && p < |s.pc| && Applied(s, s', c, p, m) && ActFacts(s, p, m)
    requires i < |s.pc| == |s'.parent| && s'.parent[i] != s.parent[i]
    ensures PcHas(s.pc[p], p, W)
  {
    assert ParentOk(s, p);
  }

  /** The parent of a process changes only in steps of a CPU that holds wait_lock: freeproc, which does not, clears one
      that is clear already. */
  lemma ParentIsGuarded(s: State, s': State, i: nat) returns (c: nat)
    requires Reachable(s) && Shape(s) && Next(s, s') && i < |s.pc| == |s'.parent| && s'.parent[i] != s.parent[i]
    ensures StepOf(s, s', c) && Has(s, c, W)
  {
    ReachableInv(s);
    KidReachable(s);
    var d, p, ch :| ThreadStep(s, s', d, p, ch);
    c := d;
    MoveActs(s, p, ch);
    ParentOfMove(s, s', c, p, ThreadMove(s, p, ch).value, i);
    assert ClaimOk(s.pc, s.at, s.held, c, W);
  }

  // ---------------------------------------------------------------- the order of the schedulers

  /** CPU c lets go of the process it looked at or ran. */
  predicate EndsTurn(s: State, s': State, c: nat) {
    c < |s.at| == |s'.at| && !s.at[c].Scan? && s'.at[c].Scan?
  }

  /** How many processes CPU c has looked at in the first i steps. */
  ghost function Turns(t: seq<State>, i: nat, c: nat): nat
    requires i < |t|
  {
    if i == 0 then 0 else Turns(t, i - 1, c) + if EndsTurn(t[i - 1], t[i], c) then 1 else 0
  }

  lemma AtStep(s: State, s': State, c: nat)
    requires Shape(s) && Next(s, s') && c < |s.at|
    ensures |s'.pc| == |s.pc| && |s'.at| == |s.at|
    ensures s'.at[c].p == if EndsTurn(s, s', c) then (s.at[c].p + 1) % |s.pc| else s.at[c].p
  {
    if d, p, ch :| ThreadStep(s, s', d, p, ch) {
      assert s'.at == s.at;
    } else {
      var d, k :| SchedulerStep(s, s', d, k);
    }
  }

  /** The process at which the i-th turn around a table of n ends. */
  function Seat(i: nat, n: nat): (k: nat)
    requires n > 0
    ensures k < n
  {
    if i == 0 then 0 else if Seat(i - 1, n) + 1 < n then Seat(i - 1, n) + 1 else 0
  }

  lemma NextSeat(k: nat, n: nat)
    requires k < n
    ensures (k + 1) % n == if k + 1 < n then k + 1 else 0
  {
  }

  /** A scheduler looks at the processes one after the other, around the table. */
  lemma {:induction false} InTurn(t: seq<State>, i: nat, c: nat, s: State, n: nat)
    requires RunTo(t, i, s) && c < |t[0].at| && n == |t[0].pc|
    ensures |s.pc| == n > 0 && |s.at| == |t[0].at| && s.at[c].p == Seat(Turns(t, i, c), n)
  {
    if i > 0 {
      var before := t[i - 1];
      InTurn(t, i - 1, c, before, n);
      assert StepIn(t, i - 1);
      AtStep(before, s, c);
      NextSeat(before.at[c].p, n);
    }
  }

  /** The turns are counted one by one. */
  lemma {:induction false} TurnNumber(t: seq<State>, c: nat, i: nat, j: nat, n: nat) returns (m: nat)
    requires i <= j < |t| && Turns(t, i, c) <= n < Turns(t, j, c)
    ensures i <= m < j && Turns(t, m, c) == n && EndsTurn(t[m], t[m + 1], c)
  {
    if Turns(t, j - 1, c) > n {
      m := TurnNumber(t, c, i, j - 1, n);
    } else {
      m := j - 1;
    }
  }

  lemma {:induction false} SeatsAhead(a: nat, d: nat, n: nat)
    requires d < n
    ensures Seat(a + d, n) == if Seat(a, n) + d < n then Seat(a, n) + d else Seat(a, n) + d - n
  {
    if d > 0 {
      SeatsAhead(a, d - 1, n);
    }
  }

  /** No process is passed over: while a CPU's scheduler lets go of as many processes as the table has, it looks at
      every one of them. */
  lemma EveryoneIsExamined(t: seq<State>, c: nat, k: nat, i: nat, j: nat) returns (m: nat)
    requires IsRun(t) && i <= j < |t| && c < |t[0].at| && k < |t[0].pc|
    requires Turns(t, j, c) >= Turns(t, i, c) + |t[0].pc|
    ensures i <= m < j && c < |t[m].at| && t[m].at[c].p == k && EndsTurn(t[m], t[m + 1], c)
  {
    var n, a := |t[0].pc|, Turns(t, i, c);
    var d := if k >= Seat(a, n) then k - Seat(a, n) else k - Seat(a, n) + n;
    SeatsAhead(a, d, n);
    m := TurnNumber(t, c, i, j, a + d);
    InTurn(t, m, c, t[m], n);
  }

  lemma StateWhileGot(s: State, s': State, c: nat, k: nat)
    requires Reachable(s) && Shape(s) && Shape(s') && Next(s, s') && c < |s.at| && s.at[c] == Got(k)
    requires k < |s.pc| == |s'.pc| && s'.st[k] != s.st[k]
    ensures |s'.at| == |s.at| && s'.at[c] == Pick(k) && s'.st[k] == RUNNING && s.st[k] == RUNNABLE
  {
    var d := StateDiagram(s, s', k);
    ReachableInv(s);
    assert ClaimOk(s.pc, s.at, s.held, c, P(k));
  }

  /** A process found RUNNABLE is run: while the scheduler has its lock nobody changes that, and the scheduler lets go
      of it without running it only if it is not RUNNABLE. */
  lemma FoundIsRun(s: State, s': State, c: nat, k: nat)
    requires Reachable(s) && Shape(s) && Shape(s') && Next(s, s') && c < |s.at| && s.at[c] == Got(k)
    ensures c < |s'.at| && k < |s.pc| == |s'.pc|
    ensures s'.at[c] == Got(k) ==> s'.st[k] == s.st[k]
    ensures s'.at[c] != Got(k) ==>
              if s.st[k] == RUNNABLE then s'.at[c] == Pick(k) && s'.st[k] == RUNNING else EndsTurn(s, s', c)
  {
    ReachableInv(s);
    assert CpuOk(|s.pc|, s.home, s.at, c);
    AtStep(s, s', c);
    if s'.st[k] != s.st[k] {
      StateWhileGot(s, s', c, k);
    }
  }
}
