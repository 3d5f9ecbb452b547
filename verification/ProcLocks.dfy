/** Who holds which spinlock, and which CPU runs which process. */
module ProcLocks {
  import opened ProcMachine

  function Outer(b: Then): Lock {
    match b
    case ThenRel(l) => S(l)
    case _ => W
  }

  /** The spinlocks a thread holds at a program point. */
  predicate PcHas(pc: Pc, p: nat, x: Lock) {
    match pc
    case Resumed(_) | YieldGot(_) | Sched(_) | SleepRel(_) => x == P(p)
    case SleepCall(lk) => x == lk
    case SleepGot(lk) => x == lk || x == P(p)
    case AcqCheck(l) => x == S(l)
    case RelGot(l) => x == S(l)
    case RelEnd(l) => x == S(l)
    case Wake(_, _, b) => x == Outer(b)
    case WakeGot(_, i, b) => x == Outer(b) || x == P(i)
    case WaitScan(_, _) | WaitEnd | Reparent(_) | ExitLock | ForkParGot(_) => x == W
    case WaitGot(i, _) => x == W || x == P(i)
    case ExitGot => x == W || x == P(p)
    case ForkGot(i) => x == P(i)
    case ForkMade(i) => x == P(i)
    case ForkRunGot(i) => x == P(i)
    case KillGot(i, _) => x == P(i)
    case _ => false
  }

  /** The spinlocks CPU c holds. */
  predicate CpuHas(pc: seq<Pc>, at: seq<At>, c: nat, x: Lock)
    requires c < |at|
  {
    match at[c]
    case Scan(_) => false
    case In(k) => k < |pc| && PcHas(pc[k], k, x)
    case Got(k) => x == P(k)
    case Pick(k) => x == P(k)
    case Back(k) => x == P(k)
  }

  ghost predicate ClaimOk(pc: seq<Pc>, at: seq<At>, held: map<Lock, nat>, c: nat, x: Lock)
    requires c < |at|
  {
    CpuHas(pc, at, c, x) ==> x in held && held[x] == c
  }

  ghost predicate HolderOk(pc: seq<Pc>, at: seq<At>, held: map<Lock, nat>, x: Lock) {
    x in held ==> held[x] < |at| && CpuHas(pc, at, held[x], x)
  }

  /** A lock is held exactly by the CPU whose thread is at a point that holds it. */
  ghost predicate LockInv(pc: seq<Pc>, at: seq<At>, held: map<Lock, nat>) {
    && (forall c: nat, x: Lock {:trigger ClaimOk(pc, at, held, c, x)} :: c < |at| ==> ClaimOk(pc, at, held, c, x))
    && (forall x: Lock {:trigger HolderOk(pc, at, held, x)} :: HolderOk(pc, at, held, x))
  }

  /** No CPU but c is in process p. */
  ghost predicate Only(at: seq<At>, c: int, p: nat) {
    forall d: nat {:trigger at[d]} :: d < |at| && d != c ==> at[d] != In(p)
  }

  predicate Changed(had: bool, has: bool, x: Lock, g: Change) {
    match g
    case Same => has == had
    case Gain(y) => has == (had || x == y)
    case Lose(y) => has == (had && x != y)
  }

  /** CPU c changes what it holds by g; the others hold what they did. */
  lemma LockMove(pc: seq<Pc>, at: seq<At>, held: map<Lock, nat>, pc': seq<Pc>, at': seq<At>, c: nat, g: Change)
    requires LockInv(pc, at, held) && c < |at| == |at'| && (g.Gain? ==> g.x !in held)
             && (g.Lose? ==> CpuHas(pc, at, c, g.x))
    requires forall x: Lock {:trigger CpuHas(pc', at', c, x)} ::
               Changed(CpuHas(pc, at, c, x), CpuHas(pc', at', c, x), x, g)
    requires forall d: nat, x: Lock {:trigger CpuHas(pc', at', d, x)} :: d < |at| && d != c ==>
               CpuHas(pc', at', d, x) == CpuHas(pc, at, d, x)
    ensures LockInv(pc', at', After(held, c, g))
  {
    var held' := After(held, c, g);
    forall d: nat, x: Lock | d < |at'| ensures ClaimOk(pc', at', held', d, x) {
      assert ClaimOk(pc, at, held, d, x) && ClaimOk(pc, at, held, c, x);
    }
    forall x: Lock ensures HolderOk(pc', at', held', x) {
      assert HolderOk(pc, at, held, x);
    }
  }

  /** The same for a step of thread p on CPU c. */
  lemma ThreadLocks(pc: seq<Pc>, at: seq<At>, held: map<Lock, nat>, c: nat, p: nat, next: Pc, g: Change)
    requires LockInv(pc, at, held) && c < |at| && p < |pc| && at[c] == In(p) && Only(at, c, p)
    requires (g.Gain? ==> g.x !in held) && (g.Lose? ==> PcHas(pc[p], p, g.x))
    requires forall x: Lock {:trigger PcHas(next, p, x)} :: Changed(PcHas(pc[p], p, x), PcHas(next, p, x), x, g)
    ensures LockInv(pc[p := next], at, After(held, c, g))
  {
    LockMove(pc, at, held, pc[p := next], at, c, g);
  }

  /** What a thread off the CPU would hold does not matter. */
  lemma OffMove(pc: seq<Pc>, at: seq<At>, held: map<Lock, nat>, i: nat, next: Pc)
    requires LockInv(pc, at, held) && i < |pc| && Only(at, -1, i)
    ensures LockInv(pc[i := next], at, held)
  {
    var pc' := pc[i := next];
    forall d: nat, x: Lock | d < |at|
      ensures ClaimOk(pc', at, held, d, x) && CpuHas(pc', at, d, x) == CpuHas(pc, at, d, x)
    {
      assert ClaimOk(pc, at, held, d, x);
    }
    forall x: Lock ensures HolderOk(pc', at, held, x) {
      assert HolderOk(pc, at, held, x);
    }
  }

  /** States of a process whose thread is off the CPU with continuation k. */
  predicate OffState(k: Cont, st: PState) {
    match st
    case RUNNING => false
    case SLEEPING => k.AfterSleep?
    case ZOMBIE => k == Never
    case RUNNABLE => k != Never
    case _ => true
  }

  predicate SchedState(k: Cont, st: PState) {
    match k
    case AfterYield(_) => st == RUNNABLE
    case AfterSleep(_) => st == SLEEPING
    case Never => st == ZOMBIE
  }

  /** The state of process p fits its program point and the CPU it is current on. */
  ghost predicate ProcOk(pc: seq<Pc>, st: seq<PState>, home: seq<int>, at: seq<At>, p: nat)
    requires p < |pc| == |st| == |home|
  {
    && home[p] < |at|
    && match pc[p]
       case Off(k) =>
         if home[p] < 0 then OffState(k, st[p])
         else if at[home[p]] == Pick(p) then st[p] == RUNNING && k != Never
         else at[home[p]] == Back(p) && OffState(k, st[p])
       case Sched(k) => home[p] >= 0 && at[home[p]] == In(p) && SchedState(k, st[p])
       case _ => home[p] >= 0 && at[home[p]] == In(p) && st[p] == RUNNING
  }

  predicate Cur(a: At) {
    a.Pick? || a.In? || a.Back?
  }

  ghost predicate CpuOk(n: nat, home: seq<int>, at: seq<At>, c: nat)
    requires n == |home| && c < |at|
  {
    at[c].p < n && (Cur(at[c]) ==> home[at[c].p] == c)
  }

  ghost predicate HomeInv(pc: seq<Pc>, st: seq<PState>, home: seq<int>, at: seq<At>)
    requires |pc| == |st| == |home|
  {
    && (forall p: nat {:trigger ProcOk(pc, st, home, at, p)} :: p < |pc| ==> ProcOk(pc, st, home, at, p))
    && (forall c: nat {:trigger CpuOk(|pc|, home, at, c)} :: c < |at| ==> CpuOk(|pc|, home, at, c))
  }

  /** A process is on at most one CPU. */
  lemma OneStack(pc: seq<Pc>, st: seq<PState>, home: seq<int>, at: seq<At>, c: nat)
    requires |pc| == |st| == |home| && HomeInv(pc, st, home, at) && c < |at| && Cur(at[c])
    ensures Only(at, c, at[c].p)
  {
    assert CpuOk(|pc|, home, at, c);
    forall d: nat | d < |at| && d != c ensures at[d] != In(at[c].p) {
      assert CpuOk(|pc|, home, at, d);
    }
  }

  lemma NoStack(pc: seq<Pc>, st: seq<PState>, home: seq<int>, at: seq<At>, i: nat)
    requires |pc| == |st| == |home| && HomeInv(pc, st, home, at) && i < |pc| && pc[i].Off?
    ensures Only(at, -1, i)
  {
    forall d: nat | d < |at| ensures at[d] != In(i) {
      assert CpuOk(|pc|, home, at, d);
      assert ProcOk(pc, st, home, at, i);
    }
  }

  /** A step that changes the point and state of thread p on its CPU and the state of process i. */
  lemma HomeMove(pc: seq<Pc>, st: seq<PState>, pc': seq<Pc>, st': seq<PState>, home: seq<int>, at: seq<At>)
    requires |pc| == |st| == |home| == |pc'| == |st'| && HomeInv(pc, st, home, at)
    requires forall p: nat {:trigger ProcOk(pc', st', home, at, p)} ::
               p < |pc| && (pc'[p] != pc[p] || st'[p] != st[p]) ==> ProcOk(pc', st', home, at, p)
    ensures HomeInv(pc', st', home, at)
  {
    forall p: nat | p < |pc| ensures ProcOk(pc', st', home, at, p) {
      assert ProcOk(pc, st, home, at, p);
    }
  }
}
