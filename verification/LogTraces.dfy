/** Group commit seen from outside: whatever steps the log of kernel/log.c takes, the file system above it
    and the disk after a crash see an atomic disk.  The atomic disk is told from the steps alone, without the
    histories that the log's state machine keeps. */
module LogTraces {
  import opened LogFormat
  import opened LogDriver
  import opened LogRuns

  /** An atomic disk: the contents a crash brings back, the contents the operations see, and how many
      operations are open. */
  datatype Ideal = Ideal(durable: Disk, view: Disk, open: int)

  function Put(m: Disk, b: int, data: Block): Disk {
    if 0 <= b < |m| then m[b := data] else m
  }

  /** A write is seen at once.  What is seen becomes durable as a whole, at some moment at which no operation
      is open.  A crash goes back to what is durable. */
  ghost predicate IdealStep(a: Ideal, step: Step, a': Ideal) {
    match step
    case Begin(_) => a' == a.(open := a.open + 1)
    case LogBlock(_, b, data) => a' == a.(view := Put(a.view, b, data))
    case Fault(_, b, data) => a' == a.(view := Put(a.view, b, data))
    case End(_) => a' == a.(open := a.open - 1)
    case Io => a' == a || (a.open == 0 && a' == a.(durable := a.view))
    case Crash => a' == Ideal(a.durable, a.durable, 0)
  }

  /** What the log shows of the atomic disk: recovery restores the durable contents; while it runs, a
      block is read as it was last written; and with no operation open everything is durable and at home. */
  ghost predicate Shows(l: Layout, s: State, a: Ideal) {
    && ValidLayout(l) && IsDisk(l, s.disk) && |a.view| == l.blocks && Durable(l, s.disk, a.durable)
    && (!s.phase.Halted? ==> a.open == Outstanding(s.slots))
    && (s.phase.Running? ==> forall b {:trigger Home(l, b)} :: Home(l, b) ==> Read(s, b) == a.view[b])
    && (s.phase.Running? && a.open == 0 ==> a.durable == a.view && Clean(l, s.disk, a.view))
    && (!s.phase.Running? && !s.phase.Halted? ==> a.open == 0)
  }

  ghost predicate Sim(s: State, a: Ideal) {
    && a.durable == Contents(s) && |a.view| == |a.durable|
    && (!s.phase.Halted? ==> a.view == ApplyWrites(Contents(s), s.current) && a.open == Outstanding(s.slots))
  }

  lemma SimShows(l: Layout, s: State, a: Ideal)
    requires DiskInv(l, s) && SlotInv(l, s) && QuietInv(s) && Sim(s, a)
    ensures Shows(l, s, a)
  {
    AlwaysDurable(l, s);
    NoneOpen(s.slots);
  }

  /** A step that only opens or closes operations. */
  lemma SimSlot(s: State, a: Ideal, p: nat, x: Slot, s': State, maxOp: nat) returns (a': Ideal)
    requires Sim(s, a) && !s.phase.Halted? && p < |s.slots| && s'.slots == s.slots[p := x]
    requires s'.groups == s.groups && s'.init == s.init && s'.current == s.current
    ensures a' == a.(open := a.open - (if s.slots[p].Open? then 1 else 0) + if x.Open? then 1 else 0) && Sim(s', a')
  {
    a' := a.(open := a.open - (if s.slots[p].Open? then 1 else 0) + if x.Open? then 1 else 0);
    CountUpdate(s.slots, p, x, maxOp);
  }

  lemma SimWrite(s: State, a: Ideal, p: nat, b: int, data: Block, s': State, maxOp: nat) returns (a': Ideal)
    requires Sim(s, a) && !s.phase.Halted? && p < |s.slots| && s.slots[p].Open?
    requires s'.groups == s.groups && s'.init == s.init
    requires s'.phase.Halted? || s'.current == s.current + [Write(s.slots[p].op, b, data)]
    requires s'.phase.Halted? || (|s'.slots| == |s.slots| && s'.slots == s.slots[p := s'.slots[p]] && s'.slots[p].Open?)
    ensures a' == a.(view := Put(a.view, b, data)) && Sim(s', a')
  {
    a' := a.(view := Put(a.view, b, data));
    Appended(Contents(s), s.current, Write(s.slots[p].op, b, data), 0);
    if !s'.phase.Halted? {
      CountUpdate(s.slots, p, s'.slots[p], maxOp);
    }
  }

  lemma SimCommit(s: State, a: Ideal, s': State) returns (a': Ideal)
    requires Sim(s, a) && !s.phase.Halted? && s'.slots == s.slots && s'.init == s.init
    requires s'.groups == s.groups + [s.current] && s'.current == []
    ensures a' == a.(durable := a.view) && Sim(s', a')
  {
    a' := a.(durable := a.view);
    ReplayAppended(s.init, s.groups, s.current);
  }

  lemma SimIo(l: Layout, s: State, a: Ideal) returns (a': Ideal)
    requires Typed(l, s) && Sim(s, a) && Enabled(l, s, Io) && (s.phase.WritingHead? ==> Outstanding(s.slots) == 0)
    ensures IdealStep(a, Io, a') && Sim(ApplyIo(l, s), a')
  {
    if s.phase.WritingHead? {
      a' := SimCommit(s, a, ApplyIo(l, s));
    } else {
      a' := a;
    }
  }

  lemma SimStep(l: Layout, s: State, a: Ideal, step: Step) returns (a': Ideal)
    requires Typed(l, s) && SlotInv(l, s) && Sim(s, a) && Enabled(l, s, step)
    ensures IdealStep(a, step, a') && Sim(Apply(l, s, step), a')
  {
    NoneOpen(s.slots);
    match step
    case Begin(p) => a' := SimSlot(s, a, p, Open(s.nextOp, {}), Apply(l, s, step), l.maxOp);
    case LogBlock(p, b, data) => a' := SimWrite(s, a, p, b, data, Apply(l, s, step), l.maxOp);
    case Fault(p, b, data) => a' := SimWrite(s, a, p, b, data, Apply(l, s, step), l.maxOp);
    case End(p) => a' := SimSlot(s, a, p, Idle, Apply(l, s, step), l.maxOp);
    case Io => a' := SimIo(l, s, a);
    case Crash =>
      a' := Ideal(a.durable, a.durable, 0);
      NoneOpen(Apply(l, s, step).slots);
  }

  lemma {:induction false} RunPrefix(l: Layout, s: State, steps: seq<Step>, step: Step)
    requires Typed(l, s) && CanRun(l, s, steps + [step])
    ensures CanRun(l, s, steps) && Enabled(l, Run(l, s, steps), step)
    ensures Run(l, s, steps + [step]) == Apply(l, Run(l, s, steps), step)
    decreases |steps|
  {
    var all := steps + [step];
    if steps == [] {
      assert all[1..] == [];
    } else {
      assert all[0] == steps[0] && all[1..] == steps[1..] + [step];
      RunPrefix(l, Apply(l, s, steps[0]), steps[1..], step);
    }
  }

  ghost predicate StepAt(steps: seq<Step>, t: seq<Ideal>, i: nat) {
    i < |steps| && i + 1 < |t| && IdealStep(t[i], steps[i], t[i + 1])
  }

  /** The atomic disk took these steps, from contents m on. */
  ghost predicate IdealRun(m: Disk, steps: seq<Step>, t: seq<Ideal>) {
    && |t| == |steps| + 1 && t[0] == Ideal(m, m, 0)
    && forall i: nat {:trigger StepAt(steps, t, i)} :: i < |steps| ==> StepAt(steps, t, i)
  }

  lemma {:induction false} Simulates(l: Layout, s0: State, steps: seq<Step>) returns (t: seq<Ideal>)
    requires Init(l, s0) && CanRun(l, s0, steps)
    ensures IdealRun(s0.init, steps, t) && Sim(Run(l, s0, steps), t[|steps|])
    decreases |steps|
  {
    InitInv(l, s0);
    if steps == [] {
      t := [Ideal(s0.init, s0.init, 0)];
      NoneOpen(s0.slots);
    } else {
      var n, before, last := |steps| - 1, steps[..|steps| - 1], steps[|steps| - 1];
      assert steps == before + [last];
      RunPrefix(l, s0, before, last);
      var u := Simulates(l, s0, before);
      InvRun(l, s0, before);
      var a := SimStep(l, Run(l, s0, before), u[n], last);
      t := u + [a];
      Extended(s0.init, steps, u, a);
    }
  }

  lemma Extended(m: Disk, steps: seq<Step>, u: seq<Ideal>, a: Ideal)
    requires steps != [] && IdealRun(m, steps[..|steps| - 1], u)
    requires IdealStep(u[|steps| - 1], steps[|steps| - 1], a)
    ensures IdealRun(m, steps, u + [a])
  {
    var t := u + [a];
    forall i: nat | i < |steps| ensures StepAt(steps, t, i) {
      if i < |steps| - 1 {
        assert StepAt(steps[..|steps| - 1], u, i);
      }
    }
  }

  /** Every run of the log is a run of the atomic disk and shows it. */
  lemma EveryRunIsAtomicDisk(l: Layout, s0: State, steps: seq<Step>) returns (t: seq<Ideal>)
    requires Init(l, s0) && CanRun(l, s0, steps)
    ensures IdealRun(s0.init, steps, t) && Shows(l, Run(l, s0, steps), t[|steps|])
  {
    t := Simulates(l, s0, steps);
    InitInv(l, s0);
    InvRun(l, s0, steps);
    SimShows(l, Run(l, s0, steps), t[|steps|]);
  }

  /** What is durable is what was seen at a moment at which no operation was open: an operation's
      writes are all in it or none is. */
  lemma {:induction false} DurableIsACut(m: Disk, steps: seq<Step>, t: seq<Ideal>, i: nat) returns (j: nat)
    requires IdealRun(m, steps, t) && i <= |steps|
    ensures j <= i && t[j].open == 0 && t[i].durable == t[j].view
  {
    if i == 0 {
      return 0;
    }
    j := DurableIsACut(m, steps, t, i - 1);
    assert StepAt(steps, t, i - 1);
    if t[i].durable != t[i - 1].durable {
      j := i - 1;
    }
  }

  predicate WritesTo(step: Step, b: int) {
    (step.LogBlock? || step.Fault?) && step.b == b
  }

  lemma {:induction false} StaysSeen(m: Disk, steps: seq<Step>, t: seq<Ideal>, i: nat, b: int, j: nat)
    requires IdealRun(m, steps, t) && i < j <= |steps| && WritesTo(steps[i], b) && 0 <= b < |t[i].view|
    requires forall k :: i < k < j ==> !steps[k].Crash? && !WritesTo(steps[k], b)
    ensures |t[j].view| == |t[i].view| && t[j].view[b] == steps[i].data
  {
    assert StepAt(steps, t, j - 1);
    if i < j - 1 {
      StaysSeen(m, steps, t, i, b, j - 1);
    }
  }

  lemma {:induction false} SameSize(m: Disk, steps: seq<Step>, t: seq<Ideal>, i: nat)
    requires IdealRun(m, steps, t) && i <= |steps|
    ensures |t[i].view| == |t[i].durable| == |m|
  {
    if i > 0 {
      SameSize(m, steps, t, i - 1);
      assert StepAt(steps, t, i - 1);
    }
  }

  lemma {:induction false} WritesHome(l: Layout, s: State, steps: seq<Step>, i: nat)
    requires Typed(l, s) && CanRun(l, s, steps) && i < |steps| && (steps[i].LogBlock? || steps[i].Fault?)
    ensures Home(l, steps[i].b)
    decreases |steps|
  {
    if i > 0 {
      WritesHome(l, Apply(l, s, steps[0]), steps[1..], i - 1);
    }
  }

  /** The last write of a block is on disk, at its home, once the machine runs with no operation open. */
  lemma LastWriteIsOnDisk(l: Layout, s0: State, steps: seq<Step>, i: nat, b: int)
    requires Init(l, s0) && CanRun(l, s0, steps) && i < |steps| && WritesTo(steps[i], b)
    requires forall k :: i < k < |steps| ==> !steps[k].Crash? && !WritesTo(steps[k], b)
    requires Run(l, s0, steps).phase.Running? && Outstanding(Run(l, s0, steps).slots) == 0
    ensures 0 <= b < l.blocks && Run(l, s0, steps).disk[b] == steps[i].data
  {
    WritesHome(l, s0, steps, i);
    var t := EveryRunIsAtomicDisk(l, s0, steps);
    SameSize(s0.init, steps, t, i);
    SameSize(s0.init, steps, t, |steps|);
    StaysSeen(s0.init, steps, t, i, b, |steps|);
  }
}
