/** The log of kernel/log.c never gets stuck: a commit or a recovery is over after a bounded number of disk
    operations, and whoever waits in begin_op can always be let in. */
module LogProgress {
  import opened LogFormat
  import opened LogDriver
  import opened LogRuns

  ghost predicate Inv(l: Layout, s: State) {
    DiskInv(l, s) && SlotInv(l, s) && OpInv(s) && QuietInv(s)
  }

  lemma InvStep(l: Layout, s: State, step: Step)
    requires Inv(l, s) && Enabled(l, s, step)
    ensures Inv(l, Apply(l, s, step))
  {
    DiskStep(l, s, step);
    SlotStep(l, s, step);
    OpStep(l, s, step);
    QuietStep(l, s, step);
  }

  /** Steps of the commit or the recovery that are still to be done. */
  ghost function Rank(l: Layout, s: State): int
    requires Typed(l, s)
  {
    match s.phase
    case WritingLog(k) => |s.lh| - k + |s.lh| + 5
    case WritingHead => |s.lh| + 4
    case Installing(k) => |s.lh| - k + 3
    case Clearing => 2
    case Committed => 1
    case Booting => |Head(l, s.disk)| + 3
    case Replaying(k) => |s.lh| - k + 2
    case Erasing => 1
    case Running => 0
    case Halted => 0
  }

  lemma RankBound(l: Layout, s: State)
    requires DiskInv(l, s) && Enabled(l, s, Io)
    ensures 0 < Rank(l, s) <= 2 * l.logSize + 5
  {
  }

  lemma IoAdvances(l: Layout, s: State)
    requires DiskInv(l, s) && Enabled(l, s, Io)
    ensures Rank(l, ApplyIo(l, s)) == Rank(l, s) - 1 && !ApplyIo(l, s).phase.Halted? && ApplyIo(l, s).slots == s.slots
  {
    if s.phase.Booting? {
      assert HeadOk(l, s.disk);
    }
  }

  function Ios(n: nat): (r: seq<Step>)
    ensures |r| == n && forall i :: 0 <= i < n ==> r[i] == Io
  {
    seq(n, _ => Io)
  }

  /** These steps from s0 leave the machine running, with the slots given. */
  ghost predicate EndsRunning(l: Layout, s0: State, steps: seq<Step>, slots: seq<Slot>)
    requires Typed(l, s0)
  {
    && CanRun(l, s0, steps)
    && var s := Run(l, s0, steps); s.phase.Running? && Inv(l, s) && s.slots == slots
  }

  lemma RunIo(l: Layout, s0: State, steps: seq<Step>, s: State) returns (s': State)
    requires Typed(l, s0) && CanRun(l, s0, steps) && s == Run(l, s0, steps) && Inv(l, s) && Enabled(l, s, Io)
    ensures CanRun(l, s0, steps + [Io]) && s' == Run(l, s0, steps + [Io]) && Inv(l, s') && !s'.phase.Halted?
    ensures Rank(l, s') == Rank(l, s) - 1 >= 0 && s'.slots == s.slots
  {
    RankBound(l, s);
    IoAdvances(l, s);
    InvStep(l, s, Io);
    RunSnoc(l, s0, steps, Io);
    s' := ApplyIo(l, s);
  }

  /** The log's own steps take a run to Running. */
  lemma {:induction false} RunFinishes(l: Layout, s0: State, steps: seq<Step>, s: State, n: nat)
    requires Typed(l, s0) && CanRun(l, s0, steps) && s == Run(l, s0, steps)
    requires Inv(l, s) && !s.phase.Halted? && n == Rank(l, s)
    ensures EndsRunning(l, s0, steps + Ios(n), s.slots)
    decreases n
  {
    if s.phase.Running? {
      assert steps + Ios(n) == steps;
    } else {
      var s' := RunIo(l, s0, steps, s);
      RunFinishes(l, s0, steps + [Io], s', n - 1);
      assert (steps + [Io]) + Ios(n - 1) == steps + Ios(n);
    }
  }

  /** Recovery and commit end.  From every state of every run that is neither running nor stopped by a panic, some
      number of disk operations, at most 2 * LOGSIZE + 5, brings the machine to run, with the committed contents at
      home and an empty log. */
  lemma DiskWorkEnds(l: Layout, s0: State, steps: seq<Step>) returns (n: nat)
    requires Init(l, s0) && CanRun(l, s0, steps)
    requires !Run(l, s0, steps).phase.Running? && !Run(l, s0, steps).phase.Halted?
    ensures 0 < n <= 2 * l.logSize + 5 && CanRun(l, s0, steps + Ios(n))
    ensures var s := Run(l, s0, steps + Ios(n)); s.phase.Running? && s.lh == [] && Clean(l, s.disk, Contents(s))
  {
    var s := Run(l, s0, steps);
    InitInv(l, s0);
    InvRun(l, s0, steps);
    RankBound(l, s);
    n := Rank(l, s);
    RunFinishes(l, s0, steps, s, n);
    NoneOpen(s.slots);
  }

  /** Open operations end and the log does its work, nothing else. */
  ghost predicate Patient(steps: seq<Step>) {
    forall i :: 0 <= i < |steps| ==> steps[i].End? || steps[i].Io?
  }

  /** Without a new operation or a crash, slot p gets through begin_op. */
  ghost predicate GetsIn(l: Layout, s: State, p: nat)
    requires Typed(l, s)
  {
    exists steps :: Patient(steps) && CanRun(l, s, steps) && Enabled(l, Run(l, s, steps), Begin(p))
  }

  lemma GetsInLater(l: Layout, s: State, step: Step, p: nat)
    requires Typed(l, s) && Enabled(l, s, step) && (step.End? || step.Io?) && GetsIn(l, Apply(l, s, step), p)
    ensures GetsIn(l, s, p)
  {
    var steps :| Patient(steps) && CanRun(l, Apply(l, s, step), steps)
                 && Enabled(l, Run(l, Apply(l, s, step), steps), Begin(p));
    var all := [step] + steps;
    assert all[0] == step && all[1..] == steps;
    assert Patient(all) && CanRun(l, s, all) && Enabled(l, Run(l, s, all), Begin(p));
  }

  /** With nothing open the log is empty, and there is room for one operation. */
  lemma GetsInQuiet(l: Layout, s: State, p: nat)
    requires Inv(l, s) && !s.phase.Halted? && Outstanding(s.slots) == 0 && p < |s.slots| && l.maxOp <= l.logSize
    ensures GetsIn(l, s, p)
  {
    var n := Rank(l, s);
    if !s.phase.Running? {
      RankBound(l, s);
    }
    assert CanRun(l, s, []) && Run(l, s, []) == s && [] + Ios(n) == Ios(n);
    RunFinishes(l, s, [], s, n);
    NoneOpen(s.slots);
    assert Patient(Ios(n)) && Enabled(l, Run(l, s, Ios(n)), Begin(p));
  }

  lemma EndCloses(l: Layout, s: State, q: nat)
    requires Inv(l, s) && !s.phase.Halted? && q < |s.slots| && s.slots[q].Open?
    ensures Enabled(l, s, End(q)) && Inv(l, Apply(l, s, End(q))) && !Apply(l, s, End(q)).phase.Halted?
    ensures Apply(l, s, End(q)).slots == s.slots[q := Idle]
  {
    assert s.phase.Running?;
    InvStep(l, s, End(q));
  }

  lemma {:induction false} GetsInAfterEnds(l: Layout, s: State, p: nat)
    requires Inv(l, s) && !s.phase.Halted? && p < |s.slots| && s.slots[p].Idle? && l.maxOp <= l.logSize
    ensures GetsIn(l, s, p)
    decreases Outstanding(s.slots)
  {
    NoneOpen(s.slots);
    if Outstanding(s.slots) == 0 {
      GetsInQuiet(l, s, p);
    } else {
      var q :| 0 <= q < |s.slots| && s.slots[q].Open?;
      EndCloses(l, s, q);
      CountUpdate(s.slots, q, Idle, l.maxOp);
      GetsInAfterEnds(l, Apply(l, s, End(q)), p);
      GetsInLater(l, s, End(q), p);
    }
  }

  lemma TooBig(n: nat, m: nat, size: nat)
    requires m > size
    ensures (n + 1) * m > size
  {
    assert n * m >= 0;
  }

  /** begin_op is never stuck: in every state of every run that no panic stopped, whoever calls it gets in once the open
      operations have ended and the log has committed, if and only if one operation fits into the log at all. */
  lemma EveryoneGetsIn(l: Layout, s0: State, steps: seq<Step>, p: nat)
    requires Init(l, s0) && CanRun(l, s0, steps) && !Run(l, s0, steps).phase.Halted?
    requires p < |Run(l, s0, steps).slots| && Run(l, s0, steps).slots[p].Idle?
    ensures GetsIn(l, Run(l, s0, steps), p) <==> l.maxOp <= l.logSize
  {
    var s := Run(l, s0, steps);
    InitInv(l, s0);
    InvRun(l, s0, steps);
    if l.maxOp <= l.logSize {
      GetsInAfterEnds(l, s, p);
    } else {
      forall t: State | Typed(l, t) ensures !Enabled(l, t, Begin(p)) {
        TooBig(Outstanding(t.slots), l.maxOp, l.logSize);
      }
    }
  }
}
