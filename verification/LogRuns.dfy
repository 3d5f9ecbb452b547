/** Group commit as a state machine: any number of processes run operations between begin_op and
    end_op, the last one out commits the group block by block, and the machine may crash before any
    of those writes, also while it recovers from an earlier crash. */
module LogRuns {
  import opened LogFormat
  import opened LogDriver

  /** A process slot: outside an operation, or inside one that has logged these blocks. */
  datatype Slot = Idle | Open(op: nat, blocks: set<int>)

  /** Where the disk activity stands; WritingLog to Committed are log.committing. */
  datatype Phase =
    | Running
    | WritingLog(k: nat)
    | WritingHead
    | Installing(k: nat)
    | Clearing
    | Committed
    | Booting
    | Replaying(k: nat)
    | Erasing
    | Halted

  datatype Write = Write(op: nat, b: int, data: Block)

  /** disk and the log's memory, followed by the history a theorem speaks about: the contents mkfs
      made, the committed groups in order, the writes of the group being built, all writes issued,
      and those issued since the last crash. */
  datatype State = State(
    disk: Disk, lh: seq<int>, pinned: map<int, Block>, slots: seq<Slot>, phase: Phase, nextOp: nat,
    init: Disk, groups: seq<seq<Write>>, current: seq<Write>, issued: seq<Write>,
    since: seq<Write>)

  datatype Step =
    | Begin(p: nat)
    | LogBlock(p: nat, b: int, data: Block)
    | Fault(p: nat, b: int, data: Block)
    | End(p: nat)
    | Io
    | Crash

  // ---------------------------------------------------------------- counting

  function Outstanding(slots: seq<Slot>): nat {
    if slots == [] then 0
    else Outstanding(slots[..|slots| - 1]) + if slots[|slots| - 1].Open? then 1 else 0
  }

  /** How much of MAXOPBLOCKS the operation may still use. */
  function Budget(x: Slot, maxOp: nat): int {
    if x.Open? then maxOp - |x.blocks| else 0
  }

  function Reserved(slots: seq<Slot>, maxOp: nat): int {
    if slots == [] then 0
    else Reserved(slots[..|slots| - 1], maxOp) + Budget(slots[|slots| - 1], maxOp)
  }

  lemma {:induction false} CountUpdate(slots: seq<Slot>, p: nat, x: Slot, maxOp: nat)
    requires p < |slots|
    ensures Reserved(slots[p := x], maxOp) == Reserved(slots, maxOp) - Budget(slots[p], maxOp) + Budget(x, maxOp)
    ensures Outstanding(slots[p := x])
            == Outstanding(slots) - (if slots[p].Open? then 1 else 0) + (if x.Open? then 1 else 0)
  {
    var n := |slots| - 1;
    if p == n {
      assert slots[p := x][..n] == slots[..n];
    } else {
      assert slots[p := x][..n] == slots[..n][p := x];
      CountUpdate(slots[..n], p, x, maxOp);
    }
  }

  lemma {:induction false} ReservedBound(slots: seq<Slot>, maxOp: nat)
    ensures Reserved(slots, maxOp) <= Outstanding(slots) * maxOp
  {
    if slots != [] {
      ReservedBound(slots[..|slots| - 1], maxOp);
    }
  }

  lemma {:induction false} NoneOpen(slots: seq<Slot>)
    ensures Outstanding(slots) == 0 <==> forall p :: 0 <= p < |slots| ==> slots[p].Idle?
  {
    if slots != [] {
      NoneOpen(slots[..|slots| - 1]);
      assert forall p :: 0 <= p < |slots| - 1 ==> slots[p] == slots[..|slots| - 1][p];
    }
  }

  // ---------------------------------------------------------------- histories

  ghost function ApplyWrites(m: Disk, ws: seq<Write>): (r: Disk)
    ensures |r| == |m|
  {
    if ws == [] then m
    else
      var w := ws[|ws| - 1];
      var r := ApplyWrites(m, ws[..|ws| - 1]);
      if 0 <= w.b < |r| then r[w.b := w.data] else r
  }

  ghost function Replay(m: Disk, groups: seq<seq<Write>>): (r: Disk)
    ensures |r| == |m|
  {
    if groups == [] then m
    else ApplyWrites(Replay(m, groups[..|groups| - 1]), groups[|groups| - 1])
  }

  /** The writes of operation op, in order. */
  function Of(ws: seq<Write>, op: nat): seq<Write> {
    if ws == [] then []
    else Of(ws[..|ws| - 1], op) + if ws[|ws| - 1].op == op then [ws[|ws| - 1]] else []
  }

  lemma Appended(m: Disk, ws: seq<Write>, w: Write, op: nat)
    ensures ApplyWrites(m, ws + [w])
            == if 0 <= w.b < |m| then ApplyWrites(m, ws)[w.b := w.data] else ApplyWrites(m, ws)
    ensures Of(ws + [w], op) == Of(ws, op) + if w.op == op then [w] else []
  {
    assert (ws + [w])[..|ws|] == ws;
  }

  lemma ReplayAppended(m: Disk, groups: seq<seq<Write>>, g: seq<Write>)
    ensures Replay(m, groups + [g]) == ApplyWrites(Replay(m, groups), g)
  {
    assert (groups + [g])[..|groups|] == groups;
  }

  lemma {:induction false} OfSomeone(ws: seq<Write>, op: nat)
    ensures Of(ws, op) != [] ==> exists i :: 0 <= i < |ws| && ws[i].op == op
  {
    if ws != [] {
      OfSomeone(ws[..|ws| - 1], op);
    }
  }

  // ---------------------------------------------------------------- the machine

  /** What recovery owes: the contents after every committed group, and nothing else. */
  ghost function Contents(s: State): Disk {
    Replay(s.init, s.groups)
  }

  predicate Committing(ph: Phase) {
    ph.WritingLog? || ph.WritingHead? || ph.Installing? || ph.Clearing? || ph.Committed?
  }

  predicate Up(ph: Phase) {
    ph.Running? || Committing(ph)
  }

  ghost predicate Typed(l: Layout, s: State) {
    && ValidLayout(l) && IsDisk(l, s.disk)
    && |s.lh| <= l.logSize && |s.lh| < l.size
    && (forall i :: 0 <= i < |s.lh| ==> Home(l, s.lh[i]))
    && (forall b :: b in s.pinned ==> |s.pinned[b]| == l.words)
  }

  /** Fault is writei with a user copy that fails: the buffer of a block that is in the log already has
      changed and is released without log_write; the commit will copy it as it then is. */
  ghost predicate Enabled(l: Layout, s: State, step: Step) {
    match step
    case Begin(p) =>
      && p < |s.slots| && s.slots[p].Idle? && s.phase.Running?
      && |s.lh| + (Outstanding(s.slots) + 1) * l.maxOp <= l.logSize
    case LogBlock(p, b, data) =>
      && p < |s.slots| && s.slots[p].Open? && Up(s.phase)
      && Home(l, b) && |data| == l.words
      && |s.slots[p].blocks + {b}| <= l.maxOp
    case Fault(p, b, data) => p < |s.slots| && s.slots[p].Open? && Up(s.phase) && b in s.lh && |data| == l.words
    case End(p) => p < |s.slots| && s.slots[p].Open? && Up(s.phase)
    case Io => !s.phase.Running? && !s.phase.Halted?
    case Crash => true
  }

  /** log_write panics; the test comes before the scan for absorption. */
  predicate Panics(l: Layout, s: State) {
    |s.lh| >= l.logSize || |s.lh| >= l.size - 1
  }

  function Read(s: State, b: int): (r: Block)
    requires 0 <= b < |s.disk|
  {
    if b in s.pinned then s.pinned[b] else s.disk[b]
  }

  ghost function ApplyIo(l: Layout, s: State): (r: State)
    requires Typed(l, s)
    ensures Typed(l, r)
  {
    match s.phase
    case WritingLog(k) =>
      if k < |s.lh| then
        s.(disk := s.disk[l.start + 1 + k := Read(s, s.lh[k])], phase := WritingLog(k + 1))
      else s.(phase := WritingHead)
    case WritingHead =>
      s.(disk := s.disk[l.start := SetHead(s.disk[l.start], s.lh)], phase := Installing(0),
         groups := s.groups + [s.current], current := [])
    case Installing(k) =>
      if k < |s.lh| then
        s.(disk := s.disk[s.lh[k] := s.disk[l.start + 1 + k]], pinned := s.pinned - {s.lh[k]},
           phase := Installing(k + 1))
      else s.(lh := [], phase := Clearing)
    case Clearing =>
      s.(disk := s.disk[l.start := SetHead(s.disk[l.start], [])], phase := Committed)
    case Committed => s.(phase := Running)
    case Booting =>
      if HeadOk(l, s.disk) then s.(lh := Head(l, s.disk), phase := Replaying(0)) else s.(phase := Halted)
    case Replaying(k) =>
      if k < |s.lh| then
        s.(disk := s.disk[s.lh[k] := s.disk[l.start + 1 + k]], phase := Replaying(k + 1))
      else s.(lh := [], phase := Erasing)
    case Erasing =>
      s.(disk := s.disk[l.start := SetHead(s.disk[l.start], [])], phase := Running)
    case Running => s
    case Halted => s
  }

  ghost function Apply(l: Layout, s: State, step: Step): (r: State)
    requires Typed(l, s) && Enabled(l, s, step)
    ensures Typed(l, r)
  {
    match step
    case Begin(p) => s.(slots := s.slots[p := Open(s.nextOp, {})], nextOp := s.nextOp + 1)
    case LogBlock(p, b, data) =>
      if Panics(l, s) then s.(phase := Halted)
      else
        var w := Write(s.slots[p].op, b, data);
        s.(lh := Logged(s.lh, b), pinned := s.pinned[b := data],
           slots := s.slots[p := Open(s.slots[p].op, s.slots[p].blocks + {b})],
           current := s.current + [w], issued := s.issued + [w], since := s.since + [w])
    case Fault(p, b, data) =>
      var w := Write(s.slots[p].op, b, data);
      s.(pinned := s.pinned[b := data],
         current := s.current + [w], issued := s.issued + [w], since := s.since + [w])
    case End(p) =>
      var slots := s.slots[p := Idle];
      if Committing(s.phase) then s.(slots := slots, phase := Halted)
      else if Outstanding(slots) == 0 then
        s.(slots := slots, phase := if |s.lh| > 0 then WritingLog(0) else Committed)
      else s.(slots := slots)
    case Io => ApplyIo(l, s)
    case Crash =>
      s.(lh := [], pinned := map[], slots := seq(|s.slots|, _ => Idle), phase := Booting, current := [],
         since := [])
  }

  // ---------------------------------------------------------------- invariants

  /** The current group is exactly what the pinned buffers hold. */
  ghost predicate Collecting(l: Layout, s: State)
    requires ValidLayout(l)
  {
    && Clean(l, s.disk, Contents(s))
    && PinnedList(l, s.lh, s.pinned)
    && ApplyWrites(Contents(s), s.current) == Overlay(Contents(s), s.pinned)
    && (s.lh == [] ==> s.current == [])
  }

  ghost predicate Copied(l: Layout, s: State, k: nat)
    requires Typed(l, s)
  {
    && k <= |s.lh|
    && forall i :: 0 <= i < k ==> s.lh[i] in s.pinned && s.disk[l.start + 1 + i] == s.pinned[s.lh[i]]
  }

  ghost predicate Replayed(l: Layout, s: State, k: nat)
    requires ValidLayout(l)
  {
    && Durable(l, s.disk, Contents(s))
    && s.lh == Head(l, s.disk)
    && k <= |s.lh|
    && Installed(l, s.disk, k)
    && s.current == []
    && forall b :: b in s.pinned ==> b in s.lh[k..]
  }

  ghost predicate Empty(s: State) {
    s.lh == [] && s.current == [] && s.pinned == map[]
  }

  ghost predicate DiskInv(l: Layout, s: State) {
    && Typed(l, s)
    && |s.init| == l.blocks
    && match s.phase
       case Running => Collecting(l, s)
       case Halted => Collecting(l, s)
       case WritingLog(k) => Collecting(l, s) && Copied(l, s, k)
       case WritingHead => Collecting(l, s) && Copied(l, s, |s.lh|)
       case Installing(k) => Replayed(l, s, k)
       case Replaying(k) => Replayed(l, s, k) && s.pinned == map[]
       case Clearing => Empty(s) && Durable(l, s.disk, Contents(s)) && Installed(l, s.disk, |Head(l, s.disk)|)
       case Erasing => Empty(s) && Durable(l, s.disk, Contents(s)) && Installed(l, s.disk, |Head(l, s.disk)|)
       case Committed => Empty(s) && Clean(l, s.disk, Contents(s))
       case Booting => Empty(s) && Durable(l, s.disk, Contents(s))
  }

  /** Outside Running (and a panic there) no operation is open; inside, the reservation holds. */
  ghost predicate SlotInv(l: Layout, s: State) {
    && |s.lh| + Reserved(s.slots, l.maxOp) <= l.logSize
    && (forall p :: 0 <= p < |s.slots| && s.slots[p].Open? ==>
          && (s.phase.Running? || s.phase.Halted?)
          && |s.slots[p].blocks| <= l.maxOp
          && forall b :: b in s.slots[p].blocks ==> b in s.lh)
  }

  /** Every operation's writes sit in one place. */
  ghost predicate OpInv(s: State) {
    && (forall w :: w in s.issued ==> w.op < s.nextOp)
    && (forall p :: 0 <= p < |s.slots| && s.slots[p].Open? ==>
          s.slots[p].op < s.nextOp && Of(s.current, s.slots[p].op) == Of(s.issued, s.slots[p].op))
    && (forall o: nat :: Of(s.current, o) != [] ==> Of(s.current, o) == Of(s.issued, o))
    && (forall i, o: nat :: 0 <= i < |s.groups| && Of(s.groups[i], o) != [] ==>
          Of(s.groups[i], o) == Of(s.issued, o) && Of(s.current, o) == [])
    && (forall i, j, o: nat :: 0 <= i < j < |s.groups| && Of(s.groups[i], o) != [] ==> Of(s.groups[j], o) == [])
  }

  ghost predicate Kept(s: State, w: Write) {
    w in s.current || exists i :: 0 <= i < |s.groups| && w in s.groups[i]
  }

  /** Without a crash no write is dropped, and when the last operation ends nothing is left uncommitted. */
  ghost predicate QuietInv(s: State) {
    && (s.phase.Running? && Outstanding(s.slots) == 0 ==> s.lh == [])
    && (forall w {:trigger Kept(s, w)} :: w in s.since ==> Kept(s, w))
  }

  // ---------------------------------------------------------------- the disk, step by step

  lemma LogCopyKeeps(l: Layout, s: State)
    requires DiskInv(l, s) && s.phase.WritingLog?
    ensures DiskInv(l, ApplyIo(l, s))
  {
    var k := s.phase.k;
    if k < |s.lh| {
      assert s.lh[k] in s.lh;
      var s' := ApplyIo(l, s);
      assert s'.disk[l.start] == s.disk[l.start];
    }
  }

  lemma PublishedReplays(l: Layout, s: State, s': State)
    requires Typed(l, s) && Collecting(l, s) && Copied(l, s, |s.lh|) && |Contents(s)| == l.blocks
    requires s'.disk == s.disk[l.start := SetHead(s.disk[l.start], s.lh)] && s'.lh == s.lh && s'.pinned == s.pinned
    requires Contents(s') == Overlay(Contents(s), s.pinned) && s'.current == []
    ensures Replayed(l, s', 0)
  {
    assert forall i :: 0 <= i < |s.lh| ==> s.lh[i] in s.lh;
    CommitPoint(l, s.disk, s.lh, Contents(s'));
    assert s.lh[0..] == s.lh;
  }

  /** The commit point: the contents move from the old groups to the old groups and the new one. */
  lemma HeadWriteCommits(l: Layout, s: State)
    requires DiskInv(l, s) && s.phase.WritingHead?
    ensures DiskInv(l, ApplyIo(l, s))
    ensures Contents(ApplyIo(l, s)) == Overlay(Contents(s), s.pinned)
  {
    ReplayAppended(s.init, s.groups, s.current);
    PublishedReplays(l, s, ApplyIo(l, s));
  }

  lemma InstallStepKeeps(l: Layout, s: State)
    requires DiskInv(l, s) && (s.phase.Installing? || s.phase.Replaying?)
    ensures DiskInv(l, ApplyIo(l, s))
  {
    if s.phase.k < |s.lh| {
      InstallAdvances(l, s);
    } else {
      ReplayEnds(l, s, ApplyIo(l, s));
    }
  }

  lemma InstallAdvances(l: Layout, s: State)
    requires DiskInv(l, s) && (s.phase.Installing? || s.phase.Replaying?) && s.phase.k < |s.lh|
    ensures DiskInv(l, ApplyIo(l, s))
  {
    ReplayAdvances(l, s, s.phase.k, ApplyIo(l, s));
  }

  lemma ReplayEnds(l: Layout, s: State, s': State)
    requires Typed(l, s) && Replayed(l, s, |s.lh|) && s'.lh == [] && s'.disk == s.disk && s'.current == s.current
    requires s'.pinned == s.pinned && s'.init == s.init && s'.groups == s.groups
    ensures Empty(s') && Durable(l, s'.disk, Contents(s')) && Installed(l, s'.disk, |Head(l, s'.disk)|)
  {
    NoneListed(s.pinned, s.lh[|s.lh|..]);
  }

  lemma ReplayAdvances(l: Layout, s: State, k: nat, s': State)
    requires Typed(l, s) && Replayed(l, s, k) && k < |s.lh|
    requires s'.disk == s.disk[s.lh[k] := s.disk[l.start + 1 + k]] && s'.lh == s.lh && s'.current == s.current
    requires s'.pinned == s.pinned - {s.lh[k]} || s'.pinned == s.pinned == map[]
    requires s'.init == s.init && s'.groups == s.groups
    ensures Replayed(l, s', k + 1)
  {
    InstallKeeps(l, s.disk, Contents(s), k);
    Unpinned(s.pinned, s.lh, k);
  }

  lemma EraseKeeps(l: Layout, s: State)
    requires DiskInv(l, s) && (s.phase.Clearing? || s.phase.Erasing? || s.phase.Committed? || s.phase.Booting?)
    ensures DiskInv(l, ApplyIo(l, s))
  {
    if s.phase.Clearing? || s.phase.Erasing? {
      ClearKeeps(l, s.disk, Contents(s));
    }
    if s.phase.Erasing? || s.phase.Committed? {
      assert Overlay(Contents(s), map[]) == Contents(s);
    }
  }

  lemma PinKeeps(l: Layout, h: seq<int>, p: map<int, Block>, b: int, data: Block)
    requires PinnedList(l, h, p) && Home(l, b) && |data| == l.words
    requires b in h || (|h| < l.logSize && |h| < l.size - 1)
    ensures PinnedList(l, Logged(h, b), p[b := data])
  {
  }

  lemma OverlaySet(m: Disk, p: map<int, Block>, b: int, data: Block)
    requires 0 <= b < |m|
    ensures Overlay(m, p[b := data]) == Overlay(m, p)[b := data]
  {
  }

  /** The group grows by one write. */
  lemma CollectsMore(l: Layout, s: State, w: Write, s': State)
    requires ValidLayout(l) && Collecting(l, s) && (w.b in s.lh || (|s.lh| < l.logSize && |s.lh| < l.size - 1))
    requires Home(l, w.b) && |w.data| == l.words && |Contents(s)| == l.blocks
    requires s'.disk == s.disk && s'.init == s.init && s'.groups == s.groups
    requires s'.lh == Logged(s.lh, w.b) && s'.pinned == s.pinned[w.b := w.data] && s'.current == s.current + [w]
    ensures Collecting(l, s')
  {
    var m := Contents(s);
    PinKeeps(l, s.lh, s.pinned, w.b, w.data);
    Appended(m, s.current, w, 0);
    OverlaySet(m, s.pinned, w.b, w.data);
  }

  lemma LogBlockKeeps(l: Layout, s: State, p: nat, b: int, data: Block)
    requires DiskInv(l, s) && s.phase.Running? && Enabled(l, s, LogBlock(p, b, data))
    ensures DiskInv(l, Apply(l, s, LogBlock(p, b, data)))
  {
    if !Panics(l, s) {
      CollectsMore(l, s, Write(s.slots[p].op, b, data), Apply(l, s, LogBlock(p, b, data)));
    }
  }

  lemma FaultKeeps(l: Layout, s: State, p: nat, b: int, data: Block)
    requires DiskInv(l, s) && s.phase.Running? && Enabled(l, s, Fault(p, b, data))
    ensures DiskInv(l, Apply(l, s, Fault(p, b, data)))
  {
    CollectsMore(l, s, Write(s.slots[p].op, b, data), Apply(l, s, Fault(p, b, data)));
  }

  /** Whatever the disk holds now, a crash recovers the committed groups. */
  lemma AlwaysDurable(l: Layout, s: State)
    requires DiskInv(l, s)
    ensures Durable(l, s.disk, Contents(s))
  {
    CleanIsDurable(l, s.disk, Contents(s));
  }

  lemma DiskStep(l: Layout, s: State, step: Step)
    requires DiskInv(l, s) && SlotInv(l, s) && Enabled(l, s, step)
    ensures DiskInv(l, Apply(l, s, step))
  {
    match step
    case Begin(p) =>
    case LogBlock(p, b, data) => LogBlockKeeps(l, s, p, b, data);
    case Fault(p, b, data) => FaultKeeps(l, s, p, b, data);
    case End(p) =>
      if s.lh == [] { NoneListed(s.pinned, s.lh); }
    case Io =>
      if s.phase.WritingLog? { LogCopyKeeps(l, s); }
      else if s.phase.WritingHead? { HeadWriteCommits(l, s); }
      else if s.phase.Installing? || s.phase.Replaying? { InstallStepKeeps(l, s); }
      else { EraseKeeps(l, s); }
    case Crash => AlwaysDurable(l, s);
  }

  // ---------------------------------------------------------------- the reservation, step by step

  lemma SlotBegin(l: Layout, s: State, p: nat)
    requires Typed(l, s) && SlotInv(l, s) && Enabled(l, s, Begin(p))
    ensures SlotInv(l, Apply(l, s, Begin(p)))
  {
    CountUpdate(s.slots, p, Open(s.nextOp, {}), l.maxOp);
    ReservedBound(s.slots[p := Open(s.nextOp, {})], l.maxOp);
  }

  lemma SlotLogBlock(l: Layout, s: State, p: nat, b: int, data: Block)
    requires Typed(l, s) && SlotInv(l, s) && Enabled(l, s, LogBlock(p, b, data))
    ensures SlotInv(l, Apply(l, s, LogBlock(p, b, data)))
  {
    if !Panics(l, s) {
      var blocks := s.slots[p].blocks;
      CountUpdate(s.slots, p, Open(s.slots[p].op, blocks + {b}), l.maxOp);
      assert |blocks + {b}| == if b in blocks then |blocks| else |blocks| + 1 by {
        if b in blocks { assert blocks + {b} == blocks; }
      }
    }
  }

  lemma SlotEnd(l: Layout, s: State, p: nat)
    requires Typed(l, s) && SlotInv(l, s) && Enabled(l, s, End(p))
    ensures SlotInv(l, Apply(l, s, End(p)))
  {
    CountUpdate(s.slots, p, Idle, l.maxOp);
    NoneOpen(s.slots[p := Idle]);
  }

  lemma SlotStep(l: Layout, s: State, step: Step)
    requires Typed(l, s) && SlotInv(l, s) && Enabled(l, s, step)
    ensures SlotInv(l, Apply(l, s, step))
  {
    match step
    case Begin(p) => SlotBegin(l, s, p);
    case LogBlock(p, b, data) => SlotLogBlock(l, s, p, b, data);
    case Fault(p, b, data) =>
    case End(p) => SlotEnd(l, s, p);
    case Io => SlotIo(l, s);
    case Crash =>
      var slots := seq(|s.slots|, _ => Idle);
      assert Apply(l, s, Crash).slots == slots;
      NoneOpen(slots);
      ReservedBound(slots, l.maxOp);
  }

  lemma SlotIo(l: Layout, s: State)
    requires Typed(l, s) && SlotInv(l, s) && Enabled(l, s, Io)
    ensures SlotInv(l, ApplyIo(l, s))
  {
    NoneOpen(s.slots);
    ReservedBound(s.slots, l.maxOp);
  }

  /** An operation within its budget never overflows the header array: a block new to the log
      always finds room for its entry. */
  lemma RoomForNewBlock(l: Layout, s: State, p: nat, b: int, data: Block)
    requires DiskInv(l, s) && SlotInv(l, s) && Enabled(l, s, LogBlock(p, b, data)) && b !in s.lh
    ensures |s.lh| < l.logSize
  {
    ReservedAtLeast(s.slots, p, l.maxOp);
    assert b !in s.slots[p].blocks;
  }

  lemma {:induction false} ReservedAtLeast(slots: seq<Slot>, p: nat, maxOp: nat)
    requires p < |slots|
    requires forall q :: 0 <= q < |slots| ==> Budget(slots[q], maxOp) >= 0
    ensures Reserved(slots, maxOp) >= Budget(slots[p], maxOp) >= 0
  {
    var n := |slots| - 1;
    if p < n {
      ReservedAtLeast(slots[..n], p, maxOp);
    } else if n > 0 {
      ReservedAtLeast(slots[..n], 0, maxOp);
    }
  }

  // ---------------------------------------------------------------- operations, step by step

  /** One more write of an open operation. */
  lemma OpWrites(s: State, s': State, p: nat, w: Write)
    requires OpInv(s) && p < |s.slots| && s.slots[p].Open? && w.op == s.slots[p].op
    requires s'.current == s.current + [w] && s'.issued == s.issued + [w]
    requires s'.groups == s.groups && s'.nextOp == s.nextOp && |s'.slots| == |s.slots|
    requires forall q :: 0 <= q < |s.slots| && s'.slots[q].Open? ==> s.slots[q].Open? && s'.slots[q].op == s.slots[q].op
    ensures OpInv(s')
  {
    forall o: nat
      ensures Of(s'.current, o) == Of(s.current, o) + if w.op == o then [w] else []
      ensures Of(s'.issued, o) == Of(s.issued, o) + if w.op == o then [w] else []
    {
      Appended([], s.current, w, o);
      Appended([], s.issued, w, o);
    }
  }

  lemma OpBegin(l: Layout, s: State, p: nat)
    requires Typed(l, s) && OpInv(s) && Enabled(l, s, Begin(p))
    ensures OpInv(Apply(l, s, Begin(p)))
  {
    OfSomeone(s.issued, s.nextOp);
  }

  lemma OpCommit(l: Layout, s: State)
    requires Typed(l, s) && SlotInv(l, s) && OpInv(s) && s.phase.WritingHead?
    ensures OpInv(ApplyIo(l, s))
  {
    var s' := ApplyIo(l, s);
    assert forall i :: 0 <= i < |s.groups| ==> s'.groups[i] == s.groups[i];
    assert s'.groups[|s.groups|] == s.current;
  }

  lemma OpStep(l: Layout, s: State, step: Step)
    requires Typed(l, s) && SlotInv(l, s) && OpInv(s) && Enabled(l, s, step)
    ensures OpInv(Apply(l, s, step))
  {
    match step
    case Begin(p) => OpBegin(l, s, p);
    case LogBlock(p, b, data) =>
      if !Panics(l, s) { OpWrites(s, Apply(l, s, step), p, Write(s.slots[p].op, b, data)); }
    case Fault(p, b, data) => OpWrites(s, Apply(l, s, step), p, Write(s.slots[p].op, b, data));
    case _ => OpOther(l, s, step);
  }

  /** Steps that only close slots, or drop the current group, keep the books. */
  lemma OpFrame(s: State, s': State)
    requires OpInv(s) && s'.issued == s.issued && s'.groups == s.groups && s'.nextOp == s.nextOp
    requires s'.current == s.current || (s'.current == [] && forall p :: 0 <= p < |s'.slots| ==> !s'.slots[p].Open?)
    requires forall p :: 0 <= p < |s'.slots| && s'.slots[p].Open? ==> p < |s.slots| && s'.slots[p] == s.slots[p]
    ensures OpInv(s')
  {
    assert forall o :: Of([], o) == [];
  }

  lemma OpOther(l: Layout, s: State, step: Step)
    requires Typed(l, s) && SlotInv(l, s) && OpInv(s) && Enabled(l, s, step) && (step.End? || step.Io? || step.Crash?)
    ensures OpInv(Apply(l, s, step))
  {
    if step.Io? && s.phase.WritingHead? {
      OpCommit(l, s);
    } else {
      OpFrame(s, Apply(l, s, step));
    }
  }

  // ---------------------------------------------------------------- nothing is left behind, step by step

  lemma QuietSlots(l: Layout, s: State, step: Step)
    requires Typed(l, s) && QuietInv(s) && Enabled(l, s, step)
    requires step.Begin? || step.LogBlock? || step.Fault? || step.End?
    ensures QuietInv(Apply(l, s, step))
  {
    var s' := Apply(l, s, step);
    CountUpdate(s.slots, step.p, s'.slots[step.p], l.maxOp);
    NoneOpen(s.slots);
    NoneOpen(s'.slots);
    forall w | w in s'.since ensures Kept(s', w) {
      assert w in s.since ==> Kept(s, w);
    }
  }

  lemma QuietIo(l: Layout, s: State)
    requires DiskInv(l, s) && QuietInv(s) && Enabled(l, s, Io)
    ensures QuietInv(ApplyIo(l, s))
  {
    var s' := ApplyIo(l, s);
    forall w | w in s'.since ensures Kept(s', w) {
      assert Kept(s, w);
      if s.phase.WritingHead? && w in s.current {
        assert w in s'.groups[|s.groups|];
      } else if i :| 0 <= i < |s.groups| && w in s.groups[i] {
        assert w in s'.groups[i];
      }
    }
  }

  lemma QuietStep(l: Layout, s: State, step: Step)
    requires DiskInv(l, s) && QuietInv(s) && Enabled(l, s, step)
    ensures QuietInv(Apply(l, s, step))
  {
    if step.Io? {
      QuietIo(l, s);
    } else if !step.Crash? {
      QuietSlots(l, s, step);
    }
  }

  // ---------------------------------------------------------------- whole runs

  /** A disk fresh from mkfs or left by a clean shutdown, no operation open. */
  ghost predicate Init(l: Layout, s: State) {
    && ValidLayout(l) && IsDisk(l, s.disk)
    && s.phase.Booting? && Empty(s) && s.groups == [] && s.issued == s.since == []
    && (forall p :: 0 <= p < |s.slots| ==> s.slots[p].Idle?)
    && Durable(l, s.disk, s.init)
  }

  ghost predicate CanRun(l: Layout, s: State, steps: seq<Step>)
    requires Typed(l, s)
    decreases |steps|
  {
    steps == [] || (Enabled(l, s, steps[0]) && CanRun(l, Apply(l, s, steps[0]), steps[1..]))
  }

  ghost function Run(l: Layout, s: State, steps: seq<Step>): (r: State)
    requires Typed(l, s) && CanRun(l, s, steps)
    ensures Typed(l, r)
    decreases |steps|
  {
    if steps == [] then s else Run(l, Apply(l, s, steps[0]), steps[1..])
  }

  lemma {:induction false} InvRun(l: Layout, s: State, steps: seq<Step>)
    requires DiskInv(l, s) && SlotInv(l, s) && OpInv(s) && QuietInv(s) && CanRun(l, s, steps)
    ensures var r := Run(l, s, steps); DiskInv(l, r) && SlotInv(l, r) && OpInv(r) && QuietInv(r)
    decreases |steps|
  {
    if steps != [] {
      DiskStep(l, s, steps[0]);
      SlotStep(l, s, steps[0]);
      OpStep(l, s, steps[0]);
      QuietStep(l, s, steps[0]);
      InvRun(l, Apply(l, s, steps[0]), steps[1..]);
    }
  }

  lemma InitInv(l: Layout, s: State)
    requires Init(l, s)
    ensures DiskInv(l, s) && SlotInv(l, s) && OpInv(s) && QuietInv(s)
  {
    NoneOpen(s.slots);
    ReservedBound(s.slots, l.maxOp);
  }

  /** Crash atomicity of group commit over every run: at whatever step the machine stops, recovery
      restores the initial contents plus every committed group in order, and none of the rest; no
      operation is open while a commit is under way; and each operation's writes are all in one
      committed group or in none. */
  lemma EveryRunIsAtomic(l: Layout, s0: State, steps: seq<Step>)
    requires Init(l, s0) && CanRun(l, s0, steps)
    ensures var s := Run(l, s0, steps);
            && Durable(l, s.disk, Contents(s))
            && (Committing(s.phase) ==> Outstanding(s.slots) == 0)
            && (forall i, o: nat :: 0 <= i < |s.groups| && Of(s.groups[i], o) != [] ==>
                  && Of(s.groups[i], o) == Of(s.issued, o)
                  && forall j :: 0 <= j < |s.groups| && j != i ==> Of(s.groups[j], o) == [])
  {
    InitInv(l, s0);
    InvRun(l, s0, steps);
    var s := Run(l, s0, steps);
    AlwaysDurable(l, s);
    NoneOpen(s.slots);
  }

  /** Durability over every run: whenever the machine runs and no operation is open, every write issued
      since the last crash is in a committed group, so no later crash undoes it. */
  lemma EveryFinishedWriteIsDurable(l: Layout, s0: State, steps: seq<Step>, w: Write)
    requires Init(l, s0) && CanRun(l, s0, steps)
    requires var s := Run(l, s0, steps); s.phase.Running? && Outstanding(s.slots) == 0 && w in s.since
    ensures exists i :: 0 <= i < |Run(l, s0, steps).groups| && w in Run(l, s0, steps).groups[i]
  {
    InitInv(l, s0);
    InvRun(l, s0, steps);
    assert Kept(Run(l, s0, steps), w);
  }

  /** Once the machine is running again after any crash, the home blocks hold exactly the committed
      groups and the log is empty. */
  lemma EveryRecoveryIsExact(l: Layout, s0: State, steps: seq<Step>)
    requires Init(l, s0) && CanRun(l, s0, steps)
    ensures var s := Run(l, s0, steps); s.phase.Running? ==> Clean(l, s.disk, Contents(s))
  {
    InitInv(l, s0);
    InvRun(l, s0, steps);
  }

  /** Log reservation over every run: the entries used and the open operations' unused budgets fit
      in LOGSIZE, and every log slot in use lies inside the log region. */
  lemma EveryRunReserves(l: Layout, s0: State, steps: seq<Step>)
    requires Init(l, s0) && CanRun(l, s0, steps)
    ensures var s := Run(l, s0, steps);
            && |s.lh| + Reserved(s.slots, l.maxOp) <= l.logSize
            && l.start + |s.lh| < l.start + l.size
            && (forall p, b, data :: Enabled(l, s, LogBlock(p, b, data)) && b !in s.lh ==> |s.lh| < l.logSize)
  {
    InitInv(l, s0);
    InvRun(l, s0, steps);
    var s := Run(l, s0, steps);
    forall p, b, data | Enabled(l, s, LogBlock(p, b, data)) && b !in s.lh ensures |s.lh| < l.logSize {
      RoomForNewBlock(l, s, p, b, data);
    }
  }

  /** A committed group is never lost: later states only add groups behind it. */
  lemma {:induction false} CommittedStays(l: Layout, s: State, steps: seq<Step>)
    requires Typed(l, s) && CanRun(l, s, steps)
    ensures s.groups <= Run(l, s, steps).groups && s.init == Run(l, s, steps).init
    decreases |steps|
  {
    if steps != [] {
      CommittedStays(l, Apply(l, s, steps[0]), steps[1..]);
    }
  }

  // ---------------------------------------------------------------- panics within the budget

  /** log_write stops the machine exactly when the group already holds min(LOGSIZE, size - 1) blocks;
      the LOGSIZE half of the test can only catch a block that would have been absorbed. */
  lemma PanicsExactlyWhen(l: Layout, s0: State, steps: seq<Step>, p: nat, b: int, data: Block)
    requires Init(l, s0) && CanRun(l, s0, steps)
    requires Enabled(l, Run(l, s0, steps), LogBlock(p, b, data))
    ensures var s := Run(l, s0, steps);
            Apply(l, s, LogBlock(p, b, data)).phase.Halted?
            <==> if b in s.lh then |s.lh| >= l.logSize || |s.lh| >= l.size - 1 else |s.lh| >= l.size - 1
  {
    InitInv(l, s0);
    InvRun(l, s0, steps);
    var s := Run(l, s0, steps);
    assert Up(s.phase) && !s.phase.Halted?;
    if b !in s.lh {
      RoomForNewBlock(l, s, p, b, data);
    }
  }

  lemma {:induction false} RunSnoc(l: Layout, s: State, steps: seq<Step>, step: Step)
    requires Typed(l, s) && CanRun(l, s, steps) && Enabled(l, Run(l, s, steps), step)
    ensures CanRun(l, s, steps + [step])
    ensures Run(l, s, steps + [step]) == Apply(l, Run(l, s, steps), step)
    decreases |steps|
  {
    var all := steps + [step];
    if steps == [] {
      assert all[1..] == [];
    } else {
      assert all[0] == steps[0] && all[1..] == steps[1..] + [step];
      RunSnoc(l, Apply(l, s, steps[0]), steps[1..], step);
    }
  }

  ghost predicate Reaches(l: Layout, s0: State, s: State) {
    Init(l, s0) && Typed(l, s) && exists steps :: CanRun(l, s0, steps) && Run(l, s0, steps) == s
  }

  lemma Extend(l: Layout, s0: State, s: State, step: Step)
    requires Reaches(l, s0, s) && Enabled(l, s, step)
    ensures Reaches(l, s0, Apply(l, s, step))
  {
    var steps :| CanRun(l, s0, steps) && Run(l, s0, steps) == s;
    RunSnoc(l, s0, steps, step);
  }

  lemma BootIo(l: Layout, s0: State, s: State) returns (s': State)
    requires Reaches(l, s0, s) && s.lh == [] && HeadOk(l, s.disk) && Head(l, s.disk) == []
    requires s.phase == Booting || s.phase == Replaying(0) || s.phase == Erasing
    ensures Reaches(l, s0, s') && s'.lh == [] && s'.slots == s.slots && (!s.phase.Erasing? ==> s'.disk == s.disk)
    ensures s'.phase == if s.phase.Booting? then Replaying(0) else if s.phase.Replaying? then Erasing else Running
  {
    Extend(l, s0, s, Io);
    s' := ApplyIo(l, s);
  }

  /** A clean disk boots: three steps of recovery, and the machine runs with an empty log. */
  lemma Boots(l: Layout, s0: State) returns (s: State)
    requires Init(l, s0) && Head(l, s0.disk) == []
    ensures Reaches(l, s0, s) && s.phase.Running? && s.lh == [] && s.slots == s0.slots
  {
    assert CanRun(l, s0, []) && Run(l, s0, []) == s0;
    s := BootIo(l, s0, s0);
    s := BootIo(l, s0, s);
    s := BootIo(l, s0, s);
  }

  lemma OpenOne(l: Layout, s0: State, s: State, p: nat) returns (s': State)
    requires Reaches(l, s0, s) && s.phase.Running? && s.lh == [] && p < |s.slots| && s.slots[p].Idle?
    requires (Outstanding(s.slots) + 1) * l.maxOp <= l.logSize
    ensures Reaches(l, s0, s') && s'.phase.Running? && s'.lh == [] && Outstanding(s'.slots) == Outstanding(s.slots) + 1
    ensures s'.slots == s.slots[p := Open(s.nextOp, {})]
  {
    Extend(l, s0, s, Begin(p));
    s' := Apply(l, s, Begin(p));
    CountUpdate(s.slots, p, s'.slots[p], l.maxOp);
  }

  /** The first three slots begin an operation each. */
  lemma Opens(l: Layout, s0: State, s: State) returns (s': State)
    requires Reaches(l, s0, s) && s.phase.Running? && s.lh == [] && 3 <= |s.slots| && Outstanding(s.slots) == 0
    requires 3 * l.maxOp <= l.logSize && s.slots[0].Idle? && s.slots[1].Idle? && s.slots[2].Idle?
    ensures Reaches(l, s0, s') && s'.phase.Running? && s'.lh == [] && |s'.slots| == |s.slots|
    ensures forall p :: 0 <= p < 3 ==> s'.slots[p].Open? && s'.slots[p].blocks == {}
  {
    s' := OpenOne(l, s0, s, 0);
    s' := OpenOne(l, s0, s', 1);
    s' := OpenOne(l, s0, s', 2);
  }

  /** The blocks behind the log region, one after the other, are what the group holds. */
  ghost predicate Behind(l: Layout, s: State) {
    s.phase.Running? && forall i :: 0 <= i < |s.lh| ==> s.lh[i] == l.start + l.size + i
  }

  lemma NextIsNew(l: Layout, s0: State, s: State, p: nat)
    requires Reaches(l, s0, s) && Behind(l, s) && p < |s.slots| && s.slots[p].Open?
    ensures l.start + l.size + |s.lh| !in s.lh && l.start + l.size + |s.lh| !in s.slots[p].blocks
  {
    var steps :| CanRun(l, s0, steps) && Run(l, s0, steps) == s;
    InitInv(l, s0);
    InvRun(l, s0, steps);
  }

  lemma FillOne(l: Layout, s0: State, s: State, p: nat, data: Block) returns (s': State, x: Slot)
    requires Reaches(l, s0, s) && Behind(l, s) && p < |s.slots| && s.slots[p].Open? && |data| == l.words
    requires |s.slots[p].blocks| < l.maxOp && |s.lh| + 1 < l.size && |s.lh| < l.logSize
    requires l.start + l.size + |s.lh| < l.blocks
    ensures Reaches(l, s0, s') && Behind(l, s') && |s'.lh| == |s.lh| + 1
    ensures x.Open? && |x.blocks| == |s.slots[p].blocks| + 1 && s'.slots == s.slots[p := x]
  {
    NextIsNew(l, s0, s, p);
    var b := l.start + l.size + |s.lh|;
    Extend(l, s0, s, LogBlock(p, b, data));
    s' := Apply(l, s, LogBlock(p, b, data));
    x := Open(s.slots[p].op, s.slots[p].blocks + {b});
  }

  /** Slot p logs n blocks nobody logged before. */
  lemma {:induction false} Fills(l: Layout, s0: State, s: State, p: nat, n: nat, data: Block) returns (s': State)
    requires Reaches(l, s0, s) && Behind(l, s) && p < |s.slots| && s.slots[p].Open? && |data| == l.words
    requires |s.slots[p].blocks| + n <= l.maxOp && |s.lh| + n < l.size && |s.lh| + n <= l.logSize
    requires l.start + l.size + |s.lh| + n <= l.blocks
    ensures Reaches(l, s0, s') && Behind(l, s') && |s'.lh| == |s.lh| + n && |s'.slots| == |s.slots|
    ensures s'.slots[p].Open? && |s'.slots[p].blocks| == |s.slots[p].blocks| + n
    ensures forall q :: 0 <= q < |s.slots| && q != p ==> s'.slots[q] == s.slots[q]
  {
    if n == 0 {
      s' := s;
    } else {
      var u := Fills(l, s0, s, p, n - 1, data);
      var x;
      s', x := FillOne(l, s0, u, p, data);
    }
  }

  /** mkfs gives the log LOGSIZE = 3 * MAXOPBLOCKS blocks, header included.  Then three operations that
      each stay within MAXOPBLOCKS reach, on every such disk, a log_write that stops the machine. */
  lemma BudgetDoesNotPreventPanic(l: Layout, s0: State, data: Block) returns (s: State, b: int)
    requires Init(l, s0) && Head(l, s0.disk) == [] && |s0.slots| >= 3 && |data| == l.words
    requires l.size == l.logSize == 3 * l.maxOp && l.maxOp > 0 && l.start + l.size + 3 * l.maxOp <= l.blocks
    ensures Reaches(l, s0, s) && s.phase.Running? && Outstanding(s.slots) >= 3 && b !in s.lh
    ensures Enabled(l, s, LogBlock(2, b, data)) && Apply(l, s, LogBlock(2, b, data)).phase.Halted?
  {
    s := Boots(l, s0);
    NoneOpen(s.slots);
    s := Opens(l, s0, s);
    s := Fills(l, s0, s, 0, l.maxOp, data);
    s := Fills(l, s0, s, 1, l.maxOp, data);
    s := Fills(l, s0, s, 2, l.maxOp - 1, data);
    b := l.start + l.size + |s.lh|;
    NextIsNew(l, s0, s, 2);
    ThreeOpen(s.slots);
  }

  lemma {:induction false} ThreeOpen(slots: seq<Slot>)
    requires |slots| >= 3 && slots[0].Open? && slots[1].Open? && slots[2].Open?
    ensures Outstanding(slots) >= 3
  {
    if |slots| == 3 {
      assert slots[..2][..1] == [slots[0]];
    } else {
      ThreeOpen(slots[..|slots| - 1]);
    }
  }

  /** The layout of the disk that mkfs builds: 30 log blocks at block 2, of 1000 blocks of 256 words. */
  const XV6: Layout := Layout(2, 30, 30, 10, 256, 1000)

  lemma BuiltDiskPanics(s0: State, data: Block) returns (s: State, b: int)
    requires Init(XV6, s0) && Head(XV6, s0.disk) == [] && |s0.slots| >= 3 && |data| == XV6.words
    ensures Reaches(XV6, s0, s) && s.phase.Running? && b !in s.lh
    ensures Enabled(XV6, s, LogBlock(2, b, data)) && Apply(XV6, s, LogBlock(2, b, data)).phase.Halted?
  {
    s, b := BudgetDoesNotPreventPanic(XV6, s0, data);
  }
}
