/** What the buffer cache promises its users, told from the steps of a run alone: a block is read as it was last
    changed, whatever was recycled and read again in between; and the buffer recycled is the one released longest
    ago. */
module BufferLaws {
  import opened BufferCache
  import opened BufferRuns

  ghost predicate StepAt(t: seq<State>, steps: seq<Step>, i: nat) {
    && i < |steps| && i + 1 < |t|
    && Typed(t[i]) && Enabled(t[i], steps[i]) && t[i + 1] == Apply(t[i], steps[i])
  }

  /** The states of a run and its steps. */
  ghost predicate Trace(t: seq<State>, steps: seq<Step>) {
    && |t| == |steps| + 1 && Init(t[0])
    && forall i: nat {:trigger StepAt(t, steps, i)} :: i < |steps| ==> StepAt(t, steps, i)
  }

  // ---------------------------------------------------------------- histories of the steps

  /** The block that handle h asked for last, in the first i steps. */
  function KeyAt(steps: seq<Step>, i: nat, h: nat): Key
    requires i <= |steps|
  {
    if i == 0 then (0, 0)
    else if steps[i - 1].Get? && steps[i - 1].h == h then steps[i - 1].key
    else KeyAt(steps, i - 1, h)
  }

  /** Handle h has logged or written whatever it changed. */
  predicate Clean(steps: seq<Step>, i: nat, h: nat)
    requires i <= |steps|
  {
    if i == 0 then true
    else if steps[i - 1].h != h then Clean(steps, i - 1, h)
    else if steps[i - 1].Modify? then false
    else steps[i - 1].Get? || steps[i - 1].LogWrite? || steps[i - 1].Bwrite? || Clean(steps, i - 1, h)
  }

  /** What was last put into block k, or what the disk held at first. */
  function Last(disk: map<Key, Block>, steps: seq<Step>, i: nat, k: Key): Block
    requires i <= |steps|
  {
    if i == 0 then OnDisk(disk, k)
    else if steps[i - 1].Modify? && KeyAt(steps, i - 1, steps[i - 1].h) == k then steps[i - 1].data
    else Last(disk, steps, i - 1, k)
  }

  ghost predicate CarefulAt(steps: seq<Step>, i: nat) {
    i < |steps| && (steps[i].Unlock? ==> Clean(steps, i, steps[i].h))
  }

  /** Users log or write what they changed before they call brelse. */
  ghost predicate Careful(steps: seq<Step>) {
    forall i: nat {:trigger CarefulAt(steps, i)} :: i < |steps| ==> CarefulAt(steps, i)
  }

  // ---------------------------------------------------------------- the invariant

  ghost predicate HandleOk(s: State, steps: seq<Step>, i: nat, h: nat)
    requires i <= |steps|
  {
    h < |s.handles| && !s.handles[h].Free? ==>
      && s.handles[h].key == KeyAt(steps, i, h)
      && (s.handles[h].Waiting? || s.handles[h].Locked? ==> Clean(steps, i, h))
  }

  /** A buffer with changes is locked by the handle that made them. */
  ghost predicate DirtyOk(s: State, steps: seq<Step>, i: nat, b: nat)
    requires Typed(s) && i <= |steps|
  {
    b < |s.bufs| && s.dirty[b] ==> s.owner[b] >= 0 && !Clean(steps, i, s.owner[b])
  }

  predicate HasChanges(s: State, b: nat, k: Key) {
    b < |s.bufs| && b < |s.dirty| && s.dirty[b] && KeyOf(s.bufs[b]) == k
  }

  /** A block is, in the one buffer with changes or else on the overlaid disk, as it was last changed. */
  ghost predicate LastOk(s: State, disk: map<Key, Block>, steps: seq<Step>, i: nat, k: Key)
    requires Typed(s) && i <= |steps|
  {
    k.0 != 0 ==>
      && (forall b: nat {:trigger HasChanges(s, b, k)} :: HasChanges(s, b, k) ==>
            s.bufs[b].data == Last(disk, steps, i, k))
      && ((forall b: nat {:trigger HasChanges(s, b, k)} :: !HasChanges(s, b, k)) ==>
            View(s, k) == Last(disk, steps, i, k))
  }

  ghost predicate TraceOk(s: State, disk: map<Key, Block>, steps: seq<Step>, i: nat) {
    && i <= |steps| && Inv(s)
    && (forall h: nat {:trigger HandleOk(s, steps, i, h)} :: HandleOk(s, steps, i, h))
    && (forall b: nat {:trigger DirtyOk(s, steps, i, b)} :: DirtyOk(s, steps, i, b))
    && (forall k: Key {:trigger LastOk(s, disk, steps, i, k)} :: LastOk(s, disk, steps, i, k))
  }

  lemma HandlesKept(s: State, s': State, steps: seq<Step>, i: nat, j: nat, h: nat)
    requires i < |steps| && j == i + 1 && Typed(s) && Enabled(s, steps[i]) && s' == Apply(s, steps[i])
    requires HandleOk(s, steps, i, h)
    ensures HandleOk(s', steps, j, h)
  {
  }

  lemma OtherClean(steps: seq<Step>, i: nat, j: nat, h: int)
    requires i < |steps| && j == i + 1 && h >= 0 && h != steps[i].h
    ensures Clean(steps, j, h) == Clean(steps, i, h)
  {
  }

  lemma DirtyElse(s: State, s': State, steps: seq<Step>, i: nat, j: nat, b: nat)
    requires i < |steps| && j == i + 1 && Typed(s) && Typed(s') && DirtyOk(s, steps, i, b) && |s'.bufs| == |s.bufs|
    requires b < |s.bufs| && s'.owner[b] == s.owner[b] != steps[i].h && (s'.dirty[b] ==> s.dirty[b])
    ensures DirtyOk(s', steps, j, b)
  {
    if s.dirty[b] {
      OtherClean(steps, i, j, s.owner[b]);
    }
  }

  lemma DirtyGet(s: State, s': State, steps: seq<Step>, i: nat, j: nat, b: nat)
    requires i < |steps| && j == i + 1 && Typed(s) && Exclusive(s.owner, s.handles) && Typed(s')
    requires Enabled(s, steps[i]) && s' == Apply(s, steps[i]) && DirtyOk(s, steps, i, b) && steps[i].Get?
    ensures DirtyOk(s', steps, j, b)
  {
    if b < |s.bufs| {
      assert s.owner[b] != steps[i].h;
      DirtyElse(s, s', steps, i, j, b);
    }
  }

  /** A step of a handle that has its buffer. */
  lemma DirtyUse(s: State, s': State, steps: seq<Step>, i: nat, j: nat, b: nat)
    requires i < |steps| && j == i + 1 && Typed(s) && Exclusive(s.owner, s.handles) && Typed(s')
    requires Enabled(s, steps[i]) && s' == Apply(s, steps[i]) && DirtyOk(s, steps, i, b) && !steps[i].Get?
    requires steps[i].Unlock? ==> Clean(steps, i, steps[i].h)
    ensures DirtyOk(s', steps, j, b)
  {
    var h := steps[i].h;
    if b < |s.bufs| && b != s.handles[h].b {
      assert s.owner[b] != h;
      DirtyElse(s, s', steps, i, j, b);
    }
  }

  lemma DirtyKept(s: State, s': State, steps: seq<Step>, i: nat, j: nat, b: nat)
    requires i < |steps| && j == i + 1 && Inv(s) && Enabled(s, steps[i]) && s' == Apply(s, steps[i]) && Typed(s')
    requires DirtyOk(s, steps, i, b) && (steps[i].Unlock? ==> Clean(steps, i, steps[i].h))
    ensures DirtyOk(s', steps, j, b)
  {
    if steps[i].Get? {
      DirtyGet(s, s', steps, i, j, b);
    } else {
      DirtyUse(s, s', steps, i, j, b);
    }
  }

  /** Steps that change neither a buffer with changes nor the overlaid disk. */
  lemma LastSame(s: State, s': State, disk: map<Key, Block>, steps: seq<Step>, i: nat, j: nat, k: Key)
    requires i < |steps| && j == i + 1 && Typed(s) && Typed(s') && LastOk(s, disk, steps, i, k) && !steps[i].Modify?
    requires s'.logged == s.logged && s'.disk == s.disk
    requires forall b: nat {:trigger HasChanges(s', b, k)} ::
               && (HasChanges(s', b, k) <==> HasChanges(s, b, k))
               && (HasChanges(s, b, k) ==> s'.bufs[b].data == s.bufs[b].data)
    ensures LastOk(s', disk, steps, j, k)
  {
    forall b: nat ensures HasChanges(s', b, k) <==> HasChanges(s, b, k) {
    }
  }

  /** The buffers with changes, as they were before the step. */
  ghost predicate DirtySame(s: State, s': State) {
    && |s'.bufs| == |s.bufs| && |s'.dirty| == |s.dirty| == |s.bufs| && s'.logged == s.logged && s'.disk == s.disk
    && forall b: nat {:trigger s'.dirty[b]} :: b < |s.bufs| ==>
         && s'.dirty[b] == s.dirty[b]
         && (s.dirty[b] ==> KeyOf(s'.bufs[b]) == KeyOf(s.bufs[b]) && s'.bufs[b].data == s.bufs[b].data)
  }

  lemma GetLeavesDirty(s: State, s': State, step: Step)
    requires Typed(s) && Enabled(s, step) && s' == Apply(s, step) && step.Get?
    requires Hit(s.bufs, s.lru, step.key.0, step.key.1) == |s.lru| ==> !s.dirty[s.lru[Victim(s.bufs, s.lru)]]
    ensures DirtySame(s, s')
  {
  }

  lemma OthersLeaveDirty(s: State, s': State, step: Step)
    requires Typed(s) && Coherent(s) && Enabled(s, step) && s' == Apply(s, step)
    requires step.Acquire? || step.Fill? || step.Unlock? || step.Drop?
    ensures DirtySame(s, s')
  {
  }

  lemma LastOther(s: State, s': State, disk: map<Key, Block>, steps: seq<Step>, i: nat, j: nat, k: Key)
    requires i < |steps| && j == i + 1 && Typed(s) && Typed(s') && LastOk(s, disk, steps, i, k) && !steps[i].Modify?
    requires DirtySame(s, s')
    ensures LastOk(s', disk, steps, j, k)
  {
    forall b: nat
      ensures HasChanges(s', b, k) <==> HasChanges(s, b, k)
      ensures HasChanges(s, b, k) ==> s'.bufs[b].data == s.bufs[b].data
    {
      if b < |s.bufs| {
        assert s'.dirty[b] == s.dirty[b];
      }
    }
    LastSame(s, s', disk, steps, i, j, k);
  }

  /** The buffer of a handle that is ready holds its block as last changed. */
  lemma ReadyIsLast(s: State, disk: map<Key, Block>, steps: seq<Step>, i: nat, h: nat)
    requires i <= |steps| && Inv(s) && h < |s.handles| && s.handles[h].Ready? && s.handles[h].key.0 != 0
    requires LastOk(s, disk, steps, i, s.handles[h].key)
    ensures s.bufs[s.handles[h].b].data == Last(disk, steps, i, s.handles[h].key)
  {
    var b, k := s.handles[h].b, s.handles[h].key;
    HandleSole(s, h);
    assert Agrees(s, b);
    if s.dirty[b] {
      assert HasChanges(s, b, k);
    } else {
      forall c: nat ensures !HasChanges(s, c, k) {
      }
    }
  }

  lemma LastModify(s: State, s': State, disk: map<Key, Block>, steps: seq<Step>, i: nat, j: nat, k: Key)
    requires i < |steps| && j == i + 1 && Inv(s) && Typed(s') && LastOk(s, disk, steps, i, k)
    requires steps[i].Modify? && Enabled(s, steps[i]) && s' == Apply(s, steps[i])
    requires s.handles[steps[i].h].key == KeyAt(steps, i, steps[i].h)
    ensures LastOk(s', disk, steps, j, k)
  {
    var b, key := s.handles[steps[i].h].b, s.handles[steps[i].h].key;
    HandleSole(s, steps[i].h);
    if key == k {
      assert HasChanges(s', b, k);
    } else {
      forall c: nat ensures HasChanges(s', c, k) <==> HasChanges(s, c, k) {
      }
    }
  }

  /** Another block than the one settled. */
  lemma LastElse(s: State, s': State, disk: map<Key, Block>, steps: seq<Step>, i: nat, j: nat, k: Key, b: nat)
    requires i < |steps| && j == i + 1 && Typed(s) && Typed(s') && LastOk(s, disk, steps, i, k) && !steps[i].Modify?
    requires View(s', k) == View(s, k) && b < |s.bufs| == |s'.bufs| && KeyOf(s.bufs[b]) != k
    requires forall c: nat {:trigger s'.bufs[c]} :: c < |s.bufs| ==>
               && KeyOf(s'.bufs[c]) == KeyOf(s.bufs[c]) && s'.bufs[c].data == s.bufs[c].data
               && (c != b ==> s'.dirty[c] == s.dirty[c])
    ensures LastOk(s', disk, steps, j, k)
  {
    forall c: nat ensures HasChanges(s', c, k) <==> HasChanges(s, c, k) {
      if c < |s.bufs| {
        assert KeyOf(s'.bufs[c]) == KeyOf(s.bufs[c]);
      }
    }
  }

  /** log_write, bwrite and bunpin change no data, and no mark but that of their buffer. */
  lemma SettleFrame(s: State, s': State, step: Step)
    requires Typed(s) && Enabled(s, step) && s' == Apply(s, step) && (step.LogWrite? || step.Bwrite? || step.Unpin?)
    ensures |s'.bufs| == |s.bufs| && |s'.dirty| == |s.dirty|
    ensures forall c: nat {:trigger s'.bufs[c]} :: c < |s.bufs| ==>
              && KeyOf(s'.bufs[c]) == KeyOf(s.bufs[c]) && s'.bufs[c].data == s.bufs[c].data
              && (c != s.handles[step.h].b ==> s'.dirty[c] == s.dirty[c])
    ensures forall k: Key {:trigger View(s', k)} :: k != s.handles[step.h].key ==> View(s', k) == View(s, k)
  {
  }

  /** The block that is logged, written or unpinned. */
  lemma LastHere(s: State, s': State, disk: map<Key, Block>, steps: seq<Step>, i: nat, j: nat, b: nat, k: Key)
    requires i < |steps| && j == i + 1 && Typed(s) && Typed(s') && !steps[i].Modify? && k.0 != 0
    requires b < |s'.bufs| && Agrees(s', b) && Sole(s, b, k) && KeyOf(s'.bufs[b]) == k && s'.bufs[b].valid
    requires s'.bufs[b].data == Last(disk, steps, i, k) && |s'.bufs| == |s.bufs|
    requires forall c: nat {:trigger s'.bufs[c]} :: c < |s.bufs| ==> KeyOf(s'.bufs[c]) == KeyOf(s.bufs[c])
    ensures LastOk(s', disk, steps, j, k)
  {
    forall c: nat | HasChanges(s', c, k) ensures c == b {
    }
    if !s'.dirty[b] {
      assert View(s', k) == s'.bufs[b].data;
    } else {
      assert HasChanges(s', b, k);
    }
  }

  /** log_write, bwrite and bunpin of the handle's block. */
  lemma LastSettles(s: State, s': State, disk: map<Key, Block>, steps: seq<Step>, i: nat, j: nat, k: Key)
    requires i < |steps| && j == i + 1 && Inv(s) && Inv(s') && LastOk(s, disk, steps, i, k)
    requires steps[i].LogWrite? || steps[i].Bwrite? || steps[i].Unpin?
    requires Enabled(s, steps[i]) && s' == Apply(s, steps[i])
    ensures LastOk(s', disk, steps, j, k)
  {
    var h := steps[i].h;
    var b, key := s.handles[h].b, s.handles[h].key;
    HandleSole(s, h);
    SettleFrame(s, s', steps[i]);
    if key != k {
      LastElse(s, s', disk, steps, i, j, k, b);
    } else if k.0 != 0 {
      ReadyIsLast(s, disk, steps, i, h);
      assert Agrees(s', b);
      LastHere(s, s', disk, steps, i, j, b, k);
    }
  }

  lemma LastKept(s: State, s': State, disk: map<Key, Block>, steps: seq<Step>, i: nat, j: nat, k: Key)
    requires TraceOk(s, disk, steps, i) && i < |steps| && j == i + 1 && Inv(s')
    requires Enabled(s, steps[i]) && s' == Apply(s, steps[i])
    ensures LastOk(s', disk, steps, j, k)
  {
    assert LastOk(s, disk, steps, i, k) && HandleOk(s, steps, i, steps[i].h);
    if steps[i].Modify? {
      LastModify(s, s', disk, steps, i, j, k);
    } else if steps[i].LogWrite? || steps[i].Bwrite? || steps[i].Unpin? {
      LastSettles(s, s', disk, steps, i, j, k);
    } else {
      if steps[i].Get? {
        if Hit(s.bufs, s.lru, steps[i].key.0, steps[i].key.1) == |s.lru| {
          var b := s.lru[Victim(s.bufs, s.lru)];
          VictimIsUnused(s, b);
          assert DirtyOk(s, steps, i, b);
        }
        GetLeavesDirty(s, s', steps[i]);
      } else {
        OthersLeaveDirty(s, s', steps[i]);
      }
      LastOther(s, s', disk, steps, i, j, k);
    }
  }

  lemma TraceStep(s: State, s': State, disk: map<Key, Block>, steps: seq<Step>, i: nat, j: nat)
    requires TraceOk(s, disk, steps, i) && i < |steps| && j == i + 1 && CarefulAt(steps, i)
    requires Enabled(s, steps[i]) && s' == Apply(s, steps[i])
    ensures TraceOk(s', disk, steps, j)
  {
    InvStep(s, steps[i]);
    forall h: nat ensures HandleOk(s', steps, j, h) {
      assert HandleOk(s, steps, i, h);
      HandlesKept(s, s', steps, i, j, h);
    }
    forall b: nat ensures DirtyOk(s', steps, j, b) {
      assert DirtyOk(s, steps, i, b);
      DirtyKept(s, s', steps, i, j, b);
    }
    forall k: Key ensures LastOk(s', disk, steps, j, k) {
      LastKept(s, s', disk, steps, i, j, k);
    }
  }

  lemma TraceStarts(s: State, steps: seq<Step>)
    requires Init(s)
    ensures TraceOk(s, s.disk, steps, 0)
  {
    InitInv(s);
    forall k: Key ensures LastOk(s, s.disk, steps, 0, k) {
      forall b: nat ensures !HasChanges(s, b, k) {
      }
    }
  }

  lemma {:induction false} TraceIsOk(t: seq<State>, steps: seq<Step>, i: nat, s: State)
    requires Trace(t, steps) && Careful(steps) && i < |t| && s == t[i]
    ensures TraceOk(s, t[0].disk, steps, i)
  {
    if i == 0 {
      TraceStarts(s, steps);
    } else {
      var before := t[i - 1];
      TraceIsOk(t, steps, i - 1, before);
      assert StepAt(t, steps, i - 1) && CarefulAt(steps, i - 1);
      TraceStep(before, s, t[0].disk, steps, i - 1, i);
    }
  }

  /** The cache is transparent: bread gives the block as it was last changed by whoever had it, or as it was on disk
      at first, whatever was evicted, logged, written or read again meanwhile. */
  lemma BreadGivesLast(t: seq<State>, steps: seq<Step>, i: nat)
    requires Trace(t, steps) && Careful(steps) && i < |steps| && steps[i].Fill? && KeyAt(steps, i, steps[i].h).0 != 0
    ensures var h := steps[i].h;
            && h < |t[i + 1].handles| && t[i + 1].handles[h].Ready? && t[i + 1].handles[h].b < |t[i + 1].bufs|
            && t[i + 1].bufs[t[i + 1].handles[h].b].data == Last(t[0].disk, steps, i, KeyAt(steps, i, h))
  {
    var s, s', h := t[i], t[i + 1], steps[i].h;
    assert StepAt(t, steps, i);
    TraceIsOk(t, steps, i, s);
    TraceIsOk(t, steps, i + 1, s');
    assert HandleOk(s, steps, i, h);
    assert LastOk(s', t[0].disk, steps, i + 1, s.handles[h].key);
    ReadyIsLast(s', t[0].disk, steps, i + 1, h);
  }

  // ---------------------------------------------------------------- the disk

  /** What bwrite last put on the disk for block k: the block as last changed by then. */
  function Written(disk: map<Key, Block>, steps: seq<Step>, i: nat, k: Key): Block
    requires i <= |steps|
  {
    if i == 0 then OnDisk(disk, k)
    else if steps[i - 1].Bwrite? && KeyAt(steps, i - 1, steps[i - 1].h) == k then Last(disk, steps, i - 1, k)
    else Written(disk, steps, i - 1, k)
  }

  /** Only bwrite changes the disk, and it changes its own block only, to the data of its buffer. */
  lemma DiskStep(s: State, s': State, step: Step, k: Key)
    requires Typed(s) && Enabled(s, step) && s' == Apply(s, step)
    ensures OnDisk(s'.disk, k) == if step.Bwrite? && s.handles[step.h].key == k
                                  then s.bufs[s.handles[step.h].b].data else OnDisk(s.disk, k)
  {
  }

  /** After any run of careful users the disk holds each block as it was when bwrite was last called for it. */
  lemma {:induction false} DiskIsWritten(t: seq<State>, steps: seq<Step>, i: nat, s: State, k: Key)
    requires Trace(t, steps) && Careful(steps) && i < |t| && s == t[i] && k.0 != 0
    ensures OnDisk(s.disk, k) == Written(t[0].disk, steps, i, k)
  {
    if i > 0 {
      var before, step := t[i - 1], steps[i - 1];
      DiskIsWritten(t, steps, i - 1, before, k);
      TraceIsOk(t, steps, i - 1, before);
      assert StepAt(t, steps, i - 1) && HandleOk(before, steps, i - 1, step.h);
      DiskStep(before, s, step, k);
      if step.Bwrite? && before.handles[step.h].key == k {
        assert LastOk(before, t[0].disk, steps, i - 1, k);
        ReadyIsLast(before, t[0].disk, steps, i - 1, step.h);
      }
    }
  }

  // ---------------------------------------------------------------- the least recently used buffer

  /** Step i is a brelse that leaves buffer b without references. */
  ghost predicate Frees(t: seq<State>, steps: seq<Step>, i: nat, b: nat)
    requires Trace(t, steps) && i < |steps|
  {
    && steps[i].Drop? && steps[i].h < |t[i].handles| && !t[i].handles[steps[i].h].Free?
    && t[i].handles[steps[i].h].b == b && b < |t[i + 1].bufs| && t[i + 1].bufs[b].refcnt == 0
  }

  /** The time buffer b was last released for good in the first i steps, 0 if never. */
  ghost function Freed(t: seq<State>, steps: seq<Step>, i: nat, b: nat): (r: nat)
    requires Trace(t, steps) && i <= |steps|
    ensures r <= i
  {
    if i == 0 then 0 else if Frees(t, steps, i - 1, b) then i else Freed(t, steps, i - 1, b)
  }

  lemma AtPos(lru: seq<nat>, n: nat, k: nat)
    requires Permutation(lru, n) && k < n
    ensures Pos(lru, lru[k]) == k
  {
    var p := Pos(lru, lru[k]);
    assert lru[p] == lru[k];
  }

  lemma ToFrontPos(lru: seq<nat>, n: nat, k: nat, b: nat)
    requires Permutation(lru, n) && k < n && b < n
    ensures Permutation(ToFront(lru, k), n)
    ensures var p := Pos(lru, b);
            Pos(ToFront(lru, k), b) == if p < k then p + 1 else if p == k then 0 else p
  {
    ToFrontPermutes(lru, n, k);
    var p, r := Pos(lru, b), ToFront(lru, k);
    var q := if p < k then p + 1 else if p == k then 0 else p;
    assert r[q] == b;
    AtPos(r, n, q);
  }

  /** Of two buffers, the one released later is nearer to the front. */
  predicate InOrder(lru: seq<nat>, c: nat, d: nat, freedC: nat, freedD: nat) {
    c in lru && d in lru && freedC > freedD ==> Pos(lru, c) < Pos(lru, d)
  }

  lemma ToFrontOrders(lru: seq<nat>, n: nat, k: nat, c: nat, d: nat, freedC: nat, freedD: nat, now: nat)
    requires Permutation(lru, n) && k < n && freedC < now && freedD < now && InOrder(lru, c, d, freedC, freedD)
    ensures InOrder(ToFront(lru, k), c, d, if c == lru[k] then now else freedC, if d == lru[k] then now else freedD)
  {
    ToFrontPermutes(lru, n, k);
    if c < n && d < n {
      AtPos(lru, n, k);
      ToFrontPos(lru, n, k, c);
      ToFrontPos(lru, n, k, d);
    }
  }

  lemma ListKept(s: State, s': State, step: Step)
    requires Typed(s) && Enabled(s, step) && s' == Apply(s, step)
    ensures if step.Drop? && s'.bufs[s.handles[step.h].b].refcnt == 0
            then s'.lru == ToFront(s.lru, Pos(s.lru, s.handles[step.h].b)) else s'.lru == s.lru
  {
  }

  lemma OrderKept(s: State, s': State, step: Step, c: nat, d: nat, freedC: nat, freedD: nat, now: nat)
    requires Typed(s) && Enabled(s, step) && s' == Apply(s, step)
    requires freedC < now && freedD < now && InOrder(s.lru, c, d, freedC, freedD)
    ensures if step.Drop? && s'.bufs[s.handles[step.h].b].refcnt == 0 then
              var b := s.handles[step.h].b;
              InOrder(s'.lru, c, d, if c == b then now else freedC, if d == b then now else freedD)
            else InOrder(s'.lru, c, d, freedC, freedD)
  {
    ListKept(s, s', step);
    if step.Drop? {
      ToFrontOrders(s.lru, |s.bufs|, Pos(s.lru, s.handles[step.h].b), c, d, freedC, freedD, now);
    }
  }

  lemma {:induction false} ListIsInOrder(t: seq<State>, steps: seq<Step>, i: nat, s: State, c: nat, d: nat)
    requires Trace(t, steps) && i < |t| && s == t[i]
    ensures InOrder(s.lru, c, d, Freed(t, steps, i, c), Freed(t, steps, i, d))
  {
    if i > 0 {
      var before := t[i - 1];
      ListIsInOrder(t, steps, i - 1, before, c, d);
      assert StepAt(t, steps, i - 1);
      OrderKept(before, s, steps[i - 1], c, d, Freed(t, steps, i - 1, c), Freed(t, steps, i - 1, d), i);
    }
  }

  lemma NotHit(bufs: seq<Buf>, lru: seq<nat>, key: Key)
    requires Permutation(lru, |bufs|) && key !in Keys(bufs)
    ensures Hit(bufs, lru, key.0, key.1) == |lru|
  {
    var keys := Keys(bufs);
    assert forall i :: 0 <= i < |lru| ==> keys[lru[i]] == KeyOf(bufs[lru[i]]);
  }

  /** bget of a block that is not cached recycles, of the buffers nobody references, one released longest ago, and
      renames no other. */
  lemma RecyclesLeastRecent(t: seq<State>, steps: seq<Step>, i: nat, s: State, s': State)
    requires Trace(t, steps) && i < |steps| && s == t[i] && s' == t[i + 1] && steps[i].Get?
    requires steps[i].key !in Keys(s.bufs)
    ensures steps[i].h < |s'.handles| && s'.handles[steps[i].h].Waiting? && |s'.bufs| == |s.bufs|
    ensures var v := s'.handles[steps[i].h].b;
            && v < |s.bufs| && s.bufs[v].refcnt == 0 && KeyOf(s'.bufs[v]) == steps[i].key
            && (forall c: nat :: c < |s.bufs| && c != v ==> s'.bufs[c] == s.bufs[c])
            && (forall c: nat :: c < |s.bufs| && s.bufs[c].refcnt == 0 ==>
                  Freed(t, steps, i, v) <= Freed(t, steps, i, c))
  {
    assert StepAt(t, steps, i);
    NotHit(s.bufs, s.lru, steps[i].key);
    var v := s.lru[Victim(s.bufs, s.lru)];
    forall c: nat | c < |s.bufs| && s.bufs[c].refcnt == 0
      ensures Freed(t, steps, i, v) <= Freed(t, steps, i, c)
    {
      ListIsInOrder(t, steps, i, s, v, c);
      AtPos(s.lru, |s.bufs|, Victim(s.bufs, s.lru));
    }
  }
}
