/** The buffer cache shared by any number of processes.  Each step is one critical section of
    kernel/bio.c or one sleep-lock operation, so a run is any interleaving of them; log_write and
    the unpinning of install_trans appear with their effect on the cache. */
module BufferRuns {
  import opened BufferCache

  /** (device, block number) */
  type Key = (nat, nat)

  /** One use of a buffer, from bget to brelse. */
  datatype Handle =
    | Free
    | Waiting(b: nat, key: Key)
    | Locked(b: nat, key: Key)
    | Ready(b: nat, key: Key)
    | Leaving(b: nat, key: Key)

  /** `owner`: the handle holding the buffer's sleep lock, or -1.  `dirty`: the buffer was changed and
      neither logged nor written since; `flushed`: the last thing done with it was bwrite.  `logged` holds
      the data last logged for each block of the running transaction, `pins` the buffer bpin was called on. */
  datatype State = State(
    bufs: seq<Buf>, lru: seq<nat>, owner: seq<int>, dirty: seq<bool>, flushed: seq<bool>, handles: seq<Handle>,
    disk: map<Key, Block>, logged: map<Key, Block>, pins: map<Key, nat>)

  datatype Step =
    | Get(h: nat, key: Key)
    | Acquire(h: nat)
    | Fill(h: nat)
    | Modify(h: nat, data: Block)
    | LogWrite(h: nat)
    | Bwrite(h: nat)
    | Unpin(h: nat)
    | Unlock(h: nat)
    | Drop(h: nat)

  function KeyOf(x: Buf): Key {
    (x.dev, x.blockno)
  }

  function OnDisk(disk: map<Key, Block>, k: Key): Block {
    if k in disk then disk[k] else []
  }

  /** What an uncached disk overlaid with the logged writes would return. */
  function View(s: State, k: Key): Block {
    if k in s.logged then s.logged[k] else OnDisk(s.disk, k)
  }

  predicate Holds(x: Handle) {
    x.Locked? || x.Ready?
  }

  function Count(handles: seq<Handle>, b: nat): nat {
    if handles == [] then 0
    else
      var x := handles[|handles| - 1];
      Count(handles[..|handles| - 1], b) + if !x.Free? && x.b == b then 1 else 0
  }

  function Keys(bufs: seq<Buf>): (r: seq<Key>)
    ensures |r| == |bufs| && forall b :: 0 <= b < |bufs| ==> r[b] == KeyOf(bufs[b])
  {
    seq(|bufs|, b requires 0 <= b < |bufs| => KeyOf(bufs[b]))
  }

  function PinCount(keys: seq<Key>, pins: map<Key, nat>, b: nat): nat
    requires b < |keys|
  {
    if keys[b] in pins && pins[keys[b]] == b then 1 else 0
  }

  lemma {:induction false} CountUpdate(handles: seq<Handle>, h: nat, x: Handle, b: nat)
    requires h < |handles|
    ensures Count(handles[h := x], b)
            == Count(handles, b) - (if !handles[h].Free? && handles[h].b == b then 1 else 0)
                                 + (if !x.Free? && x.b == b then 1 else 0)
  {
    var n := |handles| - 1;
    if h == n {
      assert handles[h := x][..n] == handles[..n];
    } else {
      assert handles[h := x][..n] == handles[..n][h := x];
      CountUpdate(handles[..n], h, x, b);
    }
  }

  lemma {:induction false} CountPositive(handles: seq<Handle>, h: nat)
    requires h < |handles| && !handles[h].Free?
    ensures Count(handles, handles[h].b) > 0
  {
    if h < |handles| - 1 {
      CountPositive(handles[..|handles| - 1], h);
    }
  }

  // ---------------------------------------------------------------- the machine

  ghost predicate Typed(s: State) {
    && Permutation(s.lru, |s.bufs|) && |s.owner| == |s.dirty| == |s.flushed| == |s.bufs|
    && (forall h :: 0 <= h < |s.handles| && !s.handles[h].Free? ==> s.handles[h].b < |s.bufs|)
    && (forall k :: k in s.pins ==> s.pins[k] < |s.bufs|)
    && s.pins.Keys == s.logged.Keys
  }

  /** Besides what the code itself waits for: bwrite never contradicts the log, and a buffer is unpinned
      after it was written home.  A buffer may be released although it was changed and not logged: that
      is what writei does with a block whose copy faulted.  If its block is in the transaction already,
      write_log copies the changed buffer, which is LogWrite here. */
  ghost predicate Enabled(s: State, step: Step)
    requires Typed(s)
  {
    && step.h < |s.handles|
    && var x := s.handles[step.h];
       match step
       case Get(h, key) => x.Free? && (Hit(s.bufs, s.lru, key.0, key.1) < |s.lru| || Victim(s.bufs, s.lru) >= 0)
       case Acquire(h) => x.Waiting? && s.owner[x.b] == -1
       case Fill(h) => x.Locked?
       case Modify(h, data) => x.Ready?
       case LogWrite(h) => x.Ready?
       case Bwrite(h) => x.Ready? && (x.key in s.logged ==> s.bufs[x.b].data == s.logged[x.key])
       case Unpin(h) => x.Ready? && s.flushed[x.b] && x.key in s.logged && s.bufs[s.pins[x.key]].refcnt > 0
       case Unlock(h) => x.Ready?
       case Drop(h) => x.Leaving? && s.bufs[x.b].refcnt > 0
  }

  function AddRef(bufs: seq<Buf>, b: nat, d: int): seq<Buf>
    requires b < |bufs| && bufs[b].refcnt + d >= 0
  {
    bufs[b := bufs[b].(refcnt := bufs[b].refcnt + d)]
  }

  /** log_write of buffer b, which holds the block key. */
  ghost function Logging(s: State, b: nat, key: Key): State
    requires Typed(s) && b < |s.bufs|
  {
    s.(bufs := if key in s.logged then s.bufs else AddRef(s.bufs, b, 1),
       pins := if key in s.logged then s.pins else s.pins[key := b],
       logged := s.logged[key := s.bufs[b].data],
       dirty := s.dirty[b := false], flushed := s.flushed[b := false])
  }

  /** install_trans's bunpin, after which the block is no longer part of the transaction. */
  ghost function Unpinning(s: State, key: Key): State
    requires Typed(s) && key in s.logged && s.bufs[s.pins[key]].refcnt > 0
  {
    s.(bufs := AddRef(s.bufs, s.pins[key], -1), pins := s.pins - {key}, logged := s.logged - {key})
  }

  ghost function Apply(s: State, step: Step): (r: State)
    requires Typed(s) && Enabled(s, step)
  {
    var x := s.handles[step.h];
    match step
    case Get(h, key) =>
      var i := Hit(s.bufs, s.lru, key.0, key.1);
      if i < |s.lru| then
        s.(bufs := AddRef(s.bufs, s.lru[i], 1), handles := s.handles[h := Waiting(s.lru[i], key)])
      else
        var b := s.lru[Victim(s.bufs, s.lru)];
        s.(bufs := s.bufs[b := s.bufs[b].(dev := key.0, blockno := key.1, valid := false, refcnt := 1)],
           dirty := s.dirty[b := false], flushed := s.flushed[b := false],
           handles := s.handles[h := Waiting(b, key)])
    case Acquire(h) => s.(owner := s.owner[x.b := h], handles := s.handles[h := Locked(x.b, x.key)])
    case Fill(h) =>
      var y := s.bufs[x.b];
      s.(bufs := if y.valid then s.bufs else s.bufs[x.b := y.(data := OnDisk(s.disk, x.key), valid := true)],
         handles := s.handles[h := Ready(x.b, x.key)])
    case Modify(h, data) =>
      s.(bufs := s.bufs[x.b := s.bufs[x.b].(data := data)],
         dirty := s.dirty[x.b := true], flushed := s.flushed[x.b := false])
    case LogWrite(h) => Logging(s, x.b, x.key)
    case Bwrite(h) =>
      s.(disk := s.disk[x.key := s.bufs[x.b].data],
         dirty := s.dirty[x.b := false], flushed := s.flushed[x.b := true])
    case Unpin(h) => Unpinning(s, x.key)
    case Unlock(h) => s.(owner := s.owner[x.b := -1], handles := s.handles[h := Leaving(x.b, x.key)])
    case Drop(h) =>
      var bufs := AddRef(s.bufs, x.b, -1);
      var k := Pos(s.lru, x.b);
      s.(bufs := bufs, lru := if bufs[x.b].refcnt == 0 then ToFront(s.lru, k) else s.lru,
         handles := s.handles[h := Free])
  }

  // ---------------------------------------------------------------- invariants

  /** At most one buffer for a block of a device other than 0. */
  ghost predicate Unique(keys: seq<Key>) {
    forall i, j :: 0 <= i < j < |keys| && keys[i] == keys[j] ==> keys[i].0 == 0
  }

  ghost predicate Counted(bufs: seq<Buf>, keys: seq<Key>, handles: seq<Handle>, pins: map<Key, nat>)
    requires |keys| == |bufs|
  {
    forall b :: 0 <= b < |bufs| ==> bufs[b].refcnt == Count(handles, b) + PinCount(keys, pins, b)
  }

  /** Handles and pins name the buffer that holds their block. */
  ghost predicate Named(keys: seq<Key>, handles: seq<Handle>, pins: map<Key, nat>) {
    && (forall h :: 0 <= h < |handles| && !handles[h].Free? ==>
          handles[h].b < |keys| && keys[handles[h].b] == handles[h].key)
    && (forall k :: k in pins ==> pins[k] < |keys| && keys[pins[k]] == k)
  }

  /** A buffer's lock has one owner, and that is the handle inside acquiresleep..releasesleep. */
  ghost predicate Exclusive(owner: seq<int>, handles: seq<Handle>) {
    && (forall h :: 0 <= h < |handles| && Holds(handles[h]) ==>
          handles[h].b < |owner| && owner[handles[h].b] == h)
    && (forall b :: 0 <= b < |owner| && owner[b] != -1 ==>
          0 <= owner[b] < |handles| && Holds(handles[owner[b]]) && handles[owner[b]].b == b)
  }

  /** A valid buffer without unlogged changes holds what the overlaid disk holds. */
  ghost predicate Agrees(s: State, b: nat)
    requires Typed(s) && b < |s.bufs|
  {
    s.bufs[b].valid && s.bufs[b].dev != 0 ==>
      && (s.flushed[b] ==> OnDisk(s.disk, KeyOf(s.bufs[b])) == s.bufs[b].data)
      && (!s.dirty[b] ==> View(s, KeyOf(s.bufs[b])) == s.bufs[b].data)
  }

  ghost predicate Coherent(s: State)
    requires Typed(s)
  {
    && (forall h :: 0 <= h < |s.handles| && s.handles[h].Ready? ==> s.bufs[s.handles[h].b].valid)
    && (forall k :: k in s.pins ==> s.bufs[s.pins[k]].valid)
    && (forall b :: 0 <= b < |s.bufs| && s.dirty[b] ==> s.bufs[b].valid)
    && (forall b: nat {:trigger Agrees(s, b)} :: b < |s.bufs| ==> Agrees(s, b))
  }

  ghost predicate RefInv(s: State) {
    && Typed(s)
    && Unique(Keys(s.bufs))
    && Counted(s.bufs, Keys(s.bufs), s.handles, s.pins)
    && Named(Keys(s.bufs), s.handles, s.pins)
    && Exclusive(s.owner, s.handles)
  }

  ghost predicate Inv(s: State) {
    RefInv(s) && Coherent(s)
  }

  // ---------------------------------------------------------------- references, step by step

  lemma AllCounts(handles: seq<Handle>, h: nat, x: Handle)
    requires h < |handles|
    ensures forall b: nat ::
              Count(handles[h := x], b)
              == Count(handles, b) - (if !handles[h].Free? && handles[h].b == b then 1 else 0)
                 + (if !x.Free? && x.b == b then 1 else 0)
  {
    forall b: nat { CountUpdate(handles, h, x, b); }
  }

  /** A recycled buffer is referenced by no handle and by no pin. */
  lemma VictimIsUnused(s: State, b: nat)
    requires RefInv(s) && b < |s.bufs| && s.bufs[b].refcnt == 0
    ensures forall h :: 0 <= h < |s.handles| && !s.handles[h].Free? ==> s.handles[h].b != b
    ensures forall k :: k in s.pins ==> s.pins[k] != b
    ensures s.owner[b] == -1
  {
    forall h | 0 <= h < |s.handles| && !s.handles[h].Free? ensures s.handles[h].b != b {
      CountPositive(s.handles, h);
    }
  }

  lemma HitRefs(s: State, h: nat, key: Key)
    requires RefInv(s) && Enabled(s, Get(h, key)) && Hit(s.bufs, s.lru, key.0, key.1) < |s.lru|
    ensures RefInv(Apply(s, Get(h, key)))
  {
    assert Keys(Apply(s, Get(h, key)).bufs) == Keys(s.bufs);
    AllCounts(s.handles, h, Waiting(s.lru[Hit(s.bufs, s.lru, key.0, key.1)], key));
  }

  lemma RenameUnused(keys: seq<Key>, handles: seq<Handle>, pins: map<Key, nat>, b: nat, key: Key, h: nat)
    requires Unique(keys) && Named(keys, handles, pins) && b < |keys| && h < |handles| && key !in keys
    requires forall g :: 0 <= g < |handles| && !handles[g].Free? ==> handles[g].b != b
    requires forall k :: k in pins ==> pins[k] != b
    ensures Unique(keys[b := key]) && Named(keys[b := key], handles[h := Waiting(b, key)], pins)
    ensures forall i: nat :: i < |keys| ==>
              PinCount(keys[b := key], pins, i) == if i == b then 0 else PinCount(keys, pins, i)
  {
    forall i: nat | i < |keys|
      ensures PinCount(keys[b := key], pins, i) == if i == b then 0 else PinCount(keys, pins, i)
    {
      if i == b { assert keys[b := key][i] == key; }
    }
  }

  lemma NotCached(bufs: seq<Buf>, lru: seq<nat>, key: Key)
    requires Permutation(lru, |bufs|) && Hit(bufs, lru, key.0, key.1) == |lru|
    ensures key !in Keys(bufs)
  {
    forall i: nat | i < |bufs| ensures Keys(bufs)[i] != key {
      assert lru[Pos(lru, i)] == i;
    }
  }

  lemma NewKey(bufs: seq<Buf>, b: nat, y: Buf)
    requires b < |bufs|
    ensures Keys(bufs[b := y]) == Keys(bufs)[b := KeyOf(y)]
  {
  }

  /** The counts after an unused buffer b took the new name and its first handle. */
  lemma Recounted(bufs: seq<Buf>, keys: seq<Key>, handles: seq<Handle>, pins: map<Key, nat>, bufs': seq<Buf>,
                  keys': seq<Key>, b: nat, key: Key, h: nat)
    requires |keys| == |bufs| == |bufs'| == |keys'| && b < |bufs| && h < |handles| && handles[h].Free?
    requires Counted(bufs, keys, handles, pins) && bufs[b].refcnt == 0
    requires bufs' == bufs[b := bufs'[b]] && bufs'[b].refcnt == 1
    requires forall i: nat :: i < |keys| ==> PinCount(keys', pins, i) == if i == b then 0 else PinCount(keys, pins, i)
    ensures Counted(bufs', keys', handles[h := Waiting(b, key)], pins)
  {
    AllCounts(handles, h, Waiting(b, key));
  }

  lemma MissRefs(s: State, h: nat, key: Key)
    requires RefInv(s) && Enabled(s, Get(h, key)) && Hit(s.bufs, s.lru, key.0, key.1) == |s.lru|
    ensures RefInv(Apply(s, Get(h, key)))
  {
    var b := s.lru[Victim(s.bufs, s.lru)];
    VictimIsUnused(s, b);
    NotCached(s.bufs, s.lru, key);
    RenameUnused(Keys(s.bufs), s.handles, s.pins, b, key, h);
    var y := s.bufs[b].(dev := key.0, blockno := key.1, valid := false, refcnt := 1);
    NewKey(s.bufs, b, y);
    Recounted(s.bufs, Keys(s.bufs), s.handles, s.pins, s.bufs[b := y], Keys(s.bufs)[b := key], b, key, h);
  }

  lemma LockRefs(s: State, step: Step)
    requires RefInv(s) && Enabled(s, step) && (step.Acquire? || step.Unlock?)
    ensures RefInv(Apply(s, step))
  {
    AllCounts(s.handles, step.h, Apply(s, step).handles[step.h]);
  }

  lemma SameKeys(bufs: seq<Buf>, b: nat, y: Buf)
    requires b < |bufs| && KeyOf(y) == KeyOf(bufs[b])
    ensures Keys(bufs[b := y]) == Keys(bufs)
  {
  }

  lemma FillRefs(s: State, h: nat)
    requires RefInv(s) && Enabled(s, Fill(h))
    ensures RefInv(Apply(s, Fill(h)))
  {
    var s' := Apply(s, Fill(h));
    assert Keys(s'.bufs) == Keys(s.bufs);
    AllCounts(s.handles, h, s'.handles[h]);
  }

  lemma DataRefs(s: State, step: Step)
    requires RefInv(s) && Enabled(s, step) && (step.Modify? || step.Bwrite?)
    ensures RefInv(Apply(s, step))
  {
    if step.Modify? {
      var b := s.handles[step.h].b;
      SameKeys(s.bufs, b, s.bufs[b].(data := step.data));
    }
  }

  lemma PinRefs(s: State, h: nat)
    requires RefInv(s) && Enabled(s, LogWrite(h))
    ensures RefInv(Apply(s, LogWrite(h)))
  {
    assert Keys(Apply(s, LogWrite(h)).bufs) == Keys(s.bufs);
  }

  lemma UnpinRefs(s: State, h: nat)
    requires RefInv(s) && Enabled(s, Unpin(h))
    ensures RefInv(Apply(s, Unpin(h)))
  {
    assert Keys(Apply(s, Unpin(h)).bufs) == Keys(s.bufs);
  }

  lemma DropRefs(s: State, h: nat)
    requires RefInv(s) && Enabled(s, Drop(h))
    ensures RefInv(Apply(s, Drop(h)))
  {
    assert Keys(Apply(s, Drop(h)).bufs) == Keys(s.bufs);
    AllCounts(s.handles, h, Free);
    ToFrontPermutes(s.lru, |s.bufs|, Pos(s.lru, s.handles[h].b));
  }

  lemma RefStep(s: State, step: Step)
    requires RefInv(s) && Enabled(s, step)
    ensures RefInv(Apply(s, step))
  {
    match step
    case Get(h, key) =>
      if Hit(s.bufs, s.lru, key.0, key.1) < |s.lru| { HitRefs(s, h, key); } else { MissRefs(s, h, key); }
    case Acquire(h) => LockRefs(s, step);
    case Fill(h) => FillRefs(s, h);
    case Modify(h, data) => DataRefs(s, step);
    case LogWrite(h) => PinRefs(s, h);
    case Bwrite(h) => DataRefs(s, step);
    case Unpin(h) => UnpinRefs(s, h);
    case Unlock(h) => LockRefs(s, step);
    case Drop(h) => DropRefs(s, h);
  }

  // ---------------------------------------------------------------- contents, step by step

  lemma MissCoherent(s: State, h: nat, key: Key)
    requires Typed(s) && Coherent(s) && Enabled(s, Get(h, key)) && Typed(Apply(s, Get(h, key)))
    requires Hit(s.bufs, s.lru, key.0, key.1) == |s.lru|
    requires var b := s.lru[Victim(s.bufs, s.lru)];
             && s.owner[b] == -1
             && (forall g :: 0 <= g < |s.handles| && !s.handles[g].Free? ==> s.handles[g].b != b)
             && (forall k :: k in s.pins ==> s.pins[k] != b)
    ensures Coherent(Apply(s, Get(h, key)))
  {
    forall i: nat | i < |s.bufs| ensures Agrees(Apply(s, Get(h, key)), i) {
      assert Agrees(s, i);
    }
  }

  lemma HitCoherent(s: State, h: nat, key: Key)
    requires Typed(s) && Coherent(s) && Enabled(s, Get(h, key)) && Typed(Apply(s, Get(h, key)))
    requires Hit(s.bufs, s.lru, key.0, key.1) < |s.lru|
    ensures Coherent(Apply(s, Get(h, key)))
  {
    forall i: nat | i < |s.bufs| ensures Agrees(Apply(s, Get(h, key)), i) {
      assert Agrees(s, i);
    }
  }

  /** No other buffer holds this block, unless it is a block of device 0. */
  ghost predicate Sole(s: State, b: nat, key: Key) {
    && b < |s.bufs| && KeyOf(s.bufs[b]) == key
    && forall i :: 0 <= i < |s.bufs| && i != b && KeyOf(s.bufs[i]) == key ==> key.0 == 0
  }

  lemma HandleSole(s: State, h: nat)
    requires RefInv(s) && h < |s.handles| && !s.handles[h].Free?
    ensures Sole(s, s.handles[h].b, s.handles[h].key)
    ensures s.handles[h].key in s.pins && s.handles[h].key.0 != 0 ==> s.pins[s.handles[h].key] == s.handles[h].b
    ensures Holds(s.handles[h]) ==> s.owner[s.handles[h].b] == h
  {
    assert Keys(s.bufs)[s.handles[h].b] == s.handles[h].key;
    forall i | 0 <= i < |s.bufs| && i != s.handles[h].b && KeyOf(s.bufs[i]) == s.handles[h].key
      ensures s.handles[h].key.0 == 0
    {
      assert Keys(s.bufs)[i] == KeyOf(s.bufs[i]);
    }
  }

  /** The block read from disk is the overlaid one: a logged block would have been found cached. */
  lemma FillCoherent(s: State, h: nat)
    requires Typed(s) && Coherent(s) && Enabled(s, Fill(h)) && Typed(Apply(s, Fill(h)))
    requires var x := s.handles[h];
             Sole(s, x.b, x.key) && (x.key in s.pins && x.key.0 != 0 ==> s.pins[x.key] == x.b)
    ensures Coherent(Apply(s, Fill(h)))
  {
    forall i: nat | i < |s.bufs| ensures Agrees(Apply(s, Fill(h)), i) {
      assert Agrees(s, i);
    }
  }

  lemma ModifyCoherent(s: State, h: nat, data: Block)
    requires Typed(s) && Coherent(s) && Enabled(s, Modify(h, data)) && Typed(Apply(s, Modify(h, data)))
    requires Sole(s, s.handles[h].b, s.handles[h].key) && s.owner[s.handles[h].b] == h
    ensures Coherent(Apply(s, Modify(h, data)))
  {
    forall i: nat | i < |s.bufs| ensures Agrees(Apply(s, Modify(h, data)), i) {
      assert Agrees(s, i);
    }
  }

  lemma LogWriteCoherent(s: State, b: nat, key: Key)
    requires Typed(s) && Coherent(s) && Sole(s, b, key) && s.bufs[b].valid && Typed(Logging(s, b, key))
    ensures Coherent(Logging(s, b, key))
  {
    var s' := Logging(s, b, key);
    forall i: nat | i < |s.bufs| ensures Agrees(s', i) {
      assert Agrees(s, i);
    }
  }

  lemma BwriteCoherent(s: State, h: nat)
    requires Typed(s) && Coherent(s) && Enabled(s, Bwrite(h)) && Typed(Apply(s, Bwrite(h)))
    requires Sole(s, s.handles[h].b, s.handles[h].key) && s.owner[s.handles[h].b] == h
    ensures Coherent(Apply(s, Bwrite(h)))
  {
    forall i: nat | i < |s.bufs| ensures Agrees(Apply(s, Bwrite(h)), i) {
      assert Agrees(s, i);
    }
  }

  lemma UnpinCoherent(s: State, b: nat, key: Key)
    requires Typed(s) && Coherent(s) && Sole(s, b, key) && s.bufs[b].valid && s.flushed[b]
    requires key in s.logged && s.bufs[s.pins[key]].refcnt > 0 && Typed(Unpinning(s, key))
    ensures Coherent(Unpinning(s, key))
  {
    var s' := Unpinning(s, key);
    forall i: nat | i < |s.bufs| ensures Agrees(s', i) {
      assert Agrees(s, i) && Agrees(s, b);
    }
  }

  lemma LockCoherent(s: State, step: Step)
    requires Typed(s) && Coherent(s) && Enabled(s, step) && Typed(Apply(s, step))
    requires step.Acquire? || step.Unlock?
    ensures Coherent(Apply(s, step))
  {
    forall i: nat | i < |s.bufs| ensures Agrees(Apply(s, step), i) {
      assert Agrees(s, i);
    }
  }

  lemma DropCoherent(s: State, h: nat)
    requires Typed(s) && Coherent(s) && Enabled(s, Drop(h)) && Typed(Apply(s, Drop(h)))
    ensures Coherent(Apply(s, Drop(h)))
  {
    forall i: nat | i < |s.bufs| ensures Agrees(Apply(s, Drop(h)), i) {
      assert Agrees(s, i);
    }
  }

  lemma InvStep(s: State, step: Step)
    requires Inv(s) && Enabled(s, step)
    ensures Inv(Apply(s, step))
  {
    RefStep(s, step);
    if step.Get? {
      if Hit(s.bufs, s.lru, step.key.0, step.key.1) == |s.lru| {
        VictimIsUnused(s, s.lru[Victim(s.bufs, s.lru)]);
        MissCoherent(s, step.h, step.key);
      } else {
        HitCoherent(s, step.h, step.key);
      }
    } else {
      HandleSole(s, step.h);
      match step
      case Fill(h) => FillCoherent(s, h);
      case Acquire(h) => LockCoherent(s, step);
      case Unlock(h) => LockCoherent(s, step);
      case Drop(h) => DropCoherent(s, h);
      case Modify(h, data) => ModifyCoherent(s, h, data);
      case LogWrite(h) => LogWriteCoherent(s, s.handles[h].b, s.handles[h].key);
      case Bwrite(h) => BwriteCoherent(s, h);
      case Unpin(h) => UnpinCoherent(s, s.handles[h].b, s.handles[h].key);
    }
  }

  // ---------------------------------------------------------------- whole runs

  ghost predicate Init(s: State) {
    && Typed(s) && s.logged == map[]
    && (forall b :: 0 <= b < |s.bufs| ==> s.bufs[b] == Buf(0, 0, false, 0, []) && s.owner[b] == -1 && !s.dirty[b])
    && (forall h :: 0 <= h < |s.handles| ==> s.handles[h].Free?)
  }

  ghost predicate Next(s: State, s': State) {
    Typed(s) && exists step :: Enabled(s, step) && s' == Apply(s, step)
  }

  /** A run: any interleaving of steps, from any initial state. */
  ghost predicate IsRun(t: seq<State>) {
    && |t| > 0 && Init(t[0])
    && forall i :: 0 < i < |t| ==> Next(t[i - 1], t[i])
  }

  ghost predicate Reachable(s: State) {
    exists t :: IsRun(t) && t[|t| - 1] == s
  }

  lemma {:induction false} NoHandles(handles: seq<Handle>, b: nat)
    requires forall h :: 0 <= h < |handles| ==> handles[h].Free?
    ensures Count(handles, b) == 0
  {
    if handles != [] {
      NoHandles(handles[..|handles| - 1], b);
    }
  }

  lemma InitInv(s: State)
    requires Init(s)
    ensures Inv(s)
  {
    forall b: nat ensures Count(s.handles, b) == 0 { NoHandles(s.handles, b); }
    assert s.pins == map[];
    assert forall i :: 0 <= i < |s.bufs| ==> Keys(s.bufs)[i] == (0, 0);
  }

  lemma NextInv(s: State, s': State)
    requires Inv(s) && Next(s, s')
    ensures Inv(s')
  {
    var step :| Enabled(s, step) && s' == Apply(s, step);
    InvStep(s, step);
  }

  lemma {:induction false} RunInv(t: seq<State>, i: nat)
    requires IsRun(t) && i < |t|
    ensures Inv(t[i])
  {
    if i == 0 {
      InitInv(t[0]);
    } else {
      RunInv(t, i - 1);
      NextInv(t[i - 1], t[i]);
    }
  }

  lemma ReachableInv(s: State)
    requires Reachable(s)
    ensures Inv(s)
  {
    var t :| IsRun(t) && t[|t| - 1] == s;
    RunInv(t, |t| - 1);
  }

  /** In every state of every run a block of a device other than 0 is in at most one buffer, and a valid
      buffer without unlogged changes, and whose block is not logged, equals its disk block. */
  lemma CacheAgreesWithDisk(s: State, b: nat)
    requires Reachable(s) && b < |s.bufs|
    ensures forall i :: 0 <= i < |s.bufs| && i != b && Keys(s.bufs)[i] == Keys(s.bufs)[b] ==> s.bufs[b].dev == 0
    ensures |s.dirty| == |s.bufs|
    ensures s.bufs[b].valid && s.bufs[b].dev != 0 && !s.dirty[b] && KeyOf(s.bufs[b]) !in s.logged ==>
              s.bufs[b].data == OnDisk(s.disk, KeyOf(s.bufs[b]))
  {
    ReachableInv(s);
    assert Agrees(s, b);
    assert Keys(s.bufs)[b].0 == s.bufs[b].dev;
  }

  /** What any process that locks the buffer next will take for the block is the overlaid block. */
  ghost predicate Settled(s: State, b: nat)
    requires Typed(s) && b < |s.bufs|
  {
    s.bufs[b].valid && s.bufs[b].dev != 0 && s.owner[b] == -1 ==> s.bufs[b].data == View(s, KeyOf(s.bufs[b]))
  }

  /** brelse leaves the buffer settled exactly when its changes were logged or written, or undone. */
  lemma ReleaseSettles(s: State, h: nat)
    requires Reachable(s) && Typed(s) && Enabled(s, Unlock(h)) && s.handles[h].key.0 != 0
    ensures var b, s' := s.handles[h].b, Apply(s, Unlock(h));
            && Typed(s') && b < |s'.bufs|
            && (Settled(s', b) <==> !s.dirty[b] || s.bufs[b].data == View(s, s.handles[h].key))
  {
    ReachableInv(s);
    HandleSole(s, h);
    assert Agrees(s, s.handles[h].b);
  }

  /** bread returns what an uncached disk overlaid with the logged writes would return, exactly when no
      earlier user released the buffer with unlogged changes, or those changed nothing. */
  lemma BreadReturnsOverlay(s: State, h: nat)
    requires Reachable(s) && Typed(s) && Enabled(s, Fill(h)) && s.handles[h].key.0 != 0
    ensures Apply(s, Fill(h)).handles[h] == Ready(s.handles[h].b, s.handles[h].key)
    ensures var b := s.handles[h].b;
            Apply(s, Fill(h)).bufs[b].data == View(s, s.handles[h].key)
            <==> !s.dirty[b] || s.bufs[b].data == View(s, s.handles[h].key)
  {
    ReachableInv(s);
    HandleSole(s, h);
    FillReads(s, h);
  }

  lemma FillReads(s: State, h: nat)
    requires Typed(s) && Coherent(s) && Enabled(s, Fill(h)) && s.handles[h].key.0 != 0
    requires var x := s.handles[h];
             && Sole(s, x.b, x.key) && (x.key in s.pins ==> s.pins[x.key] == x.b)
    ensures var b := s.handles[h].b;
            Apply(s, Fill(h)).bufs[b].data == View(s, s.handles[h].key)
            <==> !s.dirty[b] || s.bufs[b].data == View(s, s.handles[h].key)
  {
    assert Agrees(s, s.handles[h].b);
  }

  // ---------------------------------------------------------------- runs without a faulting copy

  ghost predicate CarefulNext(s: State, s': State) {
    && Typed(s)
    && exists step ::
         && Enabled(s, step) && s' == Apply(s, step)
         && (step.Unlock? ==> !s.dirty[s.handles[step.h].b])
  }

  /** Every user logs or writes what it changed before it calls brelse. */
  ghost predicate IsCarefulRun(t: seq<State>) {
    IsRun(t) && forall i :: 0 < i < |t| ==> CarefulNext(t[i - 1], t[i])
  }

  ghost predicate ChangesAreLocked(s: State) {
    |s.dirty| == |s.owner| && forall b :: 0 <= b < |s.dirty| && s.dirty[b] ==> s.owner[b] != -1
  }

  lemma CarefulStep(s: State, step: Step)
    requires Typed(s) && ChangesAreLocked(s) && Enabled(s, step)
    requires step.Unlock? ==> !s.dirty[s.handles[step.h].b]
    requires Holds(s.handles[step.h]) ==> s.owner[s.handles[step.h].b] == step.h
    ensures ChangesAreLocked(Apply(s, step))
  {
    var s' := Apply(s, step);
    forall b | 0 <= b < |s'.dirty| && s'.dirty[b] ensures s'.owner[b] != -1 {
      assert s.dirty[b] ==> s.owner[b] != -1;
    }
  }

  lemma CarefulNextLocks(s: State, s': State)
    requires Inv(s) && ChangesAreLocked(s) && CarefulNext(s, s')
    ensures ChangesAreLocked(s')
  {
    var step :|
      && Enabled(s, step) && s' == Apply(s, step)
      && (step.Unlock? ==> !s.dirty[s.handles[step.h].b]);
    CarefulStep(s, step);
  }

  lemma {:induction false} CarefulRunLocks(t: seq<State>, i: nat)
    requires IsCarefulRun(t) && i < |t|
    ensures ChangesAreLocked(t[i])
  {
    if i > 0 {
      CarefulRunLocks(t, i - 1);
      RunInv(t, i - 1);
      CarefulNextLocks(t[i - 1], t[i]);
    }
  }

  /** Then every buffer nobody holds is settled, in every state of the run. */
  lemma CarefulRunIsSettled(t: seq<State>, i: nat, b: nat)
    requires IsCarefulRun(t) && i < |t| && b < |t[i].bufs|
    ensures Typed(t[i]) && Settled(t[i], b)
  {
    RunInv(t, i);
    CarefulRunLocks(t, i);
    assert Agrees(t[i], b);
  }

  // ---------------------------------------------------------------- a write whose copy faults

  lemma {:induction false} AllUnused(bufs: seq<Buf>, lru: seq<nat>, key: Key)
    requires Permutation(lru, |bufs|) && |bufs| > 0 && key.0 != 0
    requires forall b :: 0 <= b < |bufs| ==> bufs[b] == Buf(0, 0, false, 0, [])
    ensures Hit(bufs, lru, key.0, key.1) == |lru| && Victim(bufs, lru) >= 0
  {
  }

  /** Handle 0 is at x and nothing was logged or written since s. */
  ghost predicate Uses(u: State, s: State, x: Handle) {
    && Inv(u) && |u.handles| > 0 && u.handles[0] == x && !x.Free? && KeyOf(u.bufs[x.b]) == x.key
    && u.disk == s.disk && u.logged == map[] && u.owner[x.b] == if Holds(x) then 0 else -1
  }

  lemma UsesGet(s: State, key: Key) returns (u: State, b: nat)
    requires Init(s) && |s.bufs| > 0 && |s.handles| > 0 && key.0 != 0
    ensures Next(s, u) && Uses(u, s, Waiting(b, key))
  {
    AllUnused(s.bufs, s.lru, key);
    b := s.lru[Victim(s.bufs, s.lru)];
    InitInv(s);
    InvStep(s, Get(0, key));
    u := Apply(s, Get(0, key));
  }

  lemma UsesAcquire(s: State, s1: State, b: nat, key: Key) returns (u: State)
    requires Uses(s1, s, Waiting(b, key))
    ensures Next(s1, u) && Uses(u, s, Locked(b, key))
  {
    InvStep(s1, Acquire(0));
    u := Apply(s1, Acquire(0));
  }

  lemma UsesFill(s: State, s1: State, b: nat, key: Key) returns (u: State)
    requires Uses(s1, s, Locked(b, key))
    ensures Next(s1, u) && Uses(u, s, Ready(b, key))
  {
    InvStep(s1, Fill(0));
    u := Apply(s1, Fill(0));
  }

  lemma UsesModify(s: State, s1: State, b: nat, key: Key, data: Block) returns (u: State)
    requires Uses(s1, s, Ready(b, key))
    ensures Next(s1, u) && Uses(u, s, Ready(b, key)) && u.bufs[b].data == data
  {
    InvStep(s1, Modify(0, data));
    u := Apply(s1, Modify(0, data));
  }

  lemma UsesUnlock(s: State, s1: State, b: nat, key: Key) returns (u: State)
    requires Uses(s1, s, Ready(b, key))
    ensures Next(s1, u) && Uses(u, s, Leaving(b, key)) && u.bufs[b].data == s1.bufs[b].data && u.bufs[b].valid
  {
    InvStep(s1, Unlock(0));
    u := Apply(s1, Unlock(0));
  }

  lemma RunGrows(t: seq<State>, u: State)
    requires IsRun(t) && Next(t[|t| - 1], u)
    ensures IsRun(t + [u])
  {
    var t' := t + [u];
    forall i | 0 < i < |t'| ensures Next(t'[i - 1], t'[i]) {
      assert i < |t| ==> t'[i - 1] == t[i - 1] && t'[i] == t[i];
    }
  }

  lemma UnlockedBlock(u: State, s: State, b: nat, key: Key)
    requires Uses(u, s, Leaving(b, key)) && u.bufs[b].valid && key.0 != 0
    ensures Settled(u, b) <==> u.bufs[b].data == OnDisk(s.disk, key)
  {
  }

  /** writei of a buffer whose second page is missing: the block is read, the first bytes are copied into
      it, the copy fails, and brelse releases the buffer.  Nothing is logged, yet the next bread of the
      block will return the new bytes. */
  lemma FaultingWrite(s: State, key: Key, data: Block) returns (t: seq<State>, b: nat)
    requires Init(s) && |s.bufs| > 0 && |s.handles| > 0 && key.0 != 0
    ensures IsRun(t) && t[0] == s && |t| == 6
    ensures var u := t[5];
            && Uses(u, s, Leaving(b, key)) && u.bufs[b].valid && u.bufs[b].data == data
            && (Settled(u, b) <==> data == OnDisk(s.disk, key))
  {
    var u;
    t := [s];
    u, b := UsesGet(s, key);
    RunGrows(t, u);
    t := t + [u];
    u := UsesAcquire(s, u, b, key);
    RunGrows(t, u);
    t := t + [u];
    u := UsesFill(s, u, b, key);
    RunGrows(t, u);
    t := t + [u];
    u := UsesModify(s, u, b, key, data);
    RunGrows(t, u);
    t := t + [u];
    u := UsesUnlock(s, u, b, key);
    RunGrows(t, u);
    t := t + [u];
    UnlockedBlock(u, s, b, key);
  }

  lemma KeysStep(s: State, step: Step)
    requires Typed(s) && Enabled(s, step)
    ensures var keys' := Keys(Apply(s, step).bufs);
            || keys' == Keys(s.bufs)
            || (step.Get? && Hit(s.bufs, s.lru, step.key.0, step.key.1) == |s.lru|
                && keys' == Keys(s.bufs)[s.lru[Victim(s.bufs, s.lru)] := step.key])
  {
    var bufs' := Apply(s, step).bufs;
    if step.Get? && Hit(s.bufs, s.lru, step.key.0, step.key.1) == |s.lru| {
      var b := s.lru[Victim(s.bufs, s.lru)];
      NewKey(s.bufs, b, bufs'[b]);
    } else {
      assert Keys(bufs') == Keys(s.bufs) by {
        assert forall b :: 0 <= b < |s.bufs| ==> KeyOf(bufs'[b]) == KeyOf(s.bufs[b]);
      }
    }
  }

  /** A buffer in use or pinned is never recycled: it goes on holding the same block. */
  lemma InUseIsNotRecycled(s: State, step: Step)
    requires Reachable(s) && Typed(s) && Enabled(s, step)
    ensures Named(Keys(Apply(s, step).bufs), s.handles, s.pins)
  {
    ReachableInv(s);
    if step.Get? && Hit(s.bufs, s.lru, step.key.0, step.key.1) == |s.lru| {
      VictimIsUnused(s, s.lru[Victim(s.bufs, s.lru)]);
    }
    NamesKept(s, step);
  }

  lemma NamesKept(s: State, step: Step)
    requires Typed(s) && Enabled(s, step) && Named(Keys(s.bufs), s.handles, s.pins)
    requires step.Get? && Hit(s.bufs, s.lru, step.key.0, step.key.1) == |s.lru| ==>
               var b := s.lru[Victim(s.bufs, s.lru)];
               && (forall g :: 0 <= g < |s.handles| && !s.handles[g].Free? ==> s.handles[g].b != b)
               && (forall k :: k in s.pins ==> s.pins[k] != b)
    ensures Named(Keys(Apply(s, step).bufs), s.handles, s.pins)
  {
    KeysStep(s, step);
  }
}
