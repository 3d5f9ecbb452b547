/** The virtqueue bookkeeping of kernel/virtio_disk.c, with a device that completes requests in any
    order (virtio 1.1, sections 2.6 and 5.2). */
module Virtio {
  import opened Counting
  import opened Words

  const NUM: nat := 8

  /** What a descriptor points at: a command header, a buffer's data, or a status byte. */
  datatype Addr = Nowhere | Header(h: nat) | DataOf(b: nat) | StatusOf(h: nat)

  /** hasNext is VRING_DESC_F_NEXT, write is VRING_DESC_F_WRITE (the device writes). */
  datatype Desc = Desc(addr: Addr, write: bool, hasNext: bool, next: nat)

  const CLEARED := Desc(Nowhere, false, false, 0)

  /** A command header. */
  datatype Op = Op(out: bool, sector: nat)

  /** A request: direction, sector and buffer. */
  datatype Req = Req(out: bool, sector: nat, b: nat)

  datatype Info = Info(b: int, status: nat)

  /** The two halves of a block, each the size of a sector. */
  datatype Data = Data(lo: int, hi: int)

  /** What the buffers in memory hold, and what the sectors of the disk hold. */
  datatype Medium = Medium(bufs: map<nat, Data>, store: map<nat, int>)

  function Held(m: Medium, b: nat): Data {
    if b in m.bufs then m.bufs[b] else Data(0, 0)
  }

  function Stored(m: Medium, sector: nat): int {
    if sector in m.store then m.store[sector] else 0
  }

  /** A block of data is moved from a buffer to two sectors, or from there to the buffer. */
  function Transfer(m: Medium, r: Req): Medium {
    if r.out then m.(store := m.store[r.sector := Held(m, r.b).lo][r.sector + 1 := Held(m, r.b).hi])
    else m.(bufs := m.bufs[r.b := Data(Stored(m, r.sector), Stored(m, r.sector + 1))])
  }

  /** The device at the chain with head h (virtio 1.1, sections 2.6.5 and 5.2.6): it reads memory only through
      descriptors without VRING_DESC_F_WRITE and writes it only through those with, and fails a request that asks
      for anything else. */
  function Execute(desc: seq<Desc>, ops: seq<Op>, m: Medium, h: nat): (r: (Medium, nat)) {
    if h >= |desc| || desc[h].write || !desc[h].addr.Header? || desc[h].addr.h >= |ops| || !desc[h].hasNext then (m, 1)
    else
      var op, d := ops[desc[h].addr.h], desc[h].next;
      if d >= |desc| || !desc[d].addr.DataOf? || desc[d].write == op.out then (m, 1)
      else (Transfer(m, Req(op.out, op.sector, desc[d].addr.b)), 0)
  }

  /** Where it writes the status of the request: the third descriptor's byte. */
  function StatusAt(desc: seq<Desc>, h: nat): int {
    if h >= |desc| || !desc[h].hasNext || desc[h].next >= |desc| then -1
    else
      var d1 := desc[h].next;
      if !desc[d1].hasNext || desc[d1].next >= |desc| then -1
      else
        var d2 := desc[d1].next;
        if desc[d2].write && desc[d2].addr.StatusOf? then desc[d2].addr.h else -1
  }

  /** A chain that shows a request makes the device carry it out. */
  lemma ExecutesShown(desc: seq<Desc>, ops: seq<Op>, m: Medium, h: nat, r: Req)
    requires Shows(desc, ops, h, r)
    ensures Execute(desc, ops, m, h) == (Transfer(m, r), 0) && StatusAt(desc, h) == h
  {
  }

  function Count(free: seq<bool>): nat {
    if free == [] then 0 else Count(free[..|free| - 1]) + if free[|free| - 1] then 1 else 0
  }

  lemma {:induction false} CountUpdate(free: seq<bool>, i: nat, x: bool)
    requires i < |free|
    ensures Count(free[i := x]) + (if free[i] then 1 else 0) == Count(free) + if x then 1 else 0
  {
    var n := |free| - 1;
    if i == n {
      assert free[i := x][..n] == free[..n];
    } else {
      CountUpdate(free[..n], i, x);
      assert free[i := x][..n] == free[..n][i := x];
    }
  }

  lemma {:induction false} CountAll(free: seq<bool>)
    requires forall i :: 0 <= i < |free| ==> free[i]
    ensures Count(free) == |free|
  {
    if free != [] {
      CountAll(free[..|free| - 1]);
    }
  }

  lemma {:induction false} CountNone(free: seq<bool>)
    requires forall i :: 0 <= i < |free| ==> !free[i]
    ensures Count(free) == 0
  {
    if free != [] {
      CountNone(free[..|free| - 1]);
    }
  }

  lemma {:induction false} CountSome(free: seq<bool>, i: nat)
    requires i < |free| && free[i]
    ensures Count(free) > 0
  {
    if i < |free| - 1 {
      CountSome(free[..|free| - 1], i);
    }
  }

  /** The three descriptors of the chain with head h. */
  predicate IsChain(desc: seq<Desc>, h: nat, d1: nat, d2: nat) {
    && h < NUM == |desc| && d1 < NUM && d2 < NUM && h != d1 && h != d2 && d1 != d2
    && desc[h].hasNext && desc[h].next == d1 && desc[d1].hasNext && desc[d1].next == d2 && !desc[d2].hasNext
  }

  /** What the device finds under head h. */
  predicate Shows(desc: seq<Desc>, ops: seq<Op>, h: nat, r: Req) {
    && h < NUM == |desc| == |ops| && desc[h].next < NUM && desc[desc[h].next].next < NUM
    && var d1 := desc[h].next; var d2 := desc[d1].next;
    && IsChain(desc, h, d1, d2)
    && desc[h].addr == Header(h) && !desc[h].write && ops[h] == Op(r.out, r.sector)
    && desc[d1].addr == DataOf(r.b) && desc[d1].write == !r.out
    && desc[d2].addr == StatusOf(h) && desc[d2].write
  }

  /** Whose descriptor: free, or the k-th of the chain with head h. */
  datatype Own = Unused | Part(h: nat, k: nat)

  /** The n-th entry of the available ring; read by the device; the n-th entry of the used ring; seen by
      virtio_disk_intr. */
  datatype Stage = Queued(n: nat) | Taken | Done(n: nat) | Handled

  /** The descriptor table with what hangs on it: whose each descriptor is, how far the request of each
      chain has come, and what it asked for. */
  datatype Table = Table(
    desc: seq<Desc>, free: seq<bool>, ops: seq<Op>, info: seq<Info>, busy: map<nat, bool>,
    own: seq<Own>, stage: map<nat, Stage>, want: map<nat, Req>)

  predicate Sized(t: Table) {
    |t.desc| == |t.free| == |t.info| == |t.ops| == |t.own| == NUM
  }

  /** Descriptor i is the k-th of the chain with head h. */
  predicate IsKth(desc: seq<Desc>, h: nat, k: nat, i: nat) {
    || (k == 0 && i == h)
    || (k == 1 && h < |desc| && i == desc[h].next)
    || (k == 2 && h < |desc| && desc[h].next < |desc| && i == desc[desc[h].next].next)
  }

  /** A descriptor is free and clear, or belongs to a live chain. */
  ghost predicate DescOk(t: Table, i: nat)
    requires Sized(t) && i < NUM
  {
    && (t.free[i] <==> t.own[i] == Unused) && (t.free[i] ==> t.desc[i] == CLEARED)
    && (t.own[i].Part? ==> t.own[i].h in t.stage && IsKth(t.desc, t.own[i].h, t.own[i].k, i))
  }

  /** A live chain shows its request, owns its three descriptors, and is recorded in info. */
  ghost predicate HeadOk(t: Table, h: nat)
    requires Sized(t) && h in t.stage
  {
    && h in t.want && Shows(t.desc, t.ops, h, t.want[h])
    && t.own[h] == Part(h, 0) && t.own[t.desc[h].next] == Part(h, 1) && t.own[t.desc[t.desc[h].next].next] == Part(h, 2)
    && t.info[h].b == t.want[h].b && (t.stage[h].Done? ==> t.info[h].status == 0)
    && t.want[h].b in t.busy && t.busy[t.want[h].b] == (t.stage[h] != Handled)
  }

  /** Two live chains are for two buffers. */
  ghost predicate OwnBuf(t: Table, h: nat, g: nat) {
    h in t.stage && g in t.stage && h in t.want && g in t.want && h != g ==> t.want[h].b != t.want[g].b
  }

  ghost predicate AllDescs(t: Table) {
    Sized(t) && forall i: nat {:trigger DescOk(t, i)} :: i < NUM ==> DescOk(t, i)
  }

  ghost predicate AllHeads(t: Table) {
    Sized(t) && forall h: nat {:trigger HeadOk(t, h)} :: h in t.stage ==> HeadOk(t, h)
  }

  ghost predicate OwnBufs(t: Table) {
    forall h: nat, g: nat {:trigger OwnBuf(t, h, g)} :: OwnBuf(t, h, g)
  }

  /** Each descriptor is free or in exactly one live chain; each live chain shows its own request. */
  ghost predicate Chained(t: Table) {
    Count(t.free) + 3 * |t.stage| == NUM && AllDescs(t) && AllHeads(t) && OwnBufs(t)
  }

  /** Entry first + k of the ring is head q[k]. */
  ghost predicate RingAt(ring: seq<nat>, first: nat, q: seq<nat>, k: nat)
    requires |ring| == NUM && k < |q|
  {
    ring[(first + k) % NUM] == q[k]
  }

  /** A ring whose producer is at index hi and whose consumer at lo, n entries having been consumed
      before; both indices have 16 bits. */
  ghost predicate Line(ring: seq<nat>, lo: nat, hi: nat, n: nat, q: seq<nat>) {
    && |ring| == NUM && lo == n % U16 && hi == (n + |q|) % U16
    && forall k: nat {:trigger RingAt(ring, n, q, k)} :: k < |q| ==> RingAt(ring, n, q, k)
  }

  lemma Index(a: nat, b: nat)
    requires b <= a <= b + NUM
    ensures a % U16 == b % U16 <==> a == b
    ensures a % U16 % NUM == a % NUM && (a % U16 + 1) % U16 == (a + 1) % U16
  {
    var p, q := a / U16, b / U16;
    assert a == p * U16 + a % U16 && b == q * U16 + b % U16;
    assert p * U16 == p * 0x2000 * NUM;
  }

  lemma SlotsDiffer(a: nat, b: nat)
    requires b < a < b + NUM
    ensures a % NUM != b % NUM
  {
  }

  lemma LinePush(ring: seq<nat>, lo: nat, hi: nat, n: nat, q: seq<nat>, h: nat)
    requires Line(ring, lo, hi, n, q) && |q| < NUM
    ensures Line(ring[hi % NUM := h], lo, (hi + 1) % U16, n, q + [h])
  {
    Index(n + |q|, n);
    var ring', q' := ring[hi % NUM := h], q + [h];
    forall k: nat | k < |q'| ensures RingAt(ring', n, q', k) {
      if k < |q| {
        SlotsDiffer(n + |q|, n + k);
        assert RingAt(ring, n, q, k);
      }
    }
  }

  lemma LinePop(ring: seq<nat>, lo: nat, hi: nat, n: nat, q: seq<nat>)
    requires Line(ring, lo, hi, n, q) && |q| <= NUM
    ensures lo == hi <==> q == []
    ensures q != [] ==> ring[lo % NUM] == q[0] && Line(ring, (lo + 1) % U16, hi, n + 1, q[1..])
  {
    Index(n + |q|, n);
    Index(n, n);
    if q != [] {
      assert RingAt(ring, n, q, 0);
      var m, rest := n + 1, q[1..];
      forall k: nat | k < |rest| ensures RingAt(ring, m, rest, k) {
        assert RingAt(ring, n, q, k + 1);
      }
    }
  }

  /** Heads the device has not read, oldest first, with the number it has read; heads completed and not
      seen, oldest first, with the number seen. */
  datatype Traffic = Traffic(queue: seq<nat>, taken: nat, done: seq<nat>, seen: nat)

  /** Entry k of a queue of heads. */
  ghost predicate QueuedAt(x: Traffic, stage: map<nat, Stage>, k: nat)
    requires k < |x.queue|
  {
    x.queue[k] in stage && stage[x.queue[k]] == Queued(x.taken + k)
  }

  ghost predicate DoneAt(x: Traffic, stage: map<nat, Stage>, k: nat)
    requires k < |x.done|
  {
    x.done[k] in stage && stage[x.done[k]] == Done(x.seen + k)
  }

  /** Where head h waits. */
  ghost predicate Listed(x: Traffic, stage: map<nat, Stage>, h: nat)
    requires h in stage
  {
    match stage[h]
    case Queued(n) => x.taken <= n < x.taken + |x.queue| && x.queue[n - x.taken] == h
    case Done(n) => x.seen <= n < x.seen + |x.done| && x.done[n - x.seen] == h
    case _ => true
  }

  /** The requests waiting for the device and those waiting for the driver. */
  ghost predicate Queues(x: Traffic, stage: map<nat, Stage>) {
    && (forall k: nat {:trigger QueuedAt(x, stage, k)} :: k < |x.queue| ==> QueuedAt(x, stage, k))
    && (forall k: nat {:trigger DoneAt(x, stage, k)} :: k < |x.done| ==> DoneAt(x, stage, k))
    && (forall h: nat {:trigger Listed(x, stage, h)} :: h in stage ==> Listed(x, stage, h))
  }

  lemma QueuesFew(x: Traffic, stage: map<nat, Stage>)
    requires Queues(x, stage)
    ensures |x.queue| <= |stage| && |x.done| <= |stage|
  {
    forall i: nat | i < |x.queue| ensures x.queue[i] in stage && stage[x.queue[i]] == Queued(x.taken + i) {
      assert QueuedAt(x, stage, i);
    }
    forall i: nat | i < |x.done| ensures x.done[i] in stage && stage[x.done[i]] == Done(x.seen + i) {
      assert DoneAt(x, stage, i);
    }
    DistinctCard(x.queue, stage.Keys);
    DistinctCard(x.done, stage.Keys);
    assert |stage| == |stage.Keys|;
  }

  /** Request h is submitted, completed or given back, read by the device, or seen by the driver. */
  ghost predicate Moved(x: Traffic, stage: map<nat, Stage>, x': Traffic, stage': map<nat, Stage>, h: nat) {
    || (h !in stage && x' == x.(queue := x.queue + [h]) && h in stage' && stage'[h] == Queued(x.taken + |x.queue|))
    || (h in stage && stage[h] == Taken && x' == x.(done := x.done + [h]) && h in stage'
        && stage'[h] == Done(x.seen + |x.done|))
    || (h in stage && stage[h] == Handled && x' == x && h !in stage')
    || (x.queue != [] && h == x.queue[0] && x' == x.(queue := x.queue[1..], taken := x.taken + 1) && h in stage'
        && stage'[h] == Taken)
    || (x.done != [] && h == x.done[0] && x' == x.(done := x.done[1..], seen := x.seen + 1) && h in stage'
        && stage'[h] == Handled)
  }

  lemma OldestIsDone(x: Traffic, stage: map<nat, Stage>)
    requires Queues(x, stage)
    ensures x.done != [] ==> x.done[0] in stage && stage[x.done[0]].Done?
  {
    if x.done != [] {
      assert DoneAt(x, stage, 0);
    }
  }

  ghost predicate SameBut(stage: map<nat, Stage>, stage': map<nat, Stage>, h: nat) {
    forall g :: g != h ==> (g in stage' <==> g in stage) && (g in stage ==> stage'[g] == stage[g])
  }

  lemma QueuedStep(x: Traffic, stage: map<nat, Stage>, x': Traffic, stage': map<nat, Stage>, h: nat, k: nat)
    requires Queues(x, stage) && Moved(x, stage, x', stage', h) && SameBut(stage, stage', h) && k < |x'.queue|
    ensures QueuedAt(x', stage', k)
  {
    if x.queue != [] {
      assert QueuedAt(x, stage, 0);
    }
    if x.taken + |x.queue| > x'.taken + k {
      assert QueuedAt(x, stage, x'.taken + k - x.taken);
    }
    if x.done != [] {
      assert DoneAt(x, stage, 0);
    }
  }

  lemma DoneStep(x: Traffic, stage: map<nat, Stage>, x': Traffic, stage': map<nat, Stage>, h: nat, k: nat)
    requires Queues(x, stage) && Moved(x, stage, x', stage', h) && SameBut(stage, stage', h) && k < |x'.done|
    ensures DoneAt(x', stage', k)
  {
    if x.queue != [] {
      assert QueuedAt(x, stage, 0);
    }
    if x.seen + |x.done| > x'.seen + k {
      assert DoneAt(x, stage, x'.seen + k - x.seen);
    }
    if x.done != [] {
      assert DoneAt(x, stage, 0);
    }
  }

  lemma ListedStep(x: Traffic, stage: map<nat, Stage>, x': Traffic, stage': map<nat, Stage>, h: nat, g: nat)
    requires Queues(x, stage) && Moved(x, stage, x', stage', h) && SameBut(stage, stage', h) && g in stage'
    ensures Listed(x', stage', g)
  {
    if x.queue != [] {
      assert QueuedAt(x, stage, 0);
    }
    if x.done != [] {
      assert DoneAt(x, stage, 0);
    }
    if g != h {
      assert Listed(x, stage, g);
    }
  }

  /** One request moves on and the queues with it. */
  lemma QueuesStep(x: Traffic, stage: map<nat, Stage>, x': Traffic, stage': map<nat, Stage>, h: nat)
    requires Queues(x, stage) && Moved(x, stage, x', stage', h) && SameBut(stage, stage', h)
    ensures Queues(x', stage')
  {
    forall k: nat | k < |x'.queue| ensures QueuedAt(x', stage', k) {
      QueuedStep(x, stage, x', stage', h, k);
    }
    forall k: nat | k < |x'.done| ensures DoneAt(x', stage', k) {
      DoneStep(x, stage, x', stage', h, k);
    }
    forall g: nat | g in stage' ensures Listed(x', stage', g) {
      ListedStep(x, stage, x', stage', h, g);
    }
  }

  lemma AddKey(stage: map<nat, Stage>, h: nat, x: Stage)
    requires h !in stage
    ensures |stage[h := x]| == |stage| + 1
  {
  }

  /** t' is t except at the descriptors h, d1 and d2. */
  predicate SameElsewhere(t: Table, t': Table, h: nat, d1: nat, d2: nat) {
    && Sized(t) && Sized(t')
    && forall i: nat :: i < NUM && i != h && i != d1 && i != d2 ==>
         && t'.desc[i] == t.desc[i] && t'.free[i] == t.free[i] && t'.own[i] == t.own[i]
         && t'.ops[i] == t.ops[i] && t'.info[i] == t.info[i]
  }

  /** From t to t' a request for buffer r.b was put on the three free descriptors h, d1, d2. */
  ghost predicate AddsChain(t: Table, t': Table, h: nat, d1: nat, d2: nat, r: Req, n: nat) {
    && h < NUM && d1 < NUM && d2 < NUM && h != d1 && h != d2 && d1 != d2 && SameElsewhere(t, t', h, d1, d2)
    && t.free[h] && t.free[d1] && t.free[d2] && !t'.free[h] && !t'.free[d1] && !t'.free[d2]
    && h !in t.stage && (forall g :: g in t.stage ==> g in t.want && t.want[g].b != r.b)
    && Shows(t'.desc, t'.ops, h, r) && t'.desc[h].next == d1 && t'.desc[d1].next == d2
    && t'.own[h] == Part(h, 0) && t'.own[d1] == Part(h, 1) && t'.own[d2] == Part(h, 2)
    && t'.info[h] == Info(r.b, 0xff) && t'.busy == t.busy[r.b := true]
    && t'.stage == t.stage[h := Queued(n)] && t'.want == t.want[h := r]
  }

  /** The chain h, d1, d2 was formatted and marked as taken. */
  lemma Formed(t: Table, t': Table, h: nat, d1: nat, d2: nat)
    requires Sized(t) && Sized(t') && h < NUM && d1 < NUM && d2 < NUM && h != d1 && h != d2 && d1 != d2
    requires forall i :: 0 <= i < NUM && i != h && i != d1 && i != d2 ==> t'.desc[i] == t.desc[i]
    requires forall i :: 0 <= i < NUM ==> t'.free[i] == (t.free[i] && i != h && i != d1 && i != d2)
    requires forall i :: 0 <= i < NUM && i != h ==> t'.ops[i] == t.ops[i]
    requires t'.info == t.info[h := t'.info[h]]
    requires t'.own == t.own[h := Part(h, 0)][d1 := Part(h, 1)][d2 := Part(h, 2)]
    ensures SameElsewhere(t, t', h, d1, d2) && !t'.free[h] && !t'.free[d1] && !t'.free[d2]
    ensures t'.own[h] == Part(h, 0) && t'.own[d1] == Part(h, 1) && t'.own[d2] == Part(h, 2)
  {
  }

  lemma NewChain(t: Table, t': Table, h: nat, d1: nat, d2: nat, r: Req, n: nat)
    requires Chained(t) && AddsChain(t, t', h, d1, d2, r, n) && Count(t'.free) + 3 == Count(t.free)
    ensures Chained(t')
  {
    AddKey(t.stage, h, Queued(n));
    Unowned(t, h, d1, d2);
    NewDescs(t, t', h, d1, d2, r, n);
    NewHeads(t, t', h, d1, d2, r, n);
    NewOwnBufs(t, t', h, d1, d2, r, n);
  }

  lemma Unowned(t: Table, h: nat, d1: nat, d2: nat)
    requires AllDescs(t) && h < NUM && d1 < NUM && d2 < NUM && t.free[h] && t.free[d1] && t.free[d2]
    ensures t.own[h] == t.own[d1] == t.own[d2] == Unused
  {
    assert DescOk(t, h) && DescOk(t, d1) && DescOk(t, d2);
  }

  lemma NewDescs(t: Table, t': Table, h: nat, d1: nat, d2: nat, r: Req, n: nat)
    requires AllDescs(t) && AllHeads(t) && AddsChain(t, t', h, d1, d2, r, n)
    requires t.own[h] == t.own[d1] == t.own[d2] == Unused
    ensures AllDescs(t')
  {
    forall i: nat | i < NUM ensures DescOk(t', i) {
      assert DescOk(t, i);
      NewDesc(t, t', h, d1, d2, r, n, i);
    }
  }

  lemma NewHeads(t: Table, t': Table, h: nat, d1: nat, d2: nat, r: Req, n: nat)
    requires AllHeads(t) && AddsChain(t, t', h, d1, d2, r, n) && t.own[h] == t.own[d1] == t.own[d2] == Unused
    ensures AllHeads(t')
  {
    forall g: nat | g in t'.stage ensures HeadOk(t', g) {
      NewHead(t, t', h, d1, d2, r, n, g);
    }
  }

  lemma NewOwnBufs(t: Table, t': Table, h: nat, d1: nat, d2: nat, r: Req, n: nat)
    requires OwnBufs(t) && AddsChain(t, t', h, d1, d2, r, n)
    ensures OwnBufs(t')
  {
    forall g: nat, k: nat ensures OwnBuf(t', g, k) {
      assert OwnBuf(t, g, k);
    }
  }

  lemma NewDesc(t: Table, t': Table, h: nat, d1: nat, d2: nat, r: Req, n: nat, i: nat)
    requires AddsChain(t, t', h, d1, d2, r, n) && i < NUM && DescOk(t, i) && AllHeads(t)
    requires t.own[h] == t.own[d1] == t.own[d2] == Unused
    ensures DescOk(t', i)
  {
    if i != h && i != d1 && i != d2 && t.own[i].Part? {
      assert HeadOk(t, t.own[i].h);
      KeepDesc(t, t', h, d1, d2, i);
    }
  }

  lemma NewHead(t: Table, t': Table, h: nat, d1: nat, d2: nat, r: Req, n: nat, g: nat)
    requires AddsChain(t, t', h, d1, d2, r, n) && g in t'.stage && AllHeads(t)
    requires t.own[h] == t.own[d1] == t.own[d2] == Unused
    ensures HeadOk(t', g)
  {
    if g != h {
      assert HeadOk(t, g);
      KeepChain(t, t', h, d1, d2, r, n, g);
    }
  }

  lemma KeepDesc(t: Table, t': Table, h: nat, d1: nat, d2: nat, i: nat)
    requires SameElsewhere(t, t', h, d1, d2) && h < NUM && d1 < NUM && d2 < NUM && i < NUM
    requires t.own[h] == t.own[d1] == t.own[d2] == Unused
    requires t.own[i].Part? && t.own[i].h in t.stage && HeadOk(t, t.own[i].h)
             && IsKth(t.desc, t.own[i].h, t.own[i].k, i)
    ensures IsKth(t'.desc, t.own[i].h, t.own[i].k, i)
  {
  }

  /** A live chain has none of the free descriptors. */
  lemma KeepChain(t: Table, t': Table, h: nat, d1: nat, d2: nat, r: Req, n: nat, g: nat)
    requires SameElsewhere(t, t', h, d1, d2) && h < NUM && d1 < NUM && d2 < NUM
    requires g in t.stage && HeadOk(t, g) && t.own[h] == t.own[d1] == t.own[d2] == Unused
    requires t'.busy == t.busy[r.b := true] && t.want[g].b != r.b
    requires t'.stage == t.stage[h := Queued(n)] && t'.want == t.want[h := r]
    ensures HeadOk(t', g)
  {
  }

  lemma LiveIsTaken(t: Table, h: nat)
    requires Chained(t) && h in t.stage
    ensures h < NUM && !t.free[h]
  {
    assert HeadOk(t, h);
    assert DescOk(t, h);
  }

  /** From t to t' request h moved on; only its status byte and its buffer's flag may change. */
  ghost predicate Restaged(t: Table, t': Table, h: nat, x: Stage) {
    && Sized(t) && Sized(t') && h in t.stage && h in t.want && h < NUM
    && t'.desc == t.desc && t'.free == t.free && t'.own == t.own && t'.ops == t.ops && t'.want == t.want
    && t'.stage == t.stage[h := x]
    && t'.info == t.info[h := t'.info[h]] && t'.info[h].b == t.info[h].b && (x.Done? ==> t'.info[h].status == 0)
    && t.want[h].b in t.busy && t'.busy == t.busy[t.want[h].b := x != Handled]
  }

  lemma RestagedHeads(t: Table, t': Table, h: nat, x: Stage)
    requires AllHeads(t) && OwnBufs(t) && Restaged(t, t', h, x)
    ensures AllHeads(t') && OwnBufs(t')
  {
    forall g: nat | g in t'.stage ensures HeadOk(t', g) {
      assert HeadOk(t, g) && OwnBuf(t, g, h);
    }
    forall g: nat, k: nat ensures OwnBuf(t', g, k) {
      assert OwnBuf(t, g, k);
    }
  }

  lemma Restage(t: Table, t': Table, h: nat, x: Stage)
    requires Chained(t) && Restaged(t, t', h, x)
    ensures Chained(t')
  {
    assert |t'.stage| == |t.stage| by { assert t'.stage.Keys == t.stage.Keys; }
    forall i: nat | i < NUM ensures DescOk(t', i) {
      assert DescOk(t, i);
    }
    RestagedHeads(t, t', h, x);
  }

  lemma DropKey(stage: map<nat, Stage>, h: nat)
    requires h in stage
    ensures |stage - {h}| == |stage| - 1
  {
    assert (stage - {h}).Keys == stage.Keys - {h};
  }

  lemma ChainOf(t: Table, h: nat) returns (d1: nat, d2: nat)
    requires AllDescs(t) && AllHeads(t) && h in t.stage
    ensures IsChain(t.desc, h, d1, d2) && t.own[h] == Part(h, 0) && t.own[d1] == Part(h, 1) && t.own[d2] == Part(h, 2)
    ensures !t.free[h] && !t.free[d1] && !t.free[d2]
  {
    assert HeadOk(t, h);
    d1 := t.desc[h].next;
    d2 := t.desc[d1].next;
    assert DescOk(t, h) && DescOk(t, d1) && DescOk(t, d2);
  }

  /** The chain h, d1, d2 is given back. */
  lemma DropChain(t: Table, t': Table, h: nat, d1: nat, d2: nat)
    requires Chained(t) && h in t.stage && h < NUM && d1 < NUM && d2 < NUM && IsChain(t.desc, h, d1, d2)
    requires t.own[h] == Part(h, 0) && t.own[d1] == Part(h, 1) && t.own[d2] == Part(h, 2)
    requires SameElsewhere(t, t', h, d1, d2) && Count(t'.free) == Count(t.free) + 3 && t'.ops == t.ops
    requires forall i: nat :: i == h || i == d1 || i == d2 ==>
               t'.free[i] && t'.desc[i] == CLEARED && t'.own[i] == Unused
    requires t'.info == t.info[h := t'.info[h]] && t'.stage == t.stage - {h} && t'.busy == t.busy && t'.want == t.want
    ensures Chained(t')
  {
    DropKey(t.stage, h);
    forall g: nat | g in t'.stage ensures HeadOk(t', g) {
      assert HeadOk(t, g);
      OtherChain(t, t', h, d1, d2, g);
    }
    forall i: nat | i < NUM ensures DescOk(t', i) {
      assert DescOk(t, i);
      if i != h && i != d1 && i != d2 && t.own[i].Part? {
        assert HeadOk(t, t.own[i].h);
        OtherDesc(t, t', h, d1, d2, i);
      }
    }
    forall g: nat, k: nat ensures OwnBuf(t', g, k) {
      assert OwnBuf(t, g, k);
    }
  }

  lemma OtherChain(t: Table, t': Table, h: nat, d1: nat, d2: nat, g: nat)
    requires SameElsewhere(t, t', h, d1, d2) && h < NUM && d1 < NUM && d2 < NUM && g != h && g in t.stage
             && HeadOk(t, g)
    requires t.own[h] == Part(h, 0) && t.own[d1] == Part(h, 1) && t.own[d2] == Part(h, 2) && t'.ops == t.ops
    requires t'.info == t.info[h := t'.info[h]] && t'.stage == t.stage - {h} && t'.busy == t.busy && t'.want == t.want
    ensures HeadOk(t', g)
  {
  }

  lemma OtherDesc(t: Table, t': Table, h: nat, d1: nat, d2: nat, i: nat)
    requires SameElsewhere(t, t', h, d1, d2) && h < NUM && d1 < NUM && d2 < NUM && i < NUM && i != h && i != d1
             && i != d2
    requires t.own[h] == Part(h, 0) && t.own[d1] == Part(h, 1) && t.own[d2] == Part(h, 2)
    requires t.desc[h].next == d1 && t.desc[d1].next == d2
    requires t.own[i].Part? && t.own[i].h in t.stage && HeadOk(t, t.own[i].h)
             && IsKth(t.desc, t.own[i].h, t.own[i].k, i)
    ensures t.own[i].h != h && IsKth(t'.desc, t.own[i].h, t.own[i].k, i)
  {
  }

  /** Where head g is after some rounds of virtio_disk_intr: completed and perhaps seen, or as before. */
  ghost predicate Drained(was: map<nat, Stage>, now: map<nat, Stage>, late: seq<nat>, g: nat) {
    g in was && g in now ==>
      now[g] == was[g] || ((g in late || was[g].Done?) && (now[g] == Handled || now[g].Done?))
  }

  ghost predicate AllDrained(was: map<nat, Stage>, now: map<nat, Stage>, late: seq<nat>) {
    was.Keys == now.Keys && forall g: nat {:trigger Drained(was, now, late, g)} :: Drained(was, now, late, g)
  }

  /** The device has read the requests in x and not completed them. */
  ghost predicate ReadBy(stage: map<nat, Stage>, x: seq<nat>) {
    forall g :: g in x ==> g in stage && stage[g] == Taken
  }

  /** The stages after the device completed the requests in x, the first one as completion number n. */
  ghost function Completed(stage: map<nat, Stage>, x: seq<nat>, n: nat): map<nat, Stage> {
    if x == [] then stage else Completed(stage, x[..|x| - 1], n)[x[|x| - 1] := Done(n + |x| - 1)]
  }

  lemma {:induction false} CompletedDrains(stage: map<nat, Stage>, x: seq<nat>, n: nat)
    requires forall g :: g in x ==> g in stage
    ensures AllDrained(stage, Completed(stage, x, n), x)
  {
    if x != [] {
      var m := |x| - 1;
      CompletedDrains(stage, x[..m], n);
      forall g: nat ensures Drained(stage, Completed(stage, x, n), x, g) {
        assert Drained(stage, Completed(stage, x[..m], n), x[..m], g);
      }
    }
  }

  lemma DrainsOn(was: map<nat, Stage>, mid: map<nat, Stage>, now: map<nat, Stage>, late: seq<nat>, x: seq<nat>)
    requires AllDrained(was, mid, late) && AllDrained(mid, now, x)
    ensures AllDrained(was, now, late + x)
  {
    forall g: nat ensures Drained(was, now, late + x, g) {
      assert Drained(was, mid, late, g) && Drained(mid, now, x, g);
    }
  }

  /** A round: the requests in x are completed and then the oldest completion, if there is one, is seen. */
  lemma RoundDrains(mid: map<nat, Stage>, now: map<nat, Stage>, x: seq<nat>, n: nat, q: seq<nat>)
    requires ReadBy(mid, x)
    requires if q == [] then now == Completed(mid, x, n)
             else q[0] in Completed(mid, x, n) && Completed(mid, x, n)[q[0]].Done?
                  && now == Completed(mid, x, n)[q[0] := Handled]
    ensures AllDrained(mid, now, x)
  {
    CompletedDrains(mid, x, n);
    forall g: nat ensures Drained(mid, now, x, g) {
      assert Drained(mid, Completed(mid, x, n), x, g);
    }
  }

  lemma {:induction false} CompletedElse(stage: map<nat, Stage>, x: seq<nat>, n: nat, g: nat)
    requires g !in x && g in stage
    ensures g in Completed(stage, x, n) && Completed(stage, x, n)[g] == stage[g]
  {
    if x != [] {
      CompletedElse(stage, x[..|x| - 1], n, g);
    }
  }

  /** The last one of x. */
  lemma CompletedLast(stage: map<nat, Stage>, x: seq<nat>, n: nat)
    requires NoDup(x) && ReadBy(stage, x) && x != []
    ensures var m := |x| - 1;
            && NoDup(x[..m]) && ReadBy(stage, x[..m]) && x == x[..m] + [x[m]]
            && x[m] in Completed(stage, x[..m], n) && Completed(stage, x[..m], n)[x[m]] == Taken
  {
    var m := |x| - 1;
    assert x[m] in x;
    CompletedElse(stage, x[..m], n, x[m]);
  }

  lemma CompletedStep(stage: map<nat, Stage>, x: seq<nat>, n: nat, mid: map<nat, Stage>, k: nat)
    requires x != [] && mid == Completed(stage, x[..|x| - 1], n) && k == n + |x| - 1
    ensures mid[x[|x| - 1] := Done(k)] == Completed(stage, x, n)
  {
  }

  /** What the device completes in round j of virtio_disk_intr, and in the first j rounds. */
  function InRound(late: seq<seq<nat>>, j: nat): seq<nat> {
    if j < |late| then late[j] else []
  }

  function Flat(late: seq<seq<nat>>, j: nat): seq<nat> {
    if j == 0 then [] else Flat(late, j - 1) + InRound(late, j - 1)
  }

  lemma {:induction false} FlatPrefix(late: seq<seq<nat>>, j: nat, n: nat)
    requires j <= n || |late| <= n
    ensures Flat(late, j) <= Flat(late, n)
    decreases j + n
  {
    if j > n {
      FlatPrefix(late, j - 1, n);
    } else if j < n {
      FlatPrefix(late, j, n - 1);
    }
  }

  lemma FlatRest(late: seq<seq<nat>>, j: nat) returns (rest: seq<nat>)
    ensures Flat(late, |late|) == Flat(late, j) + InRound(late, j) + rest
  {
    FlatPrefix(late, j + 1, |late|);
    rest := Flat(late, |late|)[|Flat(late, j + 1)|..];
  }

  /** The requests of the chains in x carried out one after the other. */
  ghost function TransferAll(m: Medium, want: map<nat, Req>, x: seq<nat>): Medium {
    if x == [] then m
    else
      var m1, h := TransferAll(m, want, x[..|x| - 1]), x[|x| - 1];
      if h in want then Transfer(m1, want[h]) else m1
  }

  lemma TransferStep(m: Medium, want: map<nat, Req>, x: seq<nat>, m1: Medium)
    requires x != [] && x[|x| - 1] in want && m1 == TransferAll(m, want, x[..|x| - 1])
    ensures Transfer(m1, want[x[|x| - 1]]) == TransferAll(m, want, x)
  {
  }

  lemma {:induction false} TransferMore(m: Medium, want: map<nat, Req>, x: seq<nat>, y: seq<nat>)
    ensures TransferAll(m, want, x + y) == TransferAll(TransferAll(m, want, x), want, y)
  {
    if y == [] {
      assert x + y == x;
    } else {
      assert (x + y)[..|x + y| - 1] == x + y[..|y| - 1];
      TransferMore(m, want, x, y[..|y| - 1]);
    }
  }

  ghost function BufOf(want: map<nat, Req>, h: nat): nat {
    if h in want then want[h].b else 0
  }

  /** The buffers of a list of heads. */
  ghost function Bufs(want: map<nat, Req>, s: seq<nat>): (r: seq<nat>)
    ensures |r| == |s| && forall k :: 0 <= k < |s| ==> r[k] == BufOf(want, s[k])
  {
    seq(|s|, k requires 0 <= k < |s| => BufOf(want, s[k]))
  }

  lemma BufsConcat(want: map<nat, Req>, s: seq<nat>, t: seq<nat>)
    ensures Bufs(want, s + t) == Bufs(want, s) + Bufs(want, t)
  {
  }

  lemma BufsFirst(want: map<nat, Req>, s: seq<nat>)
    requires s != []
    ensures Bufs(want, s) == [BufOf(want, s[0])] + Bufs(want, s[1..])
  {
  }

  /** Of the completions a, those in bs are reported and those in q are not; x comes in and the oldest is
      reported. */
  lemma ReportsNext(want: map<nat, Req>, a: seq<nat>, x: seq<nat>, bs: seq<nat>, q: seq<nat>)
    requires Bufs(want, a) == bs + Bufs(want, q)
    ensures q + x != [] ==> Bufs(want, a + x) == bs + [BufOf(want, (q + x)[0])] + Bufs(want, (q + x)[1..])
    ensures q + x == [] ==> Bufs(want, a + x) == bs
  {
    BufsConcat(want, a, x);
    BufsConcat(want, q, x);
    Reassociate(bs, Bufs(want, q), Bufs(want, x));
    if q + x != [] {
      BufsFirst(want, q + x);
      Reassociate(bs, [BufOf(want, (q + x)[0])], Bufs(want, (q + x)[1..]));
    } else {
      assert Bufs(want, q + x) == [] && bs + [] == bs;
    }
  }

  lemma Reassociate(a: seq<nat>, b: seq<nat>, c: seq<nat>)
    ensures (a + b) + c == a + (b + c)
  {
  }

  /** The device can complete the requests in late: it has read them. */
  ghost predicate Pending(late: seq<seq<nat>>, stage: map<nat, Stage>) {
    NoDup(Flat(late, |late|)) && ReadBy(stage, Flat(late, |late|))
  }

  lemma NoDupParts(a: seq<nat>, x: seq<nat>, c: seq<nat>)
    requires NoDup(a + x + c)
    ensures NoDup(x) && forall g :: g in x ==> g !in a
  {
    var all := a + x + c;
    assert forall i :: 0 <= i < |x| ==> all[|a| + i] == x[i];
    assert forall i :: 0 <= i < |a| ==> all[i] == a[i];
  }

  lemma StillRead(was: map<nat, Stage>, now: map<nat, Stage>, all: seq<nat>, a: seq<nat>, x: seq<nat>, c: seq<nat>)
    requires all == a + x + c && NoDup(all) && ReadBy(was, all) && AllDrained(was, now, a)
    ensures NoDup(x) && ReadBy(now, x)
  {
    NoDupParts(a, x, c);
    forall g | g in x ensures g in now && now[g] == Taken {
      assert g in a + x + c && Drained(was, now, a, g);
    }
  }

  /** In round j the device can still complete what it is to complete then. */
  lemma StillPending(late: seq<seq<nat>>, j: nat, was: map<nat, Stage>, now: map<nat, Stage>)
    requires Pending(late, was) && AllDrained(was, now, Flat(late, j))
    ensures NoDup(InRound(late, j)) && ReadBy(now, InRound(late, j))
  {
    var rest := FlatRest(late, j);
    StillRead(was, now, Flat(late, |late|), Flat(late, j), InRound(late, j), rest);
  }

  /** In none of the first k rounds was the used ring empty. */
  ghost predicate Busy(d: seq<nat>, late: seq<seq<nat>>, k: nat) {
    forall j: nat {:trigger Flat(late, j)} :: 0 < j <= k ==> |d + Flat(late, j)| >= j
  }

  lemma BusyNext(d: seq<nat>, late: seq<seq<nat>>, k: nat, n: nat)
    requires |d + Flat(late, k + 1)| == n
    ensures Busy(d, late, k) && n >= k + 1 ==> Busy(d, late, k + 1)
  {
  }

  /** With the used ring empty, every request that was completed has been seen. */
  lemma AllSeen(x: Traffic, was: map<nat, Stage>, now: map<nat, Stage>, late: seq<nat>)
    requires Queues(x, now) && x.done == [] && AllDrained(was, now, late)
    ensures forall g :: g in now ==> !now[g].Done? && (now[g] == was[g] || now[g] == Handled)
  {
    forall g | g in now ensures !now[g].Done? && (now[g] == was[g] || now[g] == Handled) {
      assert Listed(x, now, g) && Drained(was, now, late, g);
    }
  }

  /** What round j adds to the reports. */
  lemma ReportRound(want: map<nat, Req>, late: seq<seq<nat>>, j: nat, j': nat, bs: seq<nat>, bs': seq<nat>, d: seq<nat>,
                    q: seq<nat>, q': seq<nat>, x: seq<nat>)
    requires j' == j + 1 && x == InRound(late, j) && Bufs(want, d + Flat(late, j)) == bs + Bufs(want, q)
    requires if q + x == [] then q' == [] && bs' == bs else q' == (q + x)[1..] && bs' == bs + [BufOf(want, (q + x)[0])]
    ensures Bufs(want, d + Flat(late, j')) == bs' + Bufs(want, q')
  {
    ReportsNext(want, d + Flat(late, j), x, bs, q);
    Reassociate(d, Flat(late, j), x);
  }

  /** How far round j brings the requests. */
  lemma DrainRound(late: seq<seq<nat>>, j: nat, j': nat, was: map<nat, Stage>, mid: map<nat, Stage>,
                   now: map<nat, Stage>, x: seq<nat>, n: nat, q: seq<nat>)
    requires j' == j + 1 && x == InRound(late, j) && AllDrained(was, mid, Flat(late, j)) && ReadBy(mid, x)
    requires if q == [] then now == Completed(mid, x, n)
             else q[0] in Completed(mid, x, n) && Completed(mid, x, n)[q[0]].Done?
                  && now == Completed(mid, x, n)[q[0] := Handled]
    ensures AllDrained(was, now, Flat(late, j'))
  {
    RoundDrains(mid, now, x, n, q);
    DrainsOn(was, mid, now, Flat(late, j), x);
  }

  class Disk {
    var desc: seq<Desc>
    var free: seq<bool>
    var availRing: seq<nat>
    var availIdx: nat          // disk.avail->idx
    var takenIdx: nat          // the device's position in the available ring
    var usedRing: seq<nat>
    var doneIdx: nat           // disk.used->idx, written by the device
    var usedIdx: nat           // disk.used_idx
    var info: seq<Info>
    var ops: seq<Op>
    var busy: map<nat, bool>   // b->disk

    ghost var own: seq<Own>
    ghost var stage: map<nat, Stage>
    var medium: Medium         // the data, in memory and on disk
    ghost var want: map<nat, Req>
    ghost var queue: seq<nat>  // heads the device has not read, oldest first
    ghost var done: seq<nat>   // heads completed and not seen, oldest first
    ghost var taken: nat       // requests read by the device so far
    ghost var seen: nat        // completions seen by the driver so far

    ghost function Tab(): Table
      reads this
    {
      Table(desc, free, ops, info, busy, own, stage, want)
    }

    ghost function Lines(): Traffic
      reads this
    {
      Traffic(queue, taken, done, seen)
    }

    /** Completions so far. */
    ghost function DoneSoFar(): nat
      reads this
    {
      seen + |done|
    }

    /** The 16-bit indices and rings agree with the queues of heads. */
    ghost predicate Rings()
      reads this
    {
      && Line(availRing, takenIdx, availIdx, taken, queue) && Line(usedRing, usedIdx, doneIdx, seen, done)
      && Queues(Lines(), stage)
    }

    ghost predicate Valid()
      reads this
    {
      Chained(Tab()) && Rings()
    }

    /** At most NUM / 3 requests are outstanding, so no ring slot in use is overwritten. */
    lemma FewOutstanding()
      requires Valid()
      ensures |stage| <= NUM / 3 && |queue| <= NUM / 3 && |done| <= NUM / 3
    {
      QueuesFew(Lines(), stage);
    }

    /** The state after virtio_disk_init. */
    constructor ()
      ensures Valid() && stage == map[] && busy == map[] && queue == done == [] && medium == Medium(map[], map[])
    {
      desc, free, own := seq(NUM, _ => CLEARED), seq(NUM, _ => true), seq(NUM, _ => Unused);
      availRing, usedRing := seq(NUM, _ => 0), seq(NUM, _ => 0);
      info, ops := seq(NUM, _ => Info(-1, 0)), seq(NUM, _ => Op(false, 0));
      availIdx, takenIdx, doneIdx, usedIdx, taken, seen := 0, 0, 0, 0, 0, 0;
      busy, stage, want, queue, done := map[], map[], map[], [], [];
      medium := Medium(map[], map[]);
      new;
      CountAll(free);
    }

    /** Marks the first free descriptor as taken; -1 if there is none. */
    method AllocDesc() returns (i: int)
      requires |free| == NUM
      modifies this`free
      ensures if Count(old(free)) == 0 then i == -1 && free == old(free)
              else
                && 0 <= i < NUM && old(free)[i] && (forall j :: 0 <= j < i ==> !old(free)[j])
                && free == old(free)[i := false] && Count(free) + 1 == Count(old(free))
    {
      var k := 0;
      while k < NUM
        invariant 0 <= k <= NUM && free == old(free) && forall j :: 0 <= j < k ==> !free[j]
      {
        if free[k] {
          CountSome(free, k);
          CountUpdate(free, k, false);
          free := free[k := false];
          return k;
        }
        k := k + 1;
      }
      CountNone(free);
      i := -1;
    }

    /** Clears and frees descriptor i; a panic if it is out of range or free already. */
    method FreeDesc(i: nat) returns (stuck: bool)
      requires |free| == |desc| == NUM
      modifies this`free, this`desc
      ensures |free| == |desc| == NUM && (stuck <==> i >= NUM || old(free)[i])
      ensures if stuck then free == old(free) && desc == old(desc)
              else free == old(free)[i := true] && desc == old(desc)[i := CLEARED]
                   && Count(free) == Count(old(free)) + 1
    {
      if i >= NUM {
        return true;
      }
      if free[i] {
        return true;
      }
      CountUpdate(free, i, true);
      desc := desc[i := CLEARED];
      free := free[i := true];
      stuck := false;
    }

    /** Gives the descriptors of idx back. */
    method Undo(idx: seq<nat>, ghost was: seq<bool>)
      requires |free| == |desc| == |was| == NUM && NoDup(idx) && Count(free) + |idx| == Count(was)
      requires forall k :: 0 <= k < |idx| ==> idx[k] < NUM && was[idx[k]] && desc[idx[k]] == CLEARED
      requires forall i :: 0 <= i < NUM ==> free[i] == (was[i] && i !in idx)
      modifies this`free, this`desc
      ensures free == was && desc == old(desc)
    {
      var j := 0;
      while j < |idx|
        invariant 0 <= j <= |idx| && |free| == NUM && desc == old(desc)
        invariant forall i :: 0 <= i < NUM ==> free[i] == (was[i] && i !in idx[j..])
      {
        assert idx[j] in idx[j..];
        var stuck := FreeDesc(idx[j]);
        assert forall i :: i in idx[j..] <==> i == idx[j] || i in idx[j + 1..];
        j := j + 1;
      }
    }

    /** Three descriptors or none: fails exactly when fewer than three are free. */
    method Alloc3Desc() returns (ok: bool, idx: seq<nat>)
      requires |free| == |desc| == NUM && forall i :: 0 <= i < NUM && free[i] ==> desc[i] == CLEARED
      modifies this`free, this`desc
      ensures |free| == NUM && desc == old(desc) && (ok <==> Count(old(free)) >= 3)
      ensures !ok ==> free == old(free)
      ensures ok ==> |idx| == 3 && NoDup(idx) && (forall k :: 0 <= k < 3 ==> idx[k] < NUM && old(free)[idx[k]])
                     && (forall i :: 0 <= i < NUM ==>
                           free[i] == (old(free)[i] && i != idx[0] && i != idx[1] && i != idx[2]))
                     && Count(free) + 3 == Count(old(free))
    {
      idx := [];
      while |idx| < 3
        invariant |idx| <= 3 && |free| == NUM && desc == old(desc) && NoDup(idx)
                  && Count(free) + |idx| == Count(old(free))
        invariant forall k :: 0 <= k < |idx| ==> idx[k] < NUM && old(free)[idx[k]]
        invariant forall i :: 0 <= i < NUM ==> free[i] == (old(free)[i] && i !in idx)
        decreases 3 - |idx|
      {
        var i := AllocDesc();
        if i < 0 {
          Undo(idx, old(free));
          return false, idx;
        }
        idx := idx + [i];
      }
      assert idx == [idx[0], idx[1], idx[2]];
      ok := true;
    }

    /** The part of virtio_disk_rw that formats the chain i0, i1, i2. */
    method Format(b: nat, out: bool, blockno: nat, i0: nat, i1: nat, i2: nat)
      requires |desc| == |info| == |ops| == NUM && i0 < NUM && i1 < NUM && i2 < NUM && i0 != i1 && i0 != i2 && i1 != i2
      modifies this`desc, this`info, this`ops, this`busy
      ensures |desc| == |info| == |ops| == NUM && Shows(desc, ops, i0, Req(out, blockno * 2 % U32, b))
              && desc[i0].next == i1 && desc[i1].next == i2
      ensures forall i :: 0 <= i < NUM && i != i0 && i != i1 && i != i2 ==> desc[i] == old(desc)[i]
      ensures (forall i :: 0 <= i < NUM && i != i0 ==> ops[i] == old(ops)[i]) && info == old(info)[i0 := Info(b, 0xff)]
              && busy == old(busy)[b := true]
    {
      ops := ops[i0 := Op(out, blockno * 2 % U32)];
      desc := desc[i0 := Desc(Header(i0), false, true, i1)];
      desc := desc[i1 := Desc(DataOf(b), !out, true, i2)];
      desc := desc[i2 := Desc(StatusOf(i0), true, false, 0)];
      info := info[i0 := Info(b, 0xff)];
      busy := busy[b := true];
    }

    /** Alloc3Desc and Format for a request; what they change keeps the chains. */
    method NewRequest(b: nat, out: bool, blockno: nat, ghost n: nat) returns (ok: bool, h: nat)
      requires Chained(Tab()) && forall g :: g in stage ==> g in want && want[g].b != b
      modifies this`desc, this`free, this`own, this`stage, this`ops, this`info, this`busy, this`want
      ensures Chained(Tab()) && (ok <==> |old(stage)| < NUM / 3)
      ensures !ok ==> stage == old(stage) && want == old(want) && busy == old(busy)
      ensures ok ==> h !in old(stage) && stage == old(stage)[h := Queued(n)]
                     && want == old(want)[h := Req(out, blockno * 2 % U32, b)] && busy == old(busy)[b := true]
    {
      h := 0;
      ghost var t := Tab();
      forall i | 0 <= i < NUM && free[i] ensures desc[i] == CLEARED {
        assert DescOk(t, i);
      }
      var idx;
      ok, idx := Alloc3Desc();
      if ok {
        h := idx[0];
        Format(b, out, blockno, idx[0], idx[1], idx[2]);
        if h in stage {
          LiveIsTaken(t, h);
          assert false;
        }
        own := own[idx[0] := Part(h, 0)][idx[1] := Part(h, 1)][idx[2] := Part(h, 2)];
        stage, want := stage[h := Queued(n)], want[h := Req(out, blockno * 2 % U32, b)];
        Formed(t, Tab(), idx[0], idx[1], idx[2]);
        NewChain(t, Tab(), idx[0], idx[1], idx[2], want[h], n);
      }
    }

    /** virtio_disk_rw up to the notification: queues a request for a buffer that has none in flight, or
        finds too few descriptors and sleeps, exactly when NUM / 3 requests are outstanding. */
    method Submit(b: nat, out: bool, blockno: nat) returns (ok: bool, h: nat)
      requires Valid() && forall g :: g in stage ==> g in want && want[g].b != b
      modifies this`desc, this`free, this`own, this`stage, this`ops, this`info, this`busy, this`want,
               this`availRing, this`availIdx, this`queue
      ensures Valid() && (ok <==> |old(stage)| < NUM / 3)
      ensures !ok ==> stage == old(stage) && want == old(want) && busy == old(busy) && queue == old(queue)
      ensures ok ==> h !in old(stage) && stage == old(stage)[h := Queued(old(taken + |queue|))]
                     && want == old(want)[h := Req(out, blockno * 2 % U32, b)]
                     && busy == old(busy)[b := true] && queue == old(queue) + [h]
    {
      FewOutstanding();
      ok, h := NewRequest(b, out, blockno, taken + |queue|);
      if ok {
        Publish(h, old(stage));
      }
    }

    /** avail->ring[avail->idx % NUM] = h; avail->idx += 1 */
    method Publish(h: nat, ghost was: map<nat, Stage>)
      requires Line(availRing, takenIdx, availIdx, taken, queue) && Line(usedRing, usedIdx, doneIdx, seen, done)
      requires Queues(Lines(), was) && |queue| < NUM && h !in was && stage == was[h := Queued(taken + |queue|)]
      modifies this`availRing, this`availIdx, this`queue
      ensures Rings() && queue == old(queue) + [h]
    {
      LinePush(availRing, takenIdx, availIdx, taken, queue, h);
      QueuesStep(Lines(), was, Lines().(queue := queue + [h]), stage, h);
      availRing := availRing[availIdx % NUM := h];
      availIdx := (availIdx + 1) % U16;
      queue := queue + [h];
    }

    /** The device reads the next entry of the available ring: the oldest request, as submitted. */
    method DeviceTake() returns (h: int)
      requires Valid()
      modifies this`takenIdx, this`stage, this`queue, this`taken
      ensures Valid() && (h < 0 <==> old(queue) == [])
      ensures h < 0 ==> stage == old(stage) && queue == old(queue)
      ensures h >= 0 ==> h == old(queue)[0] && queue == old(queue)[1..] && h in want && Shows(desc, ops, h, want[h])
                         && stage == old(stage)[h as nat := Taken]
    {
      FewOutstanding();
      LinePop(availRing, takenIdx, availIdx, taken, queue);
      if takenIdx == availIdx {
        return -1;
      }
      h := availRing[takenIdx % NUM];
      ghost var t, x := Tab(), Lines();
      assert QueuedAt(x, stage, 0);
      assert HeadOk(t, h);
      takenIdx := (takenIdx + 1) % U16;
      stage, queue, taken := stage[h as nat := Taken], queue[1..], taken + 1;
      QueuesStep(x, t.stage, Lines(), stage, h);
      Restage(t, Tab(), h, Taken);
    }

    /** What the device does for the chain with head h: it moves the data and writes the status byte. */
    method CarryOut(h: nat, ghost r: Req)
      requires |info| == NUM && Shows(desc, ops, h, r)
      modifies this`info, this`medium
      ensures medium == Transfer(old(medium), r) && info == old(info)[h := Info(old(info)[h].b, 0)]
    {
      ExecutesShown(desc, ops, medium, h, r);
      var status, at := Execute(desc, ops, medium, h).1, StatusAt(desc, h);
      medium := Execute(desc, ops, medium, h).0;
      if 0 <= at < |info| {
        info := info[at := Info(info[at].b, status)];
      }
    }

    /** The device carries out a request it has read, in any order: data, status byte, used ring. */
    method DeviceComplete(h: nat)
      requires Valid() && h in stage && stage[h] == Taken
      modifies this`info, this`usedRing, this`doneIdx, this`stage, this`done, this`medium
      ensures Valid() && stage == old(stage)[h := Done(old(DoneSoFar()))] && done == old(done) + [h]
      ensures h in want && medium == Transfer(old(medium), want[h])
    {
      FewOutstanding();
      ghost var t := Tab();
      assert HeadOk(t, h);
      CarryOut(h, want[h]);
      stage := stage[h := Done(DoneSoFar())];
      Report(h, t.stage);
      Restage(t, Tab(), h, stage[h]);
    }

    /** used->ring[used->idx % NUM].id = h; used->idx += 1 */
    method Report(h: nat, ghost was: map<nat, Stage>)
      requires Line(availRing, takenIdx, availIdx, taken, queue) && Line(usedRing, usedIdx, doneIdx, seen, done)
      requires Queues(Lines(), was) && |done| < NUM && h in was && was[h] == Taken
      requires stage == was[h := Done(DoneSoFar())]
      modifies this`usedRing, this`doneIdx, this`done
      ensures Rings() && done == old(done) + [h]
    {
      LinePush(usedRing, usedIdx, doneIdx, seen, done, h);
      QueuesStep(Lines(), was, Lines().(done := done + [h]), stage, h);
      usedRing := usedRing[doneIdx % NUM := h];
      doneIdx := (doneIdx + 1) % U16;
      done := done + [h];
    }

    /** One round of virtio_disk_intr's loop: the oldest completion, once, for its own buffer; the status
        is never bad. */
    method HandleOne() returns (b: int, stuck: bool)
      requires Valid()
      modifies this`busy, this`usedIdx, this`stage, this`done, this`seen
      ensures Valid() && !stuck && (b < 0 <==> old(done) == [])
      ensures b < 0 ==> stage == old(stage) && done == old(done) && busy == old(busy)
      ensures b >= 0 ==> old(done)[0] in want && b == want[old(done)[0]].b && done == old(done)[1..]
                         && stage == old(stage)[old(done)[0] := Handled] && busy == old(busy)[b as nat := false]
    {
      stuck := false;
      FewOutstanding();
      LinePop(usedRing, usedIdx, doneIdx, seen, done);
      if usedIdx == doneIdx {
        return -1, false;
      }
      var id := usedRing[usedIdx % NUM];
      ghost var t, x := Tab(), Lines();
      assert DoneAt(x, stage, 0);
      assert HeadOk(t, id);
      if info[id].status != 0 {
        return -1, true;
      }
      b := info[id].b;
      busy := busy[b as nat := false];
      usedIdx := (usedIdx + 1) % U16;
      stage, done, seen := stage[id := Handled], done[1..], seen + 1;
      QueuesStep(x, t.stage, Lines(), stage, id);
      Restage(t, Tab(), id, Handled);
    }

    /** The device completes the requests in x, one after the other. */
    method CompleteAll(x: seq<nat>)
      requires Valid() && NoDup(x) && ReadBy(stage, x)
      modifies this`info, this`usedRing, this`doneIdx, this`stage, this`done, this`medium
      ensures Valid() && done == old(done) + x && stage == Completed(old(stage), x, old(DoneSoFar()))
      ensures medium == TransferAll(old(medium), want, x)
      decreases |x|
    {
      if x != [] {
        ghost var n := DoneSoFar();
        CompletedLast(stage, x, n);
        CompleteAll(x[..|x| - 1]);
        ghost var mid, k := stage, DoneSoFar();
        ghost var m1 := medium;
        DeviceComplete(x[|x| - 1]);
        CompletedStep(old(stage), x, n, mid, k);
        TransferStep(old(medium), want, x, m1);
      }
    }

    /** A round during which the device first completes the requests in x. */
    method Round(x: seq<nat>) returns (b: int, stuck: bool)
      requires Valid() && NoDup(x) && ReadBy(stage, x)
      modifies this`busy, this`info, this`usedRing, this`doneIdx, this`usedIdx, this`stage, this`done, this`seen,
               this`medium
      ensures Valid() && !stuck && medium == TransferAll(old(medium), want, x)
      ensures var q, mid := old(done) + x, Completed(old(stage), x, old(DoneSoFar()));
              && (b < 0 <==> q == []) && (b < 0 ==> done == [] && stage == mid)
              && (b >= 0 ==>
                    && done == q[1..] && b == BufOf(want, q[0])
                    && q[0] in mid && mid[q[0]].Done? && stage == mid[q[0] := Handled])
    {
      CompleteAll(x);
      OldestIsDone(Lines(), stage);
      b, stuck := HandleOne();
    }

    /** After j rounds that began with the completions d, the stages was and the data m, bs are the buffers
        reported. */
    ghost predicate Draining(late: seq<seq<nat>>, j: nat, bs: seq<nat>, d: seq<nat>, was: map<nat, Stage>, m: Medium)
      reads this
    {
      && Bufs(want, d + Flat(late, j)) == bs + Bufs(want, done) && AllDrained(was, stage, Flat(late, j))
      && medium == TransferAll(m, want, Flat(late, j))
    }

    method IntrRound(late: seq<seq<nat>>, j: nat, ghost j': nat, bs: seq<nat>, ghost d: seq<nat>,
                     ghost was: map<nat, Stage>, ghost m: Medium)
      returns (bs': seq<nat>, over: bool, stuck: bool)
      requires Valid() && Draining(late, j, bs, d, was, m) && Pending(late, was) && j' == j + 1
      modifies this`busy, this`info, this`usedRing, this`doneIdx, this`usedIdx, this`stage, this`done, this`seen,
               this`medium
      ensures Valid() && !stuck && Draining(late, j', bs', d, was, m)
      ensures if over then bs' == bs && done == [] else |bs'| == |bs| + 1
      ensures !over && j >= |late| ==> |done| < |old(done)|
      ensures Busy(d, late, |bs|) && j == |bs| ==> Busy(d, late, |bs'|)
    {
      var x := InRound(late, j);
      StillPending(late, j, was, stage);
      var b;
      b, stuck := Round(x);
      over := b < 0;
      bs' := if over then bs else bs + [b];
      ReportRound(want, late, j, j', bs, bs', d, old(done), done, x);
      DrainRound(late, j, j', was, old(stage), stage, x, old(DoneSoFar()), old(done) + x);
      TransferMore(m, want, Flat(late, j), x);
      BusyNext(d, late, j, |bs' + Bufs(want, done)|);
    }

    /** The loop of virtio_disk_intr. */
    method DrainRing(late: seq<seq<nat>>) returns (bs: seq<nat>, stuck: bool)
      requires Valid() && Pending(late, stage)
      modifies this`busy, this`info, this`usedRing, this`doneIdx, this`usedIdx, this`stage, this`done, this`seen,
               this`medium
      ensures Valid() && !stuck && done == []
      ensures Draining(late, |bs| + 1, bs, old(done), old(stage), old(medium)) && Busy(old(done), late, |bs|)
    {
      bs, stuck := [], false;
      var over, j: nat := false, 0;
      assert done + Flat(late, 0) == done;
      while !over && !stuck
        invariant Valid() && !stuck && Draining(late, j, bs, old(done), old(stage), old(medium))
        invariant if over then done == [] && j == |bs| + 1 else j == |bs|
        invariant Busy(old(done), late, |bs|)
        decreases !over, if j < |late| then |late| - j else 0, |done|
      {
        var j' := j + 1;
        bs, over, stuck := IntrRound(late, j, j', bs, old(done), old(stage), old(medium));
        j := j';
      }
    }

    /** virtio_disk_intr: drains the used ring, oldest completion first.  The device goes on while it does: in
        round j it first completes the requests in late[j].  The handler reports what was there and what
        came in, one buffer in each round, and returns in the first round that finds the ring empty. */
    method Intr(late: seq<seq<nat>>) returns (bs: seq<nat>, stuck: bool)
      requires Valid() && Pending(late, stage)
      modifies this`busy, this`info, this`usedRing, this`doneIdx, this`usedIdx, this`stage, this`done, this`seen,
               this`medium
      ensures Valid() && !stuck && done == [] && bs == Bufs(want, old(done) + Flat(late, |bs| + 1))
      ensures Busy(old(done), late, |bs|) && medium == TransferAll(old(medium), want, Flat(late, |bs| + 1))
      ensures stage.Keys == old(stage).Keys
      ensures forall h :: h in stage ==> !stage[h].Done? && (stage[h] == old(stage)[h] || stage[h] == Handled)
    {
      bs, stuck := DrainRing(late);
      AllSeen(Lines(), old(stage), stage, Flat(late, |bs| + 1));
    }

    /** free_chain along the flags and next fields of a three-descriptor chain. */
    method FreeChain(i: nat, ghost d1: nat, ghost d2: nat) returns (stuck: bool)
      requires |free| == NUM && IsChain(desc, i, d1, d2) && !free[i] && !free[d1] && !free[d2]
      modifies this`free, this`desc
      ensures !stuck && |free| == |desc| == NUM && Count(free) == Count(old(free)) + 3
      ensures forall j: nat :: j < NUM && j != i && j != d1 && j != d2 ==>
                free[j] == old(free)[j] && desc[j] == old(desc)[j]
      ensures forall j: nat :: j == i || j == d1 || j == d2 ==> free[j] && desc[j] == CLEARED
    {
      var k := i;
      ghost var pos := 0;
      while true
        invariant 0 <= pos < 3 && |free| == |desc| == NUM && k == (if pos == 0 then i else if pos == 1 then d1 else d2)
        invariant Count(free) == Count(old(free)) + pos
        invariant free == (if pos == 0 then old(free) else if pos == 1 then old(free)[i := true]
                           else old(free)[i := true][d1 := true])
        invariant desc == (if pos == 0 then old(desc) else if pos == 1 then old(desc)[i := CLEARED]
                           else old(desc)[i := CLEARED][d1 := CLEARED])
        decreases 3 - pos
      {
        var flag, nxt := desc[k].hasNext, desc[k].next;
        stuck := FreeDesc(k);
        if stuck {
          return;
        }
        if flag {
          k := nxt;
        } else {
          break;
        }
        pos := pos + 1;
      }
    }

    /** info[h].b = 0; free_chain(h) */
    method GiveBack(h: nat) returns (stuck: bool)
      requires Chained(Tab()) && h in stage
      modifies this`info, this`free, this`desc, this`own, this`stage
      ensures Chained(Tab()) && !stuck && stage == old(stage) - {h}
      ensures h < |old(info)| && info == old(info)[h := Info(-1, old(info)[h].status)]
    {
      ghost var t := Tab();
      ghost var d1, d2 := ChainOf(t, h);
      info := info[h := Info(-1, info[h].status)];
      stuck := FreeChain(h, d1, d2);
      own := own[h := Unused][d1 := Unused][d2 := Unused];
      stage := stage - {h};
      DropChain(t, Tab(), h, d1, d2);
    }

    /** The end of virtio_disk_rw, once the interrupt has cleared b->disk: no descriptor of the chain is
        found free, and all three are given back. */
    method Finish(h: nat) returns (stuck: bool)
      requires Valid() && h in stage && stage[h] == Handled
      modifies this`info, this`free, this`desc, this`own, this`stage
      ensures Valid() && !stuck && stage == old(stage) - {h}
      ensures h < |old(info)| && info == old(info)[h := Info(-1, old(info)[h].status)]
    {
      QueuesStep(Lines(), stage, Lines(), stage - {h}, h);
      stuck := GiveBack(h);
    }
  }
}
