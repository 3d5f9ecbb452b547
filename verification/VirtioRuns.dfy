/** Whole runs of the disk driver with its device: descriptors, rings and 16-bit indices behave as a queue
    of at most NUM / 3 requests to a disk of blocks. */
module VirtioRuns {
  import opened Counting
  import opened Fifo
  import opened Words
  import opened Virtio

  /** What processes and the device do, in any order; Fill is a process that changes a buffer of its own. */
  datatype Act =
    | Fill(b: nat, x: Data)
    | Rw(b: nat, out: bool, blockno: nat)
    | Take
    | Complete(b: nat)
    | Interrupt
    | Wake(b: nat)

  /** Where a buffer's request is: queued, at the device, completed, or reported by the interrupt. */
  datatype Phase = InQueue | AtDevice | Returned | Seen

  /** What was asked for a buffer: to write it to a block or to read it from one. */
  datatype Ask = Ask(out: bool, block: nat)

  /** Block numbers have 32 bits and are doubled to sectors in 32 bits, so this many blocks can be told apart. */
  const BLOCKS: nat := 0x8000_0000

  /** The buffers with a request in flight, the requests the device has not read, oldest first, and the
      buffers whose completion the driver has not seen, oldest first; what was asked for each buffer; what the
      buffers and the blocks of the disk hold. */
  datatype Bus = Bus(
    flight: map<nat, Phase>, queue: seq<Req>, done: seq<nat>, asks: map<nat, Ask>, data: map<nat, Data>,
    blocks: map<nat, Data>)

  /** Skipped: the act is not possible, such as a second request for a buffer. */
  datatype Reply = Accepted | TooMany | Started(r: Req) | Finished(b: nat) | Idle | Ok | Got(x: Data) | Skipped

  function In(m: map<nat, Data>, k: nat): Data {
    if k in m then m[k] else Data(0, 0)
  }

  /** The request for buffer b is carried out. */
  function Served(s: Bus, b: nat): Bus {
    if b !in s.asks then s
    else if s.asks[b].out then s.(blocks := s.blocks[s.asks[b].block := In(s.data, b)])
    else s.(data := s.data[b := In(s.blocks, s.asks[b].block)])
  }

  function Serve(s: Bus, a: Act): (Bus, Reply) {
    match a
    case Fill(b, x) => if b in s.flight then (s, Skipped) else (s.(data := s.data[b := x]), Ok)
    case Rw(b, out, blockno) =>
      if b in s.flight then (s, Skipped)
      else if |s.flight| >= NUM / 3 then (s, TooMany)
      else
        (s.(flight := s.flight[b := InQueue], queue := s.queue + [Req(out, blockno * 2 % U32, b)],
            asks := s.asks[b := Ask(out, blockno % BLOCKS)]), Accepted)
    case Take =>
      if s.queue == [] then (s, Idle)
      else (s.(flight := s.flight[s.queue[0].b := AtDevice], queue := s.queue[1..]), Started(s.queue[0]))
    case Complete(b) =>
      if b !in s.flight || s.flight[b] != AtDevice then (s, Skipped)
      else (Served(s, b).(flight := s.flight[b := Returned], done := s.done + [b]), Ok)
    case Interrupt =>
      if s.done == [] then (s, Idle)
      else (s.(flight := s.flight[s.done[0] := Seen], done := s.done[1..]), Finished(s.done[0]))
    case Wake(b) =>
      if b !in s.flight || s.flight[b] != Seen then (s, Skipped)
      else (s.(flight := s.flight - {b}), Got(In(s.data, b)))
  }

  function Replies(s: Bus, acts: seq<Act>): seq<Reply>
    decreases |acts|
  {
    if acts == [] then [] else [Serve(s, acts[0]).1] + Replies(Serve(s, acts[0]).0, acts[1..])
  }

  const QUIET: Bus := Bus(map[], [], [], map[], map[], map[])

  // ---------------------------------------------------------------- the driver against the queue

  function PhaseOf(x: Stage): Phase {
    match x
    case Queued(_) => InQueue
    case Taken => AtDevice
    case Done(_) => Returned
    case Handled => Seen
  }

  /** Buffer b's process knows its chain, mine[b], and that chain is as far as the queue says. */
  ghost predicate BufAt(stage: map<nat, Stage>, want: map<nat, Req>, mine: map<nat, nat>, flight: map<nat, Phase>,
                        b: nat) {
    b in mine ==>
      && mine[b] in stage && mine[b] in want && want[mine[b]].b == b
      && b in flight && PhaseOf(stage[mine[b]]) == flight[b]
  }

  ghost predicate HeadAt(stage: map<nat, Stage>, want: map<nat, Req>, mine: map<nat, nat>, h: nat) {
    h in stage ==> h in want && want[h].b in mine && mine[want[h].b] == h
  }

  ghost predicate Flights(stage: map<nat, Stage>, want: map<nat, Req>, mine: map<nat, nat>, flight: map<nat, Phase>) {
    && mine.Keys == flight.Keys && |mine| == |stage| == |flight|
    && (forall b: nat {:trigger BufAt(stage, want, mine, flight, b)} :: BufAt(stage, want, mine, flight, b))
    && (forall h: nat {:trigger HeadAt(stage, want, mine, h)} :: HeadAt(stage, want, mine, h))
  }

  /** The rings hold what the queue holds. */
  ghost predicate SameQueue(want: map<nat, Req>, queue: seq<nat>, reqs: seq<Req>) {
    |queue| == |reqs| && forall k :: 0 <= k < |queue| ==> queue[k] in want && want[queue[k]] == reqs[k]
  }

  ghost predicate SameDone(want: map<nat, Req>, done: seq<nat>, bufs: seq<nat>) {
    |done| == |bufs| && forall k :: 0 <= k < |done| ==> done[k] in want && want[done[k]].b == bufs[k]
  }

  /** The heads the device works on. */
  ghost predicate Works(stage: map<nat, Stage>, active: set<nat>) {
    forall h :: h in active <==> h in stage && stage[h] == Taken
  }

  /** What of the driver and the device the queue is about. */
  datatype View = View(stage: map<nat, Stage>, want: map<nat, Req>, queue: seq<nat>, done: seq<nat>, medium: Medium)

  ghost function ViewOf(disk: Disk): View
    reads disk
  {
    View(disk.stage, disk.want, disk.queue, disk.done, disk.medium)
  }

  ghost predicate Matches(v: View, mine: map<nat, nat>, active: set<nat>, s: Bus) {
    && Works(v.stage, active) && Flights(v.stage, v.want, mine, s.flight)
    && SameQueue(v.want, v.queue, s.queue) && SameDone(v.want, v.done, s.done)
    && AsksMatch(v.want, mine, s.asks) && SameData(v.medium, s.data, s.blocks)
  }

  /** The driver, the processes inside virtio_disk_rw, each with its chain, and the device, with the heads
      it works on, are in the state of the queue s. */
  ghost predicate Refines(disk: Disk, mine: map<nat, nat>, active: set<nat>, s: Bus)
    reads disk
  {
    disk.Valid() && Matches(ViewOf(disk), mine, active, s)
  }

  /** The chain of buffer b asks the device for what was asked for the buffer. */
  ghost predicate AskAt(want: map<nat, Req>, mine: map<nat, nat>, asks: map<nat, Ask>, b: nat) {
    b in mine ==>
      && mine[b] in want && b in asks && asks[b].block < BLOCKS
      && want[mine[b]] == Req(asks[b].out, 2 * asks[b].block, b)
  }

  ghost predicate AsksMatch(want: map<nat, Req>, mine: map<nat, nat>, asks: map<nat, Ask>) {
    forall b: nat {:trigger AskAt(want, mine, asks, b)} :: AskAt(want, mine, asks, b)
  }

  ghost predicate BufSame(m: Medium, data: map<nat, Data>, b: nat) {
    Held(m, b) == In(data, b)
  }

  /** Block k is in sectors 2 * k and 2 * k + 1. */
  ghost predicate BlockSame(m: Medium, blocks: map<nat, Data>, k: nat) {
    k < BLOCKS ==> Data(Stored(m, 2 * k), Stored(m, 2 * k + 1)) == In(blocks, k)
  }

  ghost predicate SameData(m: Medium, data: map<nat, Data>, blocks: map<nat, Data>) {
    && (forall b: nat {:trigger BufSame(m, data, b)} :: BufSame(m, data, b))
    && (forall k: nat {:trigger BlockSame(m, blocks, k)} :: BlockSame(m, blocks, k))
  }

  /** The sector of a block, doubled in 32 bits. */
  lemma SectorOf(blockno: nat)
    ensures blockno * 2 % U32 == 2 * (blockno % BLOCKS) && blockno % BLOCKS < BLOCKS
  {
    var q, r := blockno / BLOCKS, blockno % BLOCKS;
    assert blockno * 2 == q * U32 + 2 * r;
  }

  lemma AskAdded(want: map<nat, Req>, mine: map<nat, nat>, asks: map<nat, Ask>, h: nat, b: nat, out: bool, blockno: nat)
    requires AsksMatch(want, mine, asks) && forall c :: c in mine ==> c in mine && mine[c] != h
    ensures AsksMatch(want[h := Req(out, blockno * 2 % U32, b)], mine[b := h], asks[b := Ask(out, blockno % BLOCKS)])
  {
    var want', mine', asks' := want[h := Req(out, blockno * 2 % U32, b)], mine[b := h],
                               asks[b := Ask(out, blockno % BLOCKS)];
    SectorOf(blockno);
    forall c: nat ensures AskAt(want', mine', asks', c) {
      assert AskAt(want, mine, asks, c);
    }
  }

  lemma AskDropped(want: map<nat, Req>, mine: map<nat, nat>, asks: map<nat, Ask>, b: nat)
    requires AsksMatch(want, mine, asks)
    ensures AsksMatch(want, mine - {b}, asks)
  {
    var mine' := mine - {b};
    forall c: nat ensures AskAt(want, mine', asks, c) {
      assert AskAt(want, mine, asks, c);
    }
  }

  /** What the device moves for buffer b is what was asked for. */
  lemma DataMoves(m: Medium, s: Bus, r: Req, b: nat)
    requires SameData(m, s.data, s.blocks) && b in s.asks && s.asks[b].block < BLOCKS
    requires r == Req(s.asks[b].out, 2 * s.asks[b].block, b)
    ensures SameData(Transfer(m, r), Served(s, b).data, Served(s, b).blocks)
  {
    var m', s' := Transfer(m, r), Served(s, b);
    forall c: nat ensures BufSame(m', s'.data, c) {
      assert BufSame(m, s.data, c) && BlockSame(m, s.blocks, s.asks[b].block);
    }
    forall k: nat ensures BlockSame(m', s'.blocks, k) {
      assert BlockSame(m, s.blocks, k) && BufSame(m, s.data, b);
    }
  }

  lemma DataFilled(m: Medium, data: map<nat, Data>, blocks: map<nat, Data>, b: nat, x: Data)
    requires SameData(m, data, blocks)
    ensures SameData(m.(bufs := m.bufs[b := x]), data[b := x], blocks)
  {
    var m', data' := m.(bufs := m.bufs[b := x]), data[b := x];
    forall c: nat ensures BufSame(m', data', c) {
      assert BufSame(m, data, c);
    }
    forall k: nat ensures BlockSame(m', blocks, k) {
      assert BlockSame(m, blocks, k);
    }
  }

  /** A new request, on a chain that was not live. */
  lemma FlightAdded(stage: map<nat, Stage>, want: map<nat, Req>, mine: map<nat, nat>, flight: map<nat, Phase>,
                    h: nat, n: nat, r: Req)
    requires Flights(stage, want, mine, flight) && h !in stage && r.b !in flight
    ensures Flights(stage[h := Queued(n)], want[h := r], mine[r.b := h], flight[r.b := InQueue])
  {
    var stage', want', mine', flight' := stage[h := Queued(n)], want[h := r], mine[r.b := h], flight[r.b := InQueue];
    assert |mine'| == |mine| + 1 && |stage'| == |stage| + 1 && |flight'| == |flight| + 1;
    forall b: nat ensures BufAt(stage', want', mine', flight', b) {
      assert BufAt(stage, want, mine, flight, b);
    }
    forall g: nat ensures HeadAt(stage', want', mine', g) {
      assert HeadAt(stage, want, mine, g);
    }
  }

  /** The request with head h moves on. */
  lemma FlightMoved(stage: map<nat, Stage>, want: map<nat, Req>, mine: map<nat, nat>, flight: map<nat, Phase>, h: nat,
                    x: Stage)
    requires Flights(stage, want, mine, flight) && h in stage
    ensures h in want && want[h].b in flight && Flights(stage[h := x], want, mine, flight[want[h].b := PhaseOf(x)])
  {
    assert HeadAt(stage, want, mine, h);
    var stage', flight' := stage[h := x], flight[want[h].b := PhaseOf(x)];
    assert stage'.Keys == stage.Keys && flight'.Keys == flight.Keys;
    assert |stage'| == |stage'.Keys| && |flight'| == |flight'.Keys|;
    forall b: nat ensures BufAt(stage', want, mine, flight', b) {
      assert BufAt(stage, want, mine, flight, b);
    }
    forall g: nat ensures HeadAt(stage', want, mine, g) {
      assert HeadAt(stage, want, mine, g);
    }
  }

  /** The request for buffer b is over. */
  lemma FlightDropped(stage: map<nat, Stage>, want: map<nat, Req>, mine: map<nat, nat>, flight: map<nat, Phase>, b: nat)
    requires Flights(stage, want, mine, flight) && b in mine
    ensures mine[b] in stage && Flights(stage - {mine[b]}, want, mine - {b}, flight - {b})
  {
    assert BufAt(stage, want, mine, flight, b);
    var stage', mine', flight' := stage - {mine[b]}, mine - {b}, flight - {b};
    assert stage'.Keys == stage.Keys - {mine[b]} && mine'.Keys == mine.Keys - {b} && flight'.Keys == flight.Keys - {b};
    assert |stage'| == |stage'.Keys| && |mine'| == |mine'.Keys| && |flight'| == |flight'.Keys|;
    forall c: nat ensures BufAt(stage', want, mine', flight', c) {
      assert BufAt(stage, want, mine, flight, c);
    }
    forall g: nat ensures HeadAt(stage', want, mine', g) {
      assert HeadAt(stage, want, mine, g);
    }
  }

  /** The heads in the rings are live. */
  ghost predicate Live(v: View) {
    && (forall k :: 0 <= k < |v.queue| ==> v.queue[k] in v.stage && v.stage[v.queue[k]].Queued?)
    && (forall k :: 0 <= k < |v.done| ==> v.done[k] in v.stage && v.stage[v.done[k]].Done?)
  }

  lemma RingsLive(x: Traffic, stage: map<nat, Stage>, v: View)
    requires Queues(x, stage) && v.stage == stage && v.queue == x.queue && v.done == x.done
    ensures Live(v)
  {
    forall k: nat | k < |x.queue| ensures x.queue[k] in stage && stage[x.queue[k]].Queued? {
      assert QueuedAt(x, stage, k);
    }
    forall k: nat | k < |x.done| ensures x.done[k] in stage && stage[x.done[k]].Done? {
      assert DoneAt(x, stage, k);
    }
  }

  /** A request for buffer b was submitted on chain h. */
  lemma MatchRw(v: View, v': View, mine: map<nat, nat>, active: set<nat>, s: Bus, h: nat, n: nat, b: nat, out: bool,
                blockno: nat)
    requires Matches(v, mine, active, s) && Live(v) && b !in s.flight && h !in v.stage
    requires v' == v.(stage := v.stage[h := Queued(n)], want := v.want[h := Req(out, blockno * 2 % U32, b)],
                      queue := v.queue + [h])
    ensures Matches(v', mine[b := h], active,
                    s.(flight := s.flight[b := InQueue], queue := s.queue + [Req(out, blockno * 2 % U32, b)],
                       asks := s.asks[b := Ask(out, blockno % BLOCKS)]))
  {
    FlightAdded(v.stage, v.want, mine, s.flight, h, n, v'.want[h]);
    forall c | c in mine ensures mine[c] != h {
      assert BufAt(v.stage, v.want, mine, s.flight, c);
    }
    AskAdded(v.want, mine, s.asks, h, b, out, blockno);
  }

  lemma MatchTake(v: View, v': View, mine: map<nat, nat>, active: set<nat>, s: Bus, h: nat)
    requires Matches(v, mine, active, s) && Live(v) && v.queue != [] && h == v.queue[0]
    requires v' == v.(stage := v.stage[h := Taken], queue := v.queue[1..])
    ensures s.queue != [] && h in v.want && v.want[h] == s.queue[0]
    ensures Matches(v', mine, active + {h}, s.(flight := s.flight[s.queue[0].b := AtDevice], queue := s.queue[1..]))
  {
    FlightMoved(v.stage, v.want, mine, s.flight, h, Taken);
  }

  lemma MatchComplete(v: View, v': View, mine: map<nat, nat>, active: set<nat>, s: Bus, h: nat, b: nat, n: nat)
    requires Matches(v, mine, active, s) && Live(v) && b in mine && h == mine[b] && h in active && h in v.want
    requires v' == v.(stage := v.stage[h := Done(n)], done := v.done + [h], medium := Transfer(v.medium, v.want[h]))
    ensures Matches(v', mine, active - {h}, Served(s, b).(flight := s.flight[b := Returned], done := s.done + [b]))
  {
    assert BufAt(v.stage, v.want, mine, s.flight, b) && AskAt(v.want, mine, s.asks, b);
    FlightMoved(v.stage, v.want, mine, s.flight, h, Done(n));
    DataMoves(v.medium, s, v.want[h], b);
  }

  lemma MatchInterrupt(v: View, v': View, mine: map<nat, nat>, active: set<nat>, s: Bus, h: nat)
    requires Matches(v, mine, active, s) && Live(v) && v.done != [] && h == v.done[0]
    requires v' == v.(stage := v.stage[h := Handled], done := v.done[1..])
    ensures s.done != [] && h in v.want && v.want[h].b == s.done[0]
    ensures Matches(v', mine, active, s.(flight := s.flight[s.done[0] := Seen], done := s.done[1..]))
  {
    FlightMoved(v.stage, v.want, mine, s.flight, h, Handled);
  }

  lemma MatchWake(v: View, v': View, mine: map<nat, nat>, active: set<nat>, s: Bus, b: nat)
    requires Matches(v, mine, active, s) && Live(v) && b in mine && mine[b] in v.stage && v.stage[mine[b]] == Handled
    requires v' == v.(stage := v.stage - {mine[b]})
    ensures Matches(v', mine - {b}, active, Serve(s, Wake(b)).0) && Serve(s, Wake(b)).1 == Got(Held(v.medium, b))
  {
    assert BufAt(v.stage, v.want, mine, s.flight, b);
    FlightDropped(v.stage, v.want, mine, s.flight, b);
    AskDropped(v.want, mine, s.asks, b);
    assert BufSame(v.medium, s.data, b);
  }

  /** A process calls virtio_disk_rw for a buffer it has locked. */
  method DoRw(disk: Disk, mine: map<nat, nat>, active: set<nat>, b: nat, out: bool, blockno: nat, ghost s: Bus)
    returns (mine': map<nat, nat>, r: Reply)
    requires Refines(disk, mine, active, s)
    modifies disk
    ensures r == Serve(s, Rw(b, out, blockno)).1 && Refines(disk, mine', active, Serve(s, Rw(b, out, blockno)).0)
  {
    if b in mine {
      return mine, Skipped;
    }
    forall g: nat | g in disk.stage ensures g in disk.want && disk.want[g].b != b {
      assert HeadAt(disk.stage, disk.want, mine, g);
    }
    ghost var v, n := ViewOf(disk), disk.taken + |disk.queue|;
    RingsLive(disk.Lines(), disk.stage, v);
    var ok, h := disk.Submit(b, out, blockno);
    if !ok {
      return mine, TooMany;
    }
    MatchRw(v, ViewOf(disk), mine, active, s, h, n, b, out, blockno);
    mine', r := mine[b := h], Accepted;
  }

  /** The request the device finds by following the chain from head h; it will read the buffer exactly if the
      descriptor does not tell it to write. */
  function ReadChain(desc: seq<Desc>, ops: seq<Op>, h: nat): Req
    requires h < |ops| && h < |desc| && desc[h].next < |desc| && desc[desc[h].next].addr.DataOf?
  {
    Req(!desc[desc[h].next].write, ops[h].sector, desc[desc[h].next].addr.b)
  }

  /** The device reads the available ring. */
  method DoTake(disk: Disk, ghost mine: map<nat, nat>, active: set<nat>, ghost s: Bus)
    returns (active': set<nat>, r: Reply)
    requires Refines(disk, mine, active, s)
    modifies disk
    ensures r == Serve(s, Take).1 && Refines(disk, mine, active', Serve(s, Take).0)
  {
    ghost var v := ViewOf(disk);
    RingsLive(disk.Lines(), disk.stage, v);
    var h := disk.DeviceTake();
    if h < 0 {
      return active, Idle;
    }
    MatchTake(v, ViewOf(disk), mine, active, s, h);
    active', r := active + {h}, Started(ReadChain(disk.desc, disk.ops, h));
  }

  /** The device completes a request it works on. */
  method DoComplete(disk: Disk, mine: map<nat, nat>, active: set<nat>, b: nat, ghost s: Bus)
    returns (active': set<nat>, r: Reply)
    requires Refines(disk, mine, active, s)
    modifies disk
    ensures r == Serve(s, Complete(b)).1 && Refines(disk, mine, active', Serve(s, Complete(b)).0)
  {
    assert BufAt(disk.stage, disk.want, mine, s.flight, b);
    if b !in mine || mine[b] !in active {
      return active, Skipped;
    }
    var h := mine[b];
    ghost var v, n := ViewOf(disk), disk.DoneSoFar();
    RingsLive(disk.Lines(), disk.stage, v);
    disk.DeviceComplete(h);
    MatchComplete(v, ViewOf(disk), mine, active, s, h, b, n);
    active', r := active - {h}, Ok;
  }

  /** One round of the interrupt handler. */
  method DoInterrupt(disk: Disk, ghost mine: map<nat, nat>, ghost active: set<nat>, ghost s: Bus) returns (r: Reply)
    requires Refines(disk, mine, active, s)
    modifies disk
    ensures r == Serve(s, Interrupt).1 && Refines(disk, mine, active, Serve(s, Interrupt).0)
  {
    ghost var v := ViewOf(disk);
    RingsLive(disk.Lines(), disk.stage, v);
    var b, stuck := disk.HandleOne();
    if b < 0 {
      return Idle;
    }
    MatchInterrupt(v, ViewOf(disk), mine, active, s, v.done[0]);
    r := Finished(b);
  }

  lemma BusyUntilHandled(t: Table, h: nat)
    requires AllHeads(t) && h in t.stage
    ensures h in t.want && t.want[h].b in t.busy && t.busy[t.want[h].b] == (t.stage[h] != Handled)
  {
    assert HeadOk(t, h);
  }

  /** The process that waits for b looks at b->disk again. */
  method DoWake(disk: Disk, mine: map<nat, nat>, ghost active: set<nat>, b: nat, ghost s: Bus)
    returns (mine': map<nat, nat>, r: Reply)
    requires Refines(disk, mine, active, s)
    modifies disk
    ensures r == Serve(s, Wake(b)).1 && Refines(disk, mine', active, Serve(s, Wake(b)).0)
  {
    if b !in mine {
      return mine, Skipped;
    }
    var waits := StillBusy(disk, mine, active, b, s);
    if waits {
      return mine, Skipped;
    }
    ghost var v := ViewOf(disk);
    RingsLive(disk.Lines(), disk.stage, v);
    var stuck := disk.Finish(mine[b]);
    MatchWake(v, ViewOf(disk), mine, active, s, b);
    mine', r := mine - {b}, Got(Held(disk.medium, b));
  }

  /** while(b->disk == 1) */
  method StillBusy(disk: Disk, mine: map<nat, nat>, ghost active: set<nat>, b: nat, ghost s: Bus) returns (waits: bool)
    requires Refines(disk, mine, active, s) && b in mine
    ensures mine[b] in disk.stage && b in s.flight
    ensures (waits <==> disk.stage[mine[b]] != Handled) && (waits <==> s.flight[b] != Seen)
  {
    assert BufAt(disk.stage, disk.want, mine, s.flight, b);
    BusyUntilHandled(disk.Tab(), mine[b]);
    waits := disk.busy[b];
  }

  /** A process changes a buffer that has no request in flight. */
  method DoFill(disk: Disk, mine: map<nat, nat>, ghost active: set<nat>, b: nat, x: Data, ghost s: Bus)
    returns (r: Reply)
    requires Refines(disk, mine, active, s)
    modifies disk
    ensures r == Serve(s, Fill(b, x)).1 && Refines(disk, mine, active, Serve(s, Fill(b, x)).0)
  {
    if b in mine {
      return Skipped;
    }
    DataFilled(disk.medium, s.data, s.blocks, b, x);
    disk.medium := disk.medium.(bufs := disk.medium.bufs[b := x]);
    r := Ok;
  }

  method Do(disk: Disk, mine: map<nat, nat>, active: set<nat>, a: Act, ghost s: Bus)
    returns (mine': map<nat, nat>, active': set<nat>, r: Reply)
    requires Refines(disk, mine, active, s)
    modifies disk
    ensures r == Serve(s, a).1 && Refines(disk, mine', active', Serve(s, a).0)
  {
    mine', active' := mine, active;
    match a
    case Fill(b, x) => r := DoFill(disk, mine, active, b, x, s);
    case Rw(b, out, blockno) => mine', r := DoRw(disk, mine, active, b, out, blockno, s);
    case Take => active', r := DoTake(disk, mine, active, s);
    case Complete(b) => active', r := DoComplete(disk, mine, active, b, s);
    case Interrupt => r := DoInterrupt(disk, mine, active, s);
    case Wake(b) => mine', r := DoWake(disk, mine, active, b, s);
  }

  method Boot() returns (disk: Disk)
    ensures fresh(disk) && Refines(disk, map[], {}, QUIET)
  {
    disk := new Disk();
  }

  lemma RepliesFrom(s: Bus, acts: seq<Act>, t: nat, res: seq<Reply>, s': Bus, r: Reply)
    requires t < |acts| && (s', r) == Serve(s, acts[t])
    ensures res + Replies(s, acts[t..]) == (res + [r]) + Replies(s', acts[t + 1..])
  {
    assert acts[t..][0] == acts[t] && acts[t..][1..] == acts[t + 1..];
  }

  method DoNext(disk: Disk, mine: map<nat, nat>, active: set<nat>, acts: seq<Act>, t: nat, ghost res: seq<Reply>,
                ghost s: Bus)
    returns (mine': map<nat, nat>, active': set<nat>, r: Reply, ghost s': Bus)
    requires t < |acts| && Refines(disk, mine, active, s)
    modifies disk
    ensures Refines(disk, mine', active', s') && res + Replies(s, acts[t..]) == (res + [r]) + Replies(s', acts[t + 1..])
  {
    mine', active', r := Do(disk, mine, active, acts[t], s);
    s' := Serve(s, acts[t]).0;
    RepliesFrom(s, acts, t, res, s', r);
  }

  /** In every run, whatever order the device completes requests in and however often the indices wrap,
      the driver and the device answer as the queue does. */
  method Run(acts: seq<Act>) returns (res: seq<Reply>)
    ensures res == Replies(QUIET, acts)
  {
    var disk := Boot();
    var mine: map<nat, nat>, active: set<nat> := map[], {};
    res := [];
    ghost var s, all := QUIET, Replies(QUIET, acts);
    assert acts[0..] == acts;
    for t := 0 to |acts|
      invariant fresh(disk) && Refines(disk, mine, active, s) && all == res + Replies(s, acts[t..])
    {
      var r;
      mine, active, r, s := DoNext(disk, mine, active, acts, t, res, s);
      res := res + [r];
    }
  }

  // ---------------------------------------------------------------- what the queue promises

  function Final(s: Bus, acts: seq<Act>): Bus
    decreases |acts|
  {
    if acts == [] then s else Final(Serve(s, acts[0]).0, acts[1..])
  }

  function Asked(a: Act, r: Reply): seq<Req> {
    if a.Rw? && r.Accepted? then [Req(a.out, a.blockno * 2 % U32, a.b)] else []
  }

  function Begun(r: Reply): seq<Req> {
    if r.Started? then [r.r] else []
  }

  /** The requests accepted, and those the device started, in order. */
  function AllAsked(acts: seq<Act>, res: seq<Reply>): seq<Req>
    requires |acts| == |res|
  {
    if acts == [] then [] else Asked(acts[0], res[0]) + AllAsked(acts[1..], res[1..])
  }

  function AllBegun(res: seq<Reply>): seq<Req> {
    if res == [] then [] else Begun(res[0]) + AllBegun(res[1..])
  }

  lemma QueueKept(s: Bus, a: Act)
    ensures var (s', r) := Serve(s, a); s.queue + Asked(a, r) == Begun(r) + s'.queue
  {
  }

  /** The device starts the requests in the order in which they were accepted, each as it was made. */
  lemma {:induction false} StartedInOrder(s: Bus, acts: seq<Act>)
    ensures |Replies(s, acts)| == |acts|
    ensures s.queue + AllAsked(acts, Replies(s, acts)) == AllBegun(Replies(s, acts)) + Final(s, acts).queue
    decreases |acts|
  {
    if acts != [] {
      var s', r := Serve(s, acts[0]).0, Serve(s, acts[0]).1;
      var rest := Replies(s', acts[1..]);
      StartedInOrder(s', acts[1..]);
      QueueKept(s, acts[0]);
      assert Replies(s, acts)[0] == r && Replies(s, acts)[1..] == rest;
      Compose(s.queue, Asked(acts[0], r), Begun(r), s'.queue, AllAsked(acts[1..], rest), AllBegun(rest),
              Final(s', acts[1..]).queue);
    }
  }

  function Ended(a: Act, r: Reply): seq<nat> {
    if a.Complete? && r.Ok? then [a.b] else []
  }

  function Told(r: Reply): seq<nat> {
    if r.Finished? then [r.b] else []
  }

  /** The buffers whose requests the device completed, and those the interrupt reported, in order. */
  function AllEnded(acts: seq<Act>, res: seq<Reply>): seq<nat>
    requires |acts| == |res|
  {
    if acts == [] then [] else Ended(acts[0], res[0]) + AllEnded(acts[1..], res[1..])
  }

  function AllTold(res: seq<Reply>): seq<nat> {
    if res == [] then [] else Told(res[0]) + AllTold(res[1..])
  }

  lemma DoneKept(s: Bus, a: Act)
    ensures var (s', r) := Serve(s, a); s.done + Ended(a, r) == Told(r) + s'.done
  {
  }

  /** The driver reports exactly the completions, in the order in which the device made them: none is lost,
      none comes before the device is done. */
  lemma {:induction false} ReportedInOrder(s: Bus, acts: seq<Act>)
    ensures |Replies(s, acts)| == |acts|
    ensures s.done + AllEnded(acts, Replies(s, acts)) == AllTold(Replies(s, acts)) + Final(s, acts).done
    decreases |acts|
  {
    if acts != [] {
      var s', r := Serve(s, acts[0]).0, Serve(s, acts[0]).1;
      var rest := Replies(s', acts[1..]);
      ReportedInOrder(s', acts[1..]);
      DoneKept(s, acts[0]);
      assert Replies(s, acts)[0] == r && Replies(s, acts)[1..] == rest;
      Compose(s.done, Ended(acts[0], r), Told(r), s'.done, AllEnded(acts[1..], rest), AllTold(rest),
              Final(s', acts[1..]).done);
    }
  }

  /** Requests in the queue and completions not seen are of different buffers, all in flight. */
  ghost predicate SoundFor(flight: map<nat, Phase>, queue: seq<Req>, done: seq<nat>) {
    && (forall k :: 0 <= k < |queue| ==> queue[k].b in flight && flight[queue[k].b] == InQueue)
    && (forall k :: 0 <= k < |done| ==> done[k] in flight && flight[done[k]] == Returned)
    && (forall i, j :: 0 <= i < j < |queue| ==> queue[i].b != queue[j].b) && NoDup(done)
  }

  ghost predicate Sound(s: Bus) {
    SoundFor(s.flight, s.queue, s.done)
  }

  lemma SoundAdded(flight: map<nat, Phase>, queue: seq<Req>, done: seq<nat>, r: Req)
    requires SoundFor(flight, queue, done) && r.b !in flight
    ensures SoundFor(flight[r.b := InQueue], queue + [r], done)
  {
  }

  lemma SoundCompleted(flight: map<nat, Phase>, queue: seq<Req>, done: seq<nat>, b: nat)
    requires SoundFor(flight, queue, done) && b in flight && flight[b] == AtDevice
    ensures SoundFor(flight[b := Returned], queue, done + [b])
  {
  }

  lemma SoundTaken(flight: map<nat, Phase>, queue: seq<Req>, done: seq<nat>)
    requires SoundFor(flight, queue, done)
    ensures queue != [] ==> SoundFor(flight[queue[0].b := AtDevice], queue[1..], done)
    ensures done != [] ==> SoundFor(flight[done[0] := Seen], queue, done[1..])
  {
  }

  lemma SoundServe(s: Bus, a: Act)
    requires Sound(s)
    ensures Sound(Serve(s, a).0)
  {
    SoundTaken(s.flight, s.queue, s.done);
    if a.Rw? && a.b !in s.flight {
      SoundAdded(s.flight, s.queue, s.done, Req(a.out, a.blockno * 2 % U32, a.b));
    } else if a.Complete? && a.b in s.flight && s.flight[a.b] == AtDevice {
      SoundCompleted(s.flight, s.queue, s.done, a.b);
    }
  }

  /** The buffers whose request has not been reported. */
  ghost function Open(s: Bus): set<nat> {
    set b | b in s.flight && s.flight[b] != Seen
  }

  /** Every report answers an open request, and no request is accepted for a buffer with an open one. */
  ghost predicate Answered(open: set<nat>, acts: seq<Act>, res: seq<Reply>)
    requires |acts| == |res|
    decreases |acts|
  {
    if acts == [] then true
    else if acts[0].Rw? && res[0].Accepted? then
      acts[0].b !in open && Answered(open + {acts[0].b}, acts[1..], res[1..])
    else if res[0].Finished? then
      res[0].b in open && Answered(open - {res[0].b}, acts[1..], res[1..])
    else Answered(open, acts[1..], res[1..])
  }

  lemma OpenServe(s: Bus, a: Act)
    requires Sound(s)
    ensures var (s', r) := Serve(s, a);
            && (a.Rw? && r.Accepted? ==> a.b !in Open(s) && Open(s') == Open(s) + {a.b})
            && (r.Finished? ==> r.b in Open(s) && Open(s') == Open(s) - {r.b})
            && (!(a.Rw? && r.Accepted?) && !r.Finished? ==> Open(s') == Open(s))
  {
  }

  /** Each request is reported at most once, and only while it is open. */
  lemma {:induction false} ReportedOnce(s: Bus, acts: seq<Act>)
    requires Sound(s)
    ensures |Replies(s, acts)| == |acts| && Answered(Open(s), acts, Replies(s, acts))
    decreases |acts|
  {
    if acts != [] {
      var s', r := Serve(s, acts[0]).0, Serve(s, acts[0]).1;
      SoundServe(s, acts[0]);
      OpenServe(s, acts[0]);
      ReportedOnce(s', acts[1..]);
      assert Replies(s, acts)[0] == r && Replies(s, acts)[1..] == Replies(s', acts[1..]);
    }
  }

  // ---------------------------------------------------------------- what the disk of blocks promises

  /** This act completes a write, a read of block k. */
  ghost predicate WritesBlock(s: Bus, a: Act, k: nat) {
    && a.Complete? && a.b in s.flight && s.flight[a.b] == AtDevice
    && a.b in s.asks && s.asks[a.b] == Ask(true, k)
  }

  ghost predicate ReadsBlock(s: Bus, a: Act, k: nat) {
    && a.Complete? && a.b in s.flight && s.flight[a.b] == AtDevice
    && a.b in s.asks && s.asks[a.b] == Ask(false, k)
  }

  /** A block changes only when a write of it completes, and then holds what the buffer held; a read leaves the
      block's contents in its buffer. */
  lemma BlockChanges(s: Bus, a: Act, k: nat)
    ensures In(Serve(s, a).0.blocks, k) == if WritesBlock(s, a, k) then In(s.data, a.b) else In(s.blocks, k)
    ensures ReadsBlock(s, a, k) ==> In(Serve(s, a).0.data, a.b) == In(s.blocks, k)
  {
  }

  /** While its request is in flight a buffer changes only when that completes. */
  lemma BufferChanges(s: Bus, a: Act, b: nat)
    requires b in s.flight && a != Complete(b)
    ensures In(Serve(s, a).0.data, b) == In(s.data, b)
  {
  }

  ghost predicate NoWrite(s: Bus, acts: seq<Act>, k: nat)
    decreases |acts|
  {
    acts == [] || (!WritesBlock(s, acts[0], k) && NoWrite(Serve(s, acts[0]).0, acts[1..], k))
  }

  /** A block holds what was written last. */
  lemma {:induction false} BlockStays(s: Bus, acts: seq<Act>, k: nat)
    requires NoWrite(s, acts, k)
    ensures In(Final(s, acts).blocks, k) == In(s.blocks, k)
    decreases |acts|
  {
    if acts != [] {
      BlockChanges(s, acts[0], k);
      BlockStays(Serve(s, acts[0]).0, acts[1..], k);
    }
  }
}
