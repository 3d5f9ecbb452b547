/** The pipe of kernel/pipe.c: a ring with two 32-bit counters.  A turn is what a call does from taking
    the pipe's lock until it sleeps or returns. */
module Pipe {
  import opened Fifo
  import opened Words

  const PIPESIZE: nat := 512

  /** How a turn ends: the call returns a count, returns -1, or sleeps. */
  datatype Turn = Returned(n: int) | Failed | Slept

  /** The pipe as a queue of bytes, with who sleeps on it. */
  datatype Queue = Queue(bytes: seq<int>, readopen: bool, writeopen: bool, readers: set<nat>, writers: set<nat>)

  /** A turn of some process: a writer at byte i of its buffer, a reader, or a close. */
  datatype Act =
    | Write(pid: nat, src: seq<int>, i: nat, n: int, death: nat)
    | Read(pid: nat, n: int, room: nat, killed: bool)
    | Shut(writable: bool)

  /** What the turn does: the bytes inserted, the bytes delivered and the byte lost, or the close. */
  datatype Answer =
    | Wrote(bytes: seq<int>, r: Turn)
    | Delivered(bytes: seq<int>, lost: seq<int>, r: Turn)
    | Closed(gone: bool)

  predicate IsAct(a: Act) {
    a.Write? ==> a.i <= |a.src| && (a.i <= a.n || a.i == 0)
  }

  function Least(a: int, b: nat, c: nat): nat {
    var m := if b < c then b else c;
    if a < 0 then 0 else if a < m then a else m
  }

  /** A writer inserts until it is done, dies, finds the queue full or cannot read its buffer. */
  function Accepted(q: Queue, src: seq<int>, i: nat, n: int, death: nat): nat
    requires i <= |src| && |q.bytes| <= PIPESIZE
  {
    if q.readopen then Least(n - i, death, Least(|src| - i, PIPESIZE - |q.bytes|, PIPESIZE)) else 0
  }

  function WriteNext(q: Queue, pid: nat, src: seq<int>, i: nat, n: int, death: nat): (Queue, Answer)
    requires i <= |src| && |q.bytes| <= PIPESIZE
  {
    var k := Accepted(q, src, i, n, death);
    var turn :=
      if i + k >= n then Returned(i + k)
      else if !q.readopen || k == death then Failed
      else if |q.bytes| + k == PIPESIZE then Slept else Returned(i + k);
    (q.(bytes := q.bytes + src[i..i + k], readers := if turn.Failed? then q.readers else {},
        writers := if turn.Slept? then q.writers + {pid} else q.writers), Wrote(src[i..i + k], turn))
  }

  function ReadNext(q: Queue, pid: nat, n: int, room: nat, killed: bool): (Queue, Answer) {
    if q.bytes == [] && q.writeopen then
      if killed then (q, Delivered([], [], Failed))
      else (q.(readers := q.readers + {pid}), Delivered([], [], Slept))
    else
      var k := Least(n, room, |q.bytes|);
      var gone := if room < n && room < |q.bytes| then k + 1 else k;
      (q.(bytes := q.bytes[gone..], writers := {}), Delivered(q.bytes[..k], q.bytes[k..gone], Returned(k)))
  }

  /** The queue's answer to a turn. */
  function Next(q: Queue, act: Act): (Queue, Answer)
    requires |q.bytes| <= PIPESIZE && IsAct(act)
  {
    match act
    case Write(pid, src, i, n, death) => WriteNext(q, pid, src, i, n, death)
    case Read(pid, n, room, killed) => ReadNext(q, pid, n, room, killed)
    case Shut(true) => (q.(writeopen := false, readers := {}), Closed(!q.readopen))
    case Shut(false) => (q.(readopen := false, writers := {}), Closed(!q.writeopen))
  }

  function Empty(): Queue {
    Queue([], true, true, {}, {})
  }

  ghost function Answers(q: Queue, acts: seq<Act>): seq<Answer>
    requires |q.bytes| <= PIPESIZE && forall t :: 0 <= t < |acts| ==> IsAct(acts[t])
    decreases |acts|
  {
    if acts == [] then [] else
      var (q', a) := Next(q, acts[0]);
      [a] + Answers(q', acts[1..])
  }

  ghost function Final(q: Queue, acts: seq<Act>): Queue
    requires |q.bytes| <= PIPESIZE && forall t :: 0 <= t < |acts| ==> IsAct(acts[t])
    decreases |acts|
  {
    if acts == [] then q else Final(Next(q, acts[0]).0, acts[1..])
  }

  /** The wrapped counters tell how far apart a and b are. */
  lemma Counters(a: nat, b: nat)
    requires b <= a <= b + PIPESIZE
    ensures a % U32 == b % U32 <==> a == b
    ensures a % U32 == (b % U32 + PIPESIZE) % U32 <==> a == b + PIPESIZE
    ensures a % U32 % PIPESIZE == a % PIPESIZE && b % U32 % PIPESIZE == b % PIPESIZE
    ensures (a % U32 + 1) % U32 == (a + 1) % U32
  {
    Wrap(a);
    Wrap(b);
    Apart(a, b);
    Apart(b + PIPESIZE, a);
    AddWrapped(b, PIPESIZE);
    AddWrapped(a, 1);
  }

  lemma Apart(a: nat, b: nat)
    requires b <= a < b + U32
    ensures a % U32 == b % U32 <==> a == b
  {
    var p, q := a / U32, b / U32;
    assert a == p * U32 + a % U32 && b == q * U32 + b % U32;
  }

  lemma AddWrapped(a: nat, k: nat)
    requires k < U32
    ensures (a % U32 + k) % U32 == (a + k) % U32
  {
    var p := a / U32;
    assert a + k == p * U32 + (a % U32 + k);
  }

  /** The ring size divides the counter range. */
  lemma Wrap(a: nat)
    ensures a % U32 % PIPESIZE == a % PIPESIZE
  {
    var q := a / U32;
    assert a == q * U32 + a % U32;
    assert q * U32 == q * 0x80_0000 * PIPESIZE;
  }

  lemma SlotsDiffer(a: nat, b: nat)
    requires b < a < b + PIPESIZE
    ensures a % PIPESIZE != b % PIPESIZE
  {
  }

  /** What is taken from put at a, in two parts, seen from a. */
  lemma SliceNext(s: seq<int>, a: nat, b: nat)
    requires a <= b <= |s|
    ensures b < |s| ==> s[a..b + 1] == s[a..b] + [s[b]]
  {
  }

  /** What ReadTurn ensures determines the queue and the answer. */
  lemma ReadIs(q: Queue, q': Queue, pid: nat, n: int, room: nat, killed: bool, dst: seq<int>, lost: seq<int>, r: Turn)
    requires |dst| + |lost| <= |q.bytes| && q.bytes[..|dst|] == dst && q.bytes[|dst|..|dst| + |lost|] == lost
    requires q'.bytes == q.bytes[|dst| + |lost|..] && q'.readopen == q.readopen && q'.writeopen == q.writeopen
    requires r.Returned? <==> q.bytes != [] || !q.writeopen
    requires !r.Returned? ==> (r.Failed? <==> killed) && dst == lost == [] && q'.writers == q.writers
    requires q'.readers == if r.Slept? then q.readers + {pid} else q.readers
    requires r.Returned? ==>
               && r.n == |dst| == Least(n, room, |q.bytes|) && q'.writers == {}
               && |lost| == if room < n && room < |q.bytes| then 1 else 0
    ensures (q', Delivered(dst, lost, r)) == ReadNext(q, pid, n, room, killed)
  {
  }

  lemma Cuts(put: seq<int>, a: nat, b: nat, x: seq<int>, y: seq<int>)
    requires a <= b <= |put| && x + y == put[a..b]
    ensures |x| + |y| == b - a && put[a..][..|x|] == x && put[a..][|x|..b - a] == y && put[a..][b - a..] == put[b..]
  {
    assert |x + y| == b - a;
    assert x == (x + y)[..|x|] && y == (x + y)[|x|..];
  }

  class Pipe {
    var data: array<int>
    var nread: nat
    var nwrite: nat
    var readopen: bool
    var writeopen: bool
    var readers: set<nat>           // asleep on &nread
    var writers: set<nat>           // asleep on &nwrite
    ghost var put: seq<int>         // every byte ever inserted
    ghost var got: nat              // how many were removed

    ghost predicate Slot(k: nat)
      reads this`data, this`put, data
    {
      k < |put| && data.Length == PIPESIZE && data[k % PIPESIZE] == put[k]
    }

    /** The counters are the histories' lengths modulo 2^32; the ring holds what is not yet removed. */
    ghost predicate Valid()
      reads this, data
    {
      && data.Length == PIPESIZE && got <= |put| <= got + PIPESIZE
      && nwrite == |put| % U32 && nread == got % U32
      && forall k: nat {:trigger Slot(k)} :: got <= k < |put| ==> Slot(k)
    }

    /** No reader sleeps while there is something to read or the writers are gone. */
    ghost predicate ReadersCalm()
      reads this
    {
      readers != {} ==> got == |put| && writeopen
    }

    /** No writer sleeps while there is room or the readers are gone. */
    ghost predicate WritersCalm()
      reads this
    {
      writers != {} ==> |put| == got + PIPESIZE && readopen
    }

    constructor ()
      ensures Valid() && put == [] && got == 0 && readopen && writeopen && readers == writers == {} && fresh(data)
    {
      data := new int[PIPESIZE];
      nread, nwrite, readopen, writeopen, readers, writers, put, got := 0, 0, true, true, {}, {}, [], 0;
    }

    /** data[nwrite++ % PIPESIZE] = ch */
    method Insert(ch: int)
      requires Valid() && |put| < got + PIPESIZE
      modifies this`nwrite, this`put, data
      ensures Valid() && put == old(put) + [ch]
    {
      Counters(|put|, got);
      data[nwrite % PIPESIZE] := ch;
      nwrite := (nwrite + 1) % U32;
      put := put + [ch];
      forall k: nat | got <= k < |put| ensures Slot(k) {
        if k < |put| - 1 {
          assert old(Slot(k));
          SlotsDiffer(|put| - 1, k);
        }
      }
    }

    /** One turn of pipewrite: src is the part of the buffer that can be read, i bytes of n are in the
        pipe already, and the writer's death is noticed at test number `death`. */
    method WriteTurn(pid: nat, src: seq<int>, i: nat, n: int, death: nat) returns (i': nat, r: Turn)
      requires Valid() && WritersCalm() && i <= |src| && (i <= n || i == 0)
      modifies this`nwrite, this`put, this`readers, this`writers, data
      ensures Valid() && WritersCalm() && i <= i' <= |src| && put == old(put) + src[i..i']
      ensures i' - i <= death && (i' > i ==> readopen && i' <= n)
      ensures r.Failed? <==> i' < n && (!readopen || i' - i == death)
      ensures r.Slept? <==> i' < n && readopen && i' - i < death && |put| == got + PIPESIZE
      ensures r.Returned? ==> r.n == i' && (i' >= n || i' == |src|) && readers == {} && writers == old(writers)
      ensures r.Slept? ==> readers == {} && writers == old(writers) + {pid}
      ensures r.Failed? ==> readers == old(readers) && writers == old(writers)
      ensures old(ReadersCalm()) ==>
                (ReadersCalm() <==>
                 !(old(readers) != {} && readopen && 0 < death <= PIPESIZE && i + death <= |src| && i + death < n))
    {
      i' := i;
      while i' < n
        invariant Valid() && i <= i' <= |src| && put == old(put) + src[i..i'] && i' - i <= death
                  && (i' > i ==> readopen && i' <= n)
        invariant readers == old(readers) && writers == old(writers) && WritersCalm()
      {
        if !readopen || i' - i >= death {
          return i', Failed;
        }
        Counters(|put|, got);
        if nwrite == (nread + PIPESIZE) % U32 {
          readers := {};
          writers := writers + {pid};
          return i', Slept;
        }
        if i' >= |src| {
          break;
        }
        Insert(src[i']);
        i' := i' + 1;
      }
      readers := {};
      r := Returned(i');
    }

    /** data[nread++ % PIPESIZE] */
    method Remove() returns (ch: int)
      requires Valid() && got < |put|
      modifies this`nread, this`got
      ensures Valid() && ch == put[old(got)] && got == old(got) + 1
    {
      Counters(|put|, got);
      Counters(got, got);
      assert Slot(got);
      ch := data[nread % PIPESIZE];
      nread := (nread + 1) % U32;
      got := got + 1;
    }

    /** The loop of piperead. */
    method ReadBytes(n: int, room: nat) returns (dst: seq<int>, lost: seq<int>)
      requires Valid()
      modifies this`nread, this`got
      ensures Valid() && old(got) <= got && dst + lost == put[old(got)..got]
      ensures |dst| == Least(n, room, |put| - old(got))
      ensures |lost| == if room < n && room < |put| - old(got) then 1 else 0
    {
      dst, lost := [], [];
      var i := 0;
      while i < n
        invariant Valid() && 0 <= i == |dst| <= room && (i == 0 || i <= n) && got == old(got) + i
                  && dst == put[old(got)..got]
      {
        Counters(|put|, got);
        if nread == nwrite {
          break;
        }
        SliceNext(put, old(got), got);
        var ch := Remove();
        if i >= room {
          lost := [ch];
          return;
        }
        dst := dst + [ch];
        i := i + 1;
      }
    }

    /** One turn of piperead into a buffer of which `room` bytes can be written: the bytes delivered and
        the byte lost, if any, are the next ones of the history.  A byte that cannot be copied out has
        left the pipe already. */
    method ReadTurn(pid: nat, n: int, room: nat, killed: bool) returns (dst: seq<int>, lost: seq<int>, r: Turn)
      requires Valid() && WritersCalm()
      modifies this`nread, this`got, this`readers, this`writers
      ensures Valid() && WritersCalm() && old(got) <= got && dst + lost == put[old(got)..got]
      ensures r.Returned? <==> old(got) < |put| || !writeopen
      ensures !r.Returned? ==> (r.Failed? <==> killed) && dst == lost == [] && writers == old(writers)
      ensures r.Slept? ==> readers == old(readers) + {pid}
      ensures r.Failed? ==> readers == old(readers)
      ensures r.Returned? ==>
                && r.n == |dst| == Least(n, room, |put| - old(got)) && readers == old(readers) && writers == {}
                && |lost| == (if room < n && room < |put| - old(got) then 1 else 0)
      ensures old(ReadersCalm()) ==> ReadersCalm()
    {
      dst, lost := [], [];
      Counters(|put|, got);
      if nread == nwrite && writeopen {
        if killed {
          return dst, lost, Failed;
        }
        readers := readers + {pid};
        return dst, lost, Slept;
      }
      dst, lost := ReadBytes(n, room);
      writers := {};
      r := Returned(|dst|);
    }

    /** pipeclose; true if the pipe's page is freed. */
    method Close(writable: bool) returns (gone: bool)
      requires Valid() && WritersCalm()
      modifies this`readopen, this`writeopen, this`readers, this`writers
      ensures Valid() && WritersCalm() && (old(ReadersCalm()) ==> ReadersCalm())
      ensures if writable then !writeopen && readopen == old(readopen) && readers == {} && writers == old(writers)
              else !readopen && writeopen == old(writeopen) && writers == {} && readers == old(readers)
      ensures gone <==> !readopen && !writeopen
    {
      if writable {
        writeopen := false;
        readers := {};
      } else {
        readopen := false;
        writers := {};
      }
      gone := !readopen && !writeopen;
    }

    /** What the pipe's users see of it. */
    ghost function View(): Queue
      requires got <= |put|
      reads this
    {
      Queue(put[got..], readopen, writeopen, readers, writers)
    }

    /** A writer's turn is the queue's. */
    method DoWrite(pid: nat, src: seq<int>, i: nat, n: int, death: nat) returns (a: Answer)
      requires Valid() && WritersCalm() && IsAct(Write(pid, src, i, n, death))
      modifies this`nwrite, this`put, this`readers, this`writers, data
      ensures Valid() && WritersCalm()
      ensures (View(), a) == Next(old(View()), Write(pid, src, i, n, death))
    {
      var i', r := WriteTurn(pid, src, i, n, death);
      a := Wrote(src[i..i'], r);
      assert i' == i + Accepted(old(View()), src, i, n, death);
      assert put[got..] == old(put[got..]) + src[i..i'];
    }

    /** A reader's turn is the queue's. */
    method DoRead(pid: nat, n: int, room: nat, killed: bool) returns (a: Answer)
      requires Valid() && WritersCalm()
      modifies this`nread, this`got, this`readers, this`writers
      ensures Valid() && WritersCalm()
      ensures (View(), a) == Next(old(View()), Read(pid, n, room, killed))
    {
      var dst, lost, r := ReadTurn(pid, n, room, killed);
      a := Delivered(dst, lost, r);
      Cuts(put, old(got), got, dst, lost);
      ReadIs(old(View()), View(), pid, n, room, killed, dst, lost, r);
    }

    /** Any turn is the queue's. */
    method Do(act: Act) returns (a: Answer)
      requires Valid() && WritersCalm() && IsAct(act)
      modifies this, data
      ensures Valid() && WritersCalm() && data == old(data)
      ensures (View(), a) == Next(old(View()), act)
    {
      match act
      case Write(pid, src, i, n, death) =>
        a := DoWrite(pid, src, i, n, death);
      case Read(pid, n, room, killed) =>
        a := DoRead(pid, n, room, killed);
      case Shut(writable) =>
        var gone := Close(writable);
        a := Closed(gone);
    }
  }

  /** The bytes that an answer put into the queue, and those it took out. */
  function In(a: Answer): seq<int> {
    if a.Wrote? then a.bytes else []
  }

  function Out(a: Answer): seq<int> {
    if a.Delivered? then a.bytes + a.lost else []
  }

  function Inserted(res: seq<Answer>): seq<int> {
    if res == [] then [] else In(res[0]) + Inserted(res[1..])
  }

  function Removed(res: seq<Answer>): seq<int> {
    if res == [] then [] else Out(res[0]) + Removed(res[1..])
  }

  lemma Cut(s: seq<int>, k: nat, g: nat)
    requires k <= g <= |s|
    ensures s == (s[..k] + s[k..g]) + s[g..]
  {
  }

  lemma ReadConserves(q: Queue, pid: nat, n: int, room: nat, killed: bool)
    ensures var (q', a) := ReadNext(q, pid, n, room, killed);
            |q'.bytes| <= |q.bytes| && q.bytes == Out(a) + q'.bytes
  {
    if q.bytes != [] || !q.writeopen {
      var k := Least(n, room, |q.bytes|);
      Cut(q.bytes, k, if room < n && room < |q.bytes| then k + 1 else k);
    } else {
      assert [] + q.bytes == q.bytes;
    }
  }

  /** One turn neither makes nor drops a byte. */
  lemma Conserved(q: Queue, act: Act)
    requires |q.bytes| <= PIPESIZE && IsAct(act)
    ensures var (q', a) := Next(q, act); |q'.bytes| <= PIPESIZE && q.bytes + In(a) == Out(a) + q'.bytes
  {
    if act.Read? {
      ReadConserves(q, act.pid, act.n, act.room, act.killed);
    }
  }

  /** A queue: bytes come out in the order they went in.  What leaves is what is delivered and the byte
      lost at each failed copy; at most PIPESIZE bytes are inside. */
  lemma {:induction false} FirstInFirstOut(q: Queue, acts: seq<Act>)
    requires |q.bytes| <= PIPESIZE && forall t :: 0 <= t < |acts| ==> IsAct(acts[t])
    ensures q.bytes + Inserted(Answers(q, acts)) == Removed(Answers(q, acts)) + Final(q, acts).bytes
    ensures |Final(q, acts).bytes| <= PIPESIZE
    decreases |acts|
  {
    if acts != [] {
      Conserved(q, acts[0]);
      var q', a := Next(q, acts[0]).0, Next(q, acts[0]).1;
      var rest, c := Answers(q', acts[1..]), Final(q', acts[1..]).bytes;
      FirstInFirstOut(q', acts[1..]);
      assert Answers(q, acts)[0] == a && Answers(q, acts)[1..] == rest;
      Compose(q.bytes, In(a), Out(a), q'.bytes, Inserted(rest), Removed(rest), c);
    }
  }

  /** Nobody sleeps on a pipe that could serve it. */
  predicate Calm(q: Queue) {
    && (q.readers != {} ==> q.bytes == [] && q.writeopen)
    && (q.writers != {} ==> |q.bytes| == PIPESIZE && q.readopen)
  }

  /** The writer is not killed with bytes inserted and more to come. */
  predicate Lives(act: Act) {
    act.Write? ==> act.death == 0 || act.death > PIPESIZE || act.i + act.death > |act.src| || act.i + act.death >= act.n
  }

  /** As long as no writer is killed halfway, no turn leaves a reader or a writer stranded. */
  lemma {:induction false} NobodyStranded(q: Queue, acts: seq<Act>)
    requires |q.bytes| <= PIPESIZE && forall t :: 0 <= t < |acts| ==> IsAct(acts[t])
    requires Calm(q) && forall t :: 0 <= t < |acts| ==> Lives(acts[t])
    ensures Calm(Final(q, acts))
    decreases |acts|
  {
    if acts != [] {
      NobodyStranded(Next(q, acts[0]).0, acts[1..]);
    }
  }

  /** Any turns of readers and writers on a new pipe, however often the counters wrap, are answered as
      the queue answers them. */
  method Run(acts: seq<Act>) returns (res: seq<Answer>)
    requires forall t :: 0 <= t < |acts| ==> IsAct(acts[t])
    ensures res == Answers(Empty(), acts)
    ensures Removed(res) <= Inserted(res) && |Inserted(res)| <= |Removed(res)| + PIPESIZE
  {
    var pipe := new Pipe();
    res := [];
    ghost var q := Empty();
    assert pipe.View() == q && acts[0..] == acts;
    for t := 0 to |acts|
      invariant fresh(pipe) && fresh(pipe.data) && pipe.Valid() && pipe.WritersCalm() && pipe.View() == q
      invariant Answers(Empty(), acts) == res + Answers(q, acts[t..])
    {
      assert acts[t..][0] == acts[t] && acts[t..][1..] == acts[t + 1..];
      var a := pipe.Do(acts[t]);
      res := res + [a];
      q := pipe.View();
    }
    FirstInFirstOut(Empty(), acts);
    assert Empty().bytes + Inserted(res) == Inserted(res);
  }

  /** A writer that dies after its first byte leaves a reader asleep on a pipe that is not empty. */
  method StrandedReader() returns (pipe: Pipe)
    ensures fresh(pipe) && pipe.Valid() && 1 in pipe.readers && pipe.got < |pipe.put|
  {
    pipe := new Pipe();
    var dst, lost, r := pipe.ReadTurn(1, 1, 1, false);
    var i, w := pipe.WriteTurn(2, [7, 8], 0, 2, 1);
  }

  /** A reader whose buffer cannot be written loses a byte: it is delivered to nobody. */
  method LostByte() returns (res: seq<Answer>)
    ensures Inserted(res) == Removed(res) == [7] && |res| == 2 && res[1] == Delivered([], [7], Returned(0))
    ensures res == Answers(Empty(), [Write(1, [7], 0, 1, 1), Read(2, 1, 0, false)])
  {
    ghost var write, read := Write(1, [7], 0, 1, 1), Read(2, 1, 0, false);
    res := Run([Write(1, [7], 0, 1, 1), Read(2, 1, 0, false)]);
    assert [write, read][1..] == [read] && [read][1..] == [];
    var q := Next(Empty(), write).0;
    assert q.bytes == [7] && q.bytes[0..1] == [7] && q.bytes[1..] == [];
    assert Answers(q, [read]) == [Delivered([], [7], Returned(0))];
    assert res == [Wrote([7], Returned(1)), Delivered([], [7], Returned(0))];
    assert res[1..] == [Delivered([], [7], Returned(0))] && res[1..][1..] == [];
    assert Inserted(res[1..]) == [] && Removed(res[1..]) == [7];
  }
}
