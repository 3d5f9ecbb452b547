/** kernel/log.c as an object: the in-memory log header, the operation counters and the loops that
    write the disk block by block.  Every block write is recorded in `trace`, so a contract can speak
    of the disk image a crash would leave behind at any moment. */
module LogDriver {
  import opened LogFormat

  /** The block list after log_write(b): absorbed if already there. */
  function Logged(h: seq<int>, b: int): (r: seq<int>) {
    if b in h then h else h + [b]
  }

  /** The home contents m overlaid with the buffers the log has pinned. */
  ghost function Overlay(m: Disk, pinned: map<int, Block>): (r: Disk)
    ensures |r| == |m|
    ensures forall b :: 0 <= b < |m| ==> r[b] == if b in pinned then pinned[b] else m[b]
  {
    seq(|m|, b requires 0 <= b < |m| => if b in pinned then pinned[b] else m[b])
  }

  ghost predicate PinnedList(l: Layout, h: seq<int>, p: map<int, Block>) {
    && LogList(l, h)
    && (forall b :: b in p <==> b in h)
    && forall b :: b in p ==> |p[b]| == l.words
  }

  lemma NoneListed(p: map<int, Block>, h: seq<int>)
    requires h == [] && forall b :: b in p ==> b in h
    ensures p == map[]
  {
    assert forall b :: b !in p;
  }

  /** The pinned blocks are among those from entry tail on. */
  ghost predicate ListedFrom(p: map<int, Block>, h: seq<int>, tail: nat) {
    tail <= |h| && forall b :: b in p ==> b in h[tail..]
  }

  lemma Unpinned(p: map<int, Block>, h: seq<int>, tail: nat)
    requires tail < |h| && ListedFrom(p, h, tail)
    ensures ListedFrom(p - {h[tail]}, h, tail + 1)
  {
    assert h[tail..] == [h[tail]] + h[tail + 1..];
  }

  ghost function Image(t: seq<Disk>, i: nat): Disk
    requires i < |t|
  {
    t[i]
  }

  /** Every disk image in t recovers to m. */
  ghost predicate AllDurable(l: Layout, t: seq<Disk>, m: Disk)
    requires ValidLayout(l)
  {
    forall i: nat {:trigger Image(t, i)} :: i < |t| ==> Durable(l, Image(t, i), m)
  }

  lemma AllDurableConcat(l: Layout, s: seq<Disk>, t: seq<Disk>, m: Disk)
    requires ValidLayout(l) && AllDurable(l, s, m) && AllDurable(l, t, m)
    ensures AllDurable(l, s + t, m)
  {
    forall i: nat | i < |s + t| ensures Durable(l, Image(s + t, i), m) {
      if i < |s| {
        assert Image(s + t, i) == Image(s, i);
      } else {
        assert Image(s + t, i) == Image(t, i - |s|);
      }
    }
  }

  lemma AllDurableSnoc(l: Layout, t: seq<Disk>, d: Disk, m: Disk)
    requires ValidLayout(l) && AllDurable(l, t, m) && Durable(l, d, m)
    ensures AllDurable(l, t + [d], m)
  {
    forall i: nat | i < |t + [d]| ensures Durable(l, Image(t + [d], i), m) {
      if i < |t| {
        assert Image(t + [d], i) == Image(t, i);
      } else {
        assert Image(t + [d], i) == d;
      }
    }
  }

  class Log {
    const l: Layout
    var disk: Disk
    var n: nat                    // lh.n
    var block: array<int>         // lh.block
    var outstanding: int
    var committing: bool
    var pinned: map<int, Block>   // cached buffers holding logged, not yet installed data
    ghost var trace: seq<Disk>

    ghost predicate Valid()
      reads this, block
    {
      && ValidLayout(l)
      && IsDisk(l, disk)
      && block.Length == l.logSize
      && n <= l.logSize
      && |trace| > 0 && trace[|trace| - 1] == disk
    }

    /** The in-memory header's block list. */
    ghost function Lh(): seq<int>
      reads this`n, this`block, block
      requires n <= block.Length
    {
      block[..n]
    }

    /** The header lists exactly the pinned buffers. */
    ghost predicate Pinned()
      reads this`n, this`block, this`pinned, block
    {
      && n <= block.Length
      && PinnedList(l, Lh(), pinned)
    }

    /** initlog: recovery runs before anything else. */
    constructor (l: Layout, disk: Disk, ghost m: Disk)
      requires ValidLayout(l) && Durable(l, disk, m)
      ensures this.l == l && Valid() && Pinned() && n == 0 && outstanding == 0 && !committing
      ensures Clean(l, this.disk, m)
      ensures AllDurable(l, trace, m)
      ensures fresh(block)
    {
      this.l := l;
      this.disk := disk;
      n, outstanding, committing, pinned := 0, 0, false, map[];
      block := new int[l.logSize];
      trace := [disk];
      new;
      assert AllDurable(l, [], m);
      AllDurableSnoc(l, [], disk, m);
      ghost var writes := RecoverFromLog(m);
      AllDurableConcat(l, [disk], writes, m);
    }

    method Bwrite(b: int, data: Block)
      requires Valid() && 0 <= b < l.blocks && |data| == l.words
      modifies this`disk, this`trace
      ensures Valid()
      ensures disk == old(disk)[b := data]
      ensures trace == old(trace) + [disk]
    {
      disk := disk[b := data];
      trace := trace + [disk];
    }

    /** What bread returns: the pinned buffer if there is one. */
    function Bread(b: int): (data: Block)
      reads this
      requires 0 <= b < |disk|
    {
      if b in pinned then pinned[b] else disk[b]
    }

    method ReadHead()
      requires Valid() && 0 <= disk[l.start][0] <= l.logSize
      modifies this`n, block
      ensures Valid() && Lh() == Head(l, disk)
    {
      n := disk[l.start][0];
      var i := 0;
      while i < n
        invariant 0 <= i <= n == disk[l.start][0]
        invariant block[..i] == disk[l.start][1..1 + i]
      {
        block[i] := disk[l.start][1 + i];
        i := i + 1;
      }
    }

    method WriteHead()
      requires Valid()
      modifies this`disk, this`trace
      ensures Valid()
      ensures disk == old(disk)[l.start := SetHead(old(disk)[l.start], Lh())]
      ensures trace == old(trace) + [disk]
    {
      var hb := disk[l.start];
      hb := hb[0 := n];
      var i := 0;
      while i < n
        invariant 0 <= i <= n
        invariant |hb| == l.words
        invariant hb == [n] + block[..i] + disk[l.start][1 + i..]
      {
        hb := hb[1 + i := block[i]];
        i := i + 1;
      }
      Bwrite(l.start, hb);
    }

    /** The body of install_trans's loop. */
    method InstallOne(tail: nat, recovering: bool, ghost m: Disk)
      requires Valid() && Durable(l, disk, m) && Lh() == Head(l, disk)
      requires tail < n && Installed(l, disk, tail)
      requires ListedFrom(pinned, Lh(), tail) && (recovering ==> pinned == map[])
      modifies this`disk, this`trace, this`pinned
      ensures Valid() && Durable(l, disk, m) && Lh() == Head(l, disk)
      ensures Installed(l, disk, tail + 1)
      ensures pinned == (if recovering then old(pinned) else old(pinned) - {block[tail]})
      ensures ListedFrom(pinned, Lh(), tail + 1)
      ensures trace == old(trace) + [disk]
    {
      ghost var h := Lh();
      assert block[tail] == h[tail];
      LogSlotsUnpinned(h, tail);
      Unpinned(pinned, h, tail);
      InstallKeeps(l, disk, m, tail);
      var lbuf := Bread(l.start + tail + 1);
      Bwrite(block[tail], lbuf);
      if !recovering {
        pinned := pinned - {block[tail]};
      }
    }

    /** Copies the committed blocks home.  Any prefix of its writes recovers to the same contents. */
    method InstallTrans(recovering: bool, ghost m: Disk) returns (ghost writes: seq<Disk>)
      requires Valid() && Durable(l, disk, m) && Lh() == Head(l, disk)
      requires if recovering then pinned == map[] else Pinned()
      modifies this`disk, this`trace, this`pinned
      ensures Valid() && Durable(l, disk, m) && Lh() == Head(l, disk)
      ensures Installed(l, disk, n) && pinned == map[]
      ensures trace == old(trace) + writes && |writes| == n && AllDurable(l, writes, m)
    {
      writes := [];
      ghost var h := Lh();
      var tail := 0;
      while tail < n
        invariant 0 <= tail <= n
        invariant Valid() && Durable(l, disk, m) && h == Head(l, disk)
        invariant Installed(l, disk, tail)
        invariant recovering ==> pinned == map[]
        invariant h == Lh() && ListedFrom(pinned, h, tail)
        invariant trace == old(trace) + writes && |writes| == tail && AllDurable(l, writes, m)
      {
        InstallOne(tail, recovering, m);
        AllDurableSnoc(l, writes, disk, m);
        writes := writes + [disk];
        tail := tail + 1;
      }
      NoneListed(pinned, h[tail..]);
    }

    /** Blocks of the log region are never pinned. */
    lemma LogSlotsUnpinned(h: seq<int>, tail: nat)
      requires ValidLayout(l) && LogList(l, h) && tail < |h|
      requires ListedFrom(pinned, h, tail)
      ensures l.start + tail + 1 !in pinned
    {
    }

    /** The tail common to commit and recovery: install, then erase the transaction from the log. */
    method InstallAndClear(recovering: bool, ghost m: Disk) returns (ghost writes: seq<Disk>)
      requires Valid() && Durable(l, disk, m) && Lh() == Head(l, disk)
      requires if recovering then pinned == map[] else Pinned()
      modifies this`disk, this`trace, this`pinned, this`n
      ensures Valid() && Pinned() && n == 0 && pinned == map[]
      ensures Clean(l, disk, m)
      ensures trace == old(trace) + writes && |writes| == old(n) + 1 && AllDurable(l, writes, m)
    {
      writes := InstallTrans(recovering, m);
      ClearKeeps(l, disk, m);
      n := 0;
      assert Lh() == [];
      WriteHead();
      AllDurableSnoc(l, writes, disk, m);
      writes := writes + [disk];
    }

    /** Recovery: whatever write it is interrupted at, the disk still recovers to the same contents;
        run to the end, it leaves those contents in place and an empty log. */
    method RecoverFromLog(ghost m: Disk) returns (ghost writes: seq<Disk>)
      requires Valid() && Durable(l, disk, m) && pinned == map[]
      modifies this`disk, this`trace, this`pinned, this`n, block
      ensures Valid() && Pinned() && n == 0
      ensures Clean(l, disk, m)
      ensures trace == old(trace) + writes && |writes| == |Head(l, old(disk))| + 1
      ensures AllDurable(l, writes, m)
    {
      ReadHead();
      writes := InstallAndClear(true, m);
    }

    /** Copies the pinned buffers to the log slots; the disk still recovers to the old contents. */
    method WriteLog(ghost m: Disk) returns (ghost writes: seq<Disk>)
      requires Valid() && Pinned() && Clean(l, disk, m)
      modifies this`disk, this`trace
      ensures Valid() && Clean(l, disk, m)
      ensures forall i :: 0 <= i < n ==> block[i] in pinned && disk[l.start + 1 + i] == pinned[block[i]]
      ensures trace == old(trace) + writes && |writes| == n && AllDurable(l, writes, m)
    {
      writes := [];
      var tail := 0;
      while tail < n
        invariant 0 <= tail <= n
        invariant Valid() && Clean(l, disk, m)
        invariant forall i :: 0 <= i < tail ==> block[i] in pinned && disk[l.start + 1 + i] == pinned[block[i]]
        invariant trace == old(trace) + writes && |writes| == tail && AllDurable(l, writes, m)
      {
        assert Lh()[tail] == block[tail];
        var from := Bread(block[tail]);
        Bwrite(l.start + tail + 1, from);
        CleanIsDurable(l, disk, m);
        AllDurableSnoc(l, writes, disk, m);
        writes := writes + [disk];
        tail := tail + 1;
      }
    }

    /** The commit point: one write after which the disk recovers to the overlaid contents. */
    method Publish(ghost m: Disk)
      requires Valid() && Pinned() && Clean(l, disk, m)
      requires forall i :: 0 <= i < n ==> block[i] in pinned && disk[l.start + 1 + i] == pinned[block[i]]
      modifies this`disk, this`trace
      ensures Valid() && Durable(l, disk, Overlay(m, pinned)) && Lh() == Head(l, disk)
      ensures trace == old(trace) + [disk]
    {
      CommitPoint(l, disk, Lh(), Overlay(m, pinned));
      WriteHead();
    }

    method PublishAndInstall(ghost m: Disk) returns (ghost after: seq<Disk>)
      requires Valid() && Pinned() && Clean(l, disk, m)
      requires forall i :: 0 <= i < n ==> block[i] in pinned && disk[l.start + 1 + i] == pinned[block[i]]
      modifies this`disk, this`trace, this`pinned, this`n
      ensures Valid() && Pinned() && n == 0 && Clean(l, disk, Overlay(m, old(pinned)))
      ensures trace == old(trace) + after && |after| == old(n) + 2
      ensures AllDurable(l, after, Overlay(m, old(pinned)))
    {
      ghost var m' := Overlay(m, pinned);
      Publish(m);
      ghost var first := [] + [disk];
      AllDurableSnoc(l, [], disk, m');
      after := InstallAndClear(false, m');
      AllDurableConcat(l, first, after, m');
      after := first + after;
    }

    /** Commit is atomic against crashes: there is one write before which every disk image recovers
        to the old contents and from which on every image recovers to the old contents overlaid with
        all pinned buffers. */
    method Commit(ghost m: Disk) returns (ghost before: seq<Disk>, ghost after: seq<Disk>)
      requires Valid() && Pinned() && Clean(l, disk, m) && committing
      modifies this`disk, this`trace, this`pinned, this`n
      ensures Valid() && Pinned() && n == 0
      ensures Clean(l, disk, Overlay(m, old(pinned)))
      ensures trace == old(trace) + before + after
      ensures old(n) > 0 ==> |before| == old(n) && |after| == old(n) + 2
      ensures AllDurable(l, before, m) && AllDurable(l, after, Overlay(m, old(pinned)))
    {
      before, after := [], [];
      if n > 0 {
        before := WriteLog(m);
        after := PublishAndInstall(m);
      } else {
        NoneListed(pinned, Lh());
      }
    }

    /** One pass of the waiting loop in begin_op: admitted, or must sleep. */
    method BeginOp() returns (admitted: bool)
      modifies this`outstanding
      ensures admitted <==> !committing && n + (old(outstanding) + 1) * l.maxOp <= l.logSize
      ensures outstanding == old(outstanding) + (if admitted then 1 else 0)
    {
      if committing {
        admitted := false;
      } else if n + (outstanding + 1) * l.maxOp > l.logSize {
        admitted := false;
      } else {
        outstanding := outstanding + 1;
        admitted := true;
      }
    }

    /** log_write of a buffer holding data for block b; true means panic. */
    method LogWrite(b: int, data: Block) returns (panic: bool)
      requires Valid() && Pinned() && Home(l, b) && |data| == l.words
      modifies this`n, this`pinned, block
      ensures Valid() && Pinned()
      ensures panic <==> old(n) >= l.logSize || old(n) >= l.size - 1 || outstanding < 1
      ensures panic ==> n == old(n) && Lh() == old(Lh()) && pinned == old(pinned)
      ensures !panic ==> Lh() == Logged(old(Lh()), b) && pinned == old(pinned)[b := data]
    {
      if n >= l.logSize || n >= l.size - 1 {
        return true;
      }
      if outstanding < 1 {
        return true;
      }
      ghost var h := Lh();
      var i := 0;
      while i < n
        invariant 0 <= i <= n
        invariant forall j :: 0 <= j < i ==> block[j] != b
      {
        if block[i] == b {
          break;
        }
        i := i + 1;
      }
      block[i] := b;
      pinned := pinned[b := data];  // the caller's buffer; bpin keeps it cached
      if i == n {
        n := n + 1;
        assert Lh() == h + [b];
        assert forall j :: 0 <= j < |h| ==> block[j] == h[j];
        assert b !in h;
      } else {
        assert Lh() == h;
        assert b == h[i];
      }
      panic := false;
    }

    /** end_op; the last operation commits the group. */
    method EndOp(ghost m: Disk) returns (panic: bool, ghost before: seq<Disk>, ghost after: seq<Disk>)
      requires Valid() && Pinned() && Clean(l, disk, m)
      modifies this`outstanding, this`committing, this`disk, this`trace, this`pinned, this`n
      ensures Valid() && Pinned()
      ensures panic <==> old(committing)
      ensures outstanding == old(outstanding) - 1
      ensures !panic ==> !committing
      ensures trace == old(trace) + before + after
      ensures panic || old(outstanding) != 1 ==>
                before == after == [] && pinned == old(pinned) && n == old(n) && disk == old(disk)
      ensures !panic && old(outstanding) == 1 ==>
                && n == 0 && Clean(l, disk, Overlay(m, old(pinned)))
                && AllDurable(l, before, m) && AllDurable(l, after, Overlay(m, old(pinned)))
    {
      before, after := [], [];
      var doCommit := false;
      outstanding := outstanding - 1;
      if committing {
        return true, before, after;
      }
      if outstanding == 0 {
        doCommit := true;
        committing := true;
      }
      if doCommit {
        before, after := Commit(m);
        committing := false;
      }
      panic := false;
    }
  }
}
