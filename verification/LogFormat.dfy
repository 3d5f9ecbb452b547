/** The on-disk redo log of kernel/log.c: a header block naming the logged blocks, followed by
    one copy of each.  This module says what a disk image means, namely what the home blocks hold
    once recovery has run, and how each kind of block write changes that meaning. */
module LogFormat {

  /** A block is a sequence of 32-bit words; the header block is read as n, block[0], block[1], ... */
  type Block = seq<int>
  type Disk = seq<Block>

  /** The superblock's log region, and LOGSIZE, MAXOPBLOCKS and BSIZE (in words) as parameters. */
  datatype Layout = Layout(start: nat, size: nat, logSize: nat, maxOp: nat, words: nat, blocks: nat)

  ghost predicate ValidLayout(l: Layout) {
    && 1 <= l.size
    && l.start + l.size <= l.blocks
    && 1 + l.logSize < l.words  // initlog panics otherwise
  }

  ghost predicate IsDisk(l: Layout, d: Disk) {
    && |d| == l.blocks
    && forall i :: 0 <= i < |d| ==> |d[i]| == l.words
  }

  /** A block outside the log region. */
  ghost predicate Home(l: Layout, b: int) {
    0 <= b < l.blocks && !(l.start <= b < l.start + l.size)
  }

  ghost predicate Distinct(h: seq<int>) {
    forall i, j :: 0 <= i < j < |h| ==> h[i] != h[j]
  }

  /** A list of block numbers a transaction may log. */
  ghost predicate LogList(l: Layout, h: seq<int>) {
    && |h| <= l.logSize
    && |h| < l.size
    && Distinct(h)
    && forall i :: 0 <= i < |h| ==> Home(l, h[i])
  }

  /** The header's block list, as read_head reads it. */
  ghost function Head(l: Layout, d: Disk): seq<int>
    requires ValidLayout(l) && IsDisk(l, d)
  {
    var n := d[l.start][0];
    if 0 <= n <= l.logSize then d[l.start][1..1 + n] else []
  }

  ghost predicate HeadOk(l: Layout, d: Disk)
    requires ValidLayout(l)
  {
    && IsDisk(l, d)
    && 0 <= d[l.start][0] <= l.logSize
    && LogList(l, Head(l, d))
  }

  /** The header block after write_head: stale entries beyond n stay. */
  function SetHead(b: Block, h: seq<int>): (r: Block)
    requires |h| < |b|
    ensures |r| == |b| && r[0] == |h| && r[1..1 + |h|] == h
    ensures forall i :: 1 + |h| <= i < |b| ==> r[i] == b[i]
  {
    [|h|] + h + b[1 + |h|..]
  }

  /** d recovers to the home contents m: a logged block from its copy in the log, any other from
      its home location. */
  ghost predicate Durable(l: Layout, d: Disk, m: Disk)
    requires ValidLayout(l)
  {
    && HeadOk(l, d)
    && |m| == l.blocks
    && (forall i :: 0 <= i < |Head(l, d)| ==> Home(l, Head(l, d)[i]) && m[Head(l, d)[i]] == d[l.start + 1 + i])
    && (forall b {:trigger Home(l, b)} :: Home(l, b) && b !in Head(l, d) ==> m[b] == d[b])
  }

  /** No committed transaction is pending and the home blocks themselves hold m. */
  ghost predicate Clean(l: Layout, d: Disk, m: Disk)
    requires ValidLayout(l)
  {
    && IsDisk(l, d)
    && d[l.start][0] == 0
    && |m| == l.blocks
    && forall b {:trigger Home(l, b)} :: Home(l, b) ==> d[b] == m[b]
  }

  lemma CleanIsDurable(l: Layout, d: Disk, m: Disk)
    requires ValidLayout(l)
    ensures Clean(l, d, m) <==> Durable(l, d, m) && Head(l, d) == []
  {
    if HeadOk(l, d) {
      assert |Head(l, d)| == d[l.start][0];
    }
  }

  /** A write to a log slot beyond the committed list changes nothing. */
  lemma LogSlotWriteKeeps(l: Layout, d: Disk, m: Disk, k: nat, data: Block)
    requires ValidLayout(l) && Durable(l, d, m)
    requires |Head(l, d)| <= k && k + 1 < l.size && |data| == l.words
    ensures Durable(l, d[l.start + 1 + k := data], m)
    ensures Head(l, d[l.start + 1 + k := data]) == Head(l, d)
  {
    assert d[l.start + 1 + k := data][l.start] == d[l.start];
  }

  /** Writing the header is the commit point: the logged copies take effect all at once. */
  lemma CommitPoint(l: Layout, d: Disk, h: seq<int>, m: Disk)
    requires ValidLayout(l) && IsDisk(l, d) && LogList(l, h) && |m| == l.blocks
    requires forall i :: 0 <= i < |h| ==> d[l.start + 1 + i] == m[h[i]]
    requires forall b :: Home(l, b) && b !in h ==> d[b] == m[b]
    ensures Durable(l, d[l.start := SetHead(d[l.start], h)], m)
    ensures Head(l, d[l.start := SetHead(d[l.start], h)]) == h
  {
    assert Head(l, d[l.start := SetHead(d[l.start], h)]) == h;
  }

  /** The first k logged blocks have been copied home. */
  ghost predicate Installed(l: Layout, d: Disk, k: nat)
    requires ValidLayout(l) && HeadOk(l, d) && k <= |Head(l, d)|
  {
    forall i :: 0 <= i < k ==> Home(l, Head(l, d)[i]) && d[Head(l, d)[i]] == d[l.start + 1 + i]
  }

  /** Copying a committed log slot to its home block changes nothing. */
  lemma InstallKeeps(l: Layout, d: Disk, m: Disk, k: nat)
    requires ValidLayout(l) && Durable(l, d, m) && k < |Head(l, d)| && Installed(l, d, k)
    ensures Durable(l, d[Head(l, d)[k] := d[l.start + 1 + k]], m)
    ensures Head(l, d[Head(l, d)[k] := d[l.start + 1 + k]]) == Head(l, d)
    ensures Installed(l, d[Head(l, d)[k] := d[l.start + 1 + k]], k + 1)
  {
    assert Home(l, Head(l, d)[k]);
    assert d[Head(l, d)[k] := d[l.start + 1 + k]][l.start] == d[l.start];
  }

  /** Once everything is installed, clearing the header changes nothing and leaves the disk clean. */
  lemma ClearKeeps(l: Layout, d: Disk, m: Disk)
    requires ValidLayout(l) && Durable(l, d, m) && Installed(l, d, |Head(l, d)|)
    ensures Clean(l, d[l.start := SetHead(d[l.start], [])], m)
    ensures Durable(l, d[l.start := SetHead(d[l.start], [])], m)
  {
    var h := Head(l, d);
    var d' := d[l.start := SetHead(d[l.start], [])];
    forall b | Home(l, b) ensures d'[b] == m[b] {
      if b in h {
        var i :| 0 <= i < |h| && h[i] == b;
        assert m[Head(l, d)[i]] == d[l.start + 1 + i];
      }
    }
    CleanIsDurable(l, d', m);
  }
}
