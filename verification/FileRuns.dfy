/** filewrite of kernel/file.c, and whole sequences of file operations. */
module FileRuns {
  import opened FsState
  import opened FileSystem
  import opened FileWrites
  import opened Words

  lemma OverwriteTwice(c: seq<int>, off: nat, a: seq<int>, b: seq<int>)
    requires off <= |c|
    ensures |Overwrite(c, off, a)| >= off + |a|
    ensures Overwrite(Overwrite(c, off, a), off + |a|, b) == Overwrite(c, off, a + b)
  {
    var l, r := Overwrite(Overwrite(c, off, a), off + |a|, b), Overwrite(c, off, a + b);
    assert |l| == |r|;
    assert forall p: nat :: p < |l| ==> l[p] == r[p];
  }

  lemma OverwriteNone(c: seq<int>, off: nat)
    requires off <= |c|
    ensures Overwrite(c, off, []) == c
  {
  }

  lemma WrittenAfter(c: seq<int>, off: nat, a: seq<int>, b: seq<int>, r: nat)
    requires off <= |c| && r <= |b|
    ensures |Overwrite(c, off, a)| >= off + |a|
    ensures Written(Overwrite(c, off, a), off + |a|, b, r) == Written(c, off, a + b, |a| + r)
  {
    OverwriteTwice(c, off, a, b);
  }

  lemma AllWritten(c: seq<int>, off: nat, w: seq<int>)
    requires off <= |c|
    ensures Written(c, off, w, |w|) == Overwrite(c, off, w)
  {
  }

  /** The number of bytes writei counts when the user copy fails past `avail`: those of the blocks before
      the one with the first byte that cannot be read. */
  function Chunks(off: nat, n: nat, avail: nat): (r: nat)
    ensures r <= n && r <= avail
  {
    var e := (off + avail) / BSIZE * BSIZE;
    if n <= avail then n else if e > off then e - off else 0
  }

  lemma StopsAt(off: nat, n: nat, avail: nat, r: nat)
    requires Stops(off, n, avail, r)
    ensures r == Chunks(off, n, avail)
  {
    if r < n {
      SameBlock(off + r, off + avail, Min(n - r, BSIZE - (off + r) % BSIZE));
      var q := (off + r) / BSIZE;
      assert off + r == q * BSIZE + (off + r) % BSIZE;
    }
  }

  /** The most filewrite writes in one transaction: three blocks. */
  const MAXWRITE: nat := 3072

  /** The bytes of the transactions that do not pass the largest size, of n bytes at off. */
  function Asked(off: nat, n: int): nat {
    if n <= 0 || off > MAXFILE * BSIZE then 0
    else if off + n <= MAXFILE * BSIZE then n
    else (MAXFILE * BSIZE - off) / MAXWRITE * MAXWRITE
  }

  /** The bytes filewrite counts when it asks for n and `avail` can be read: those of the complete
      transactions, and of the complete blocks of the next. */
  function Moved(off: nat, n: nat, avail: nat): (r: nat)
    ensures r <= avail && r <= n
  {
    if n <= avail then n
    else
      var k, e := avail / MAXWRITE * MAXWRITE, Chunks(off, n, avail);
      if k > e then k else e
  }

  /** The free blocks of g do not suffice for a filewrite of n bytes at off, of which `avail` can be read. */
  ghost predicate NoSpace(sb: Super, g: Snap, i: nat, off: nat, n: int, avail: nat)
    requires i < |g.ino| && IsInode(g.ino[i])
  {
    off <= g.ino[i].size && CannotFit(sb, g, i, off, Asked(off, n), avail)
  }

  /** What filewrite makes of the files, with k bytes counted. */
  ghost predicate Outcome(files0: seq<seq<int>>, files: seq<seq<int>>, i: nat, off: nat, n: int, src: seq<int>, k: nat)
    requires i < |files0|
  {
    if off > |files0[i]| then k == 0 && files == files0
    else
      var m := Asked(off, n);
      && k == Moved(off, m, |src|)
      && files == files0[i := Written(files0[i], off, src[..Min(m, |src|)], k)]
  }

  /** All n bytes are within the largest size and can be read. */
  predicate Complete(size: nat, off: nat, n: int, avail: nat) {
    n == 0 || (n > 0 && off <= size && off + n <= MAXFILE * BSIZE && n <= avail)
  }

  /** From f to f' one writei call for n1 bytes. */
  ghost predicate WroteNext(f: seq<seq<int>>, f': seq<seq<int>>, i: nat, off: nat, n1: nat, src: seq<int>) {
    && i < |f| && off <= |f[i]|
    && f' == f[i := Written(f[i], off, src[..Min(n1, |src|)], Chunks(off, n1, |src|))]
  }

  /** From g to g' the blocks under n bytes at off were mapped, as far as these can be read. */
  ghost predicate MapsAll(sb: Super, g: Snap, g': Snap, i: nat, off: nat, n: nat, avail: nat) {
    Reached(sb, g, g', i, off / BSIZE, Rounds(off, n, avail))
  }

  /** From g to g' one transaction with one writei call of n bytes at off: its bytes are in the file, its blocks
      are mapped, and at most MAXOPBLOCKS blocks are logged. */
  ghost predicate OneWrite(sb: Super, g: Snap, g': Snap, i: nat, off: nat, n: nat, src: seq<int>) {
    && AreInodes(g.ino) && AreInodes(g'.ino) && i < |g.ino| == |g'.ino| && |g'.logged| <= MAXOPBLOCKS
    && if Refused(g.ino[i].size, off, n) then g' == g.(logged := {})
       else
         && WroteNext(Files(g.d, g.ino), Files(g'.d, g'.ino), i, off, n, src)
         && MapsAll(sb, g, g', i, off, n, |src|)
         && AllLogged(sb, g, g', i, off, n, Chunks(off, n, |src|))
         && exists mapped, w :: LogOfWrite(sb, g.(logged := {}), g', i, off, n, Chunks(off, n, |src|), mapped, w)
  }

  /** The inode is on disk as it is in memory, and all that changed on disk is logged, apart from the block of a
      chunk that failed. */
  ghost predicate AllLogged(sb: Super, g: Snap, g': Snap, i: nat, off: nat, n: nat, r: nat)
    requires AreInodes(g'.ino) && i < |g'.ino|
  {
    && i < |g.dinode| && g'.dinode == g.dinode[i := g'.ino[i]] && InodesLogged(sb, g.dinode, g'.dinode, g'.logged)
    && DiskLogged(sb, g.d, g'.d, g'.logged + Stray(g', i, off, n, r))
  }

  /** A call of writei that is not refused. */
  lemma AsOneWrite(sb: Super, g: Snap, g': Snap, i: nat, off: nat, n: nat, src: seq<int>, r: nat,
                   mapped: seq<nat>, w: nat)
    requires AreInodes(g.ino) && AreInodes(g'.ino) && i < |g.ino| == |g'.ino| && Full(g.d, g.ino[i])
    requires !Refused(g.ino[i].size, off, n) && n <= MAXWRITE && Stops(off, n, |src|, r)
    requires LogOfWrite(sb, g.(logged := {}), g', i, off, n, r, mapped, w)
    requires Reached(sb, g.(logged := {}), g', i, off / BSIZE, Rounds(off, n, |src|))
    requires AllLogged(sb, g, g', i, off, n, r)
    requires var f := Files(g.d, g.ino); Files(g'.d, g'.ino) == f[i := Written(f[i], off, src[..Min(n, |src|)], r)]
    ensures r == Chunks(off, n, |src|) && OneWrite(sb, g, g', i, off, n, src)
  {
    StopsAt(off, n, |src|, r);
    TransactionBound(sb, g.(logged := {}), g', i, off, n, r, mapped, w);
    ReachedFrom(sb, g, g', i, off / BSIZE, Rounds(off, n, |src|));
  }

  lemma ReachedFrom(sb: Super, g: Snap, g': Snap, i: nat, bn0: nat, m: nat)
    requires Reached(sb, g.(logged := {}), g', i, bn0, m)
    ensures Reached(sb, g, g', i, bn0, m)
  {
    forall bn: nat | bn < MAXFILE ensures SetAt(g, g', i, bn0, m, bn) {
      assert SetAt(g.(logged := {}), g', i, bn0, m, bn);
    }
  }

  /** begin_op, writei and end_op. */
  method WriteOp(fs: Fs, i: nat, off: nat, n1: nat, src: seq<int>) returns (r: int, stuck: bool)
    requires fs.Valid() && i < |fs.ino| && off < U32 && n1 <= MAXWRITE
    modifies fs`d, fs`ino, fs`dinode, fs`logged, fs`owner
    ensures stuck <==> !Refused(old(fs.ino)[i].size, off, n1) && CannotFit(fs.sb, old(fs.Now()), i, off, n1, |src|)
    ensures r == if Refused(old(fs.ino)[i].size, off, n1) then -1 else if stuck then r else Chunks(off, n1, |src|)
    ensures !stuck ==> fs.Valid() && OneWrite(fs.sb, old(fs.Now()), fs.Now(), i, off, n1, src)
  {
    fs.logged := {};
    ghost var mapped, w;
    assert Full(fs.d, fs.ino[i]);
    r, stuck, mapped, w := Writei(fs, i, off, n1, src);
    if !stuck && r != -1 {
      AsOneWrite(fs.sb, old(fs.Now()), fs.Now(), i, off, n1, src, r, mapped, w);
    }
  }

  /** Blocks mapped before add nothing to what a write of r blocks from bn1 on needs. */
  lemma {:induction false} NeedSplit(sb: Super, g0: Snap, g: Snap, i: nat, bn0: nat, m: nat, bn1: nat, r: nat,
                                   all: nat)
    requires Reached(sb, g0, g, i, bn0, m)
    requires bn0 <= bn1 <= bn0 + m <= bn1 + r == bn0 + all <= MAXFILE && (m == 0 ==> bn1 == bn0)
    ensures Need(g0.d, g0.ino[i], bn0, all) == Need(g0.d, g0.ino[i], bn0, m) + Need(g.d, g.ino[i], bn1, r)
  {
    if bn1 + r > bn0 + m {
      NeedSplit(sb, g0, g, i, bn0, m, bn1, r - 1, all - 1);
      assert SetAt(g0, g, i, bn0, m, bn1 + r - 1);
    } else {
      NothingMissing(sb, g0, g, i, bn0, m, bn1, r);
    }
  }

  lemma {:induction false} NothingMissing(sb: Super, g0: Snap, g: Snap, i: nat, bn0: nat, m: nat, bn1: nat, r: nat)
    requires Reached(sb, g0, g, i, bn0, m) && bn0 <= bn1 && bn1 + r <= bn0 + m <= MAXFILE
    ensures Need(g.d, g.ino[i], bn1, r) == 0
  {
    if r > 0 {
      NothingMissing(sb, g0, g, i, bn0, m, bn1, r - 1);
      assert SetAt(g0, g, i, bn0, m, bn1 + r - 1);
    }
  }

  lemma ReachedTwice(sb: Super, g0: Snap, g: Snap, g': Snap, i: nat, bn0: nat, m: nat, bn1: nat, r: nat, all: nat)
    requires Reached(sb, g0, g, i, bn0, m) && Reached(sb, g, g', i, bn1, r)
    requires bn0 <= bn1 <= bn0 + m <= bn1 + r == bn0 + all <= MAXFILE && (m == 0 ==> bn1 == bn0)
    ensures Reached(sb, g0, g', i, bn0, all)
  {
    NeedSplit(sb, g0, g, i, bn0, m, bn1, r, all);
    forall bn: nat | bn < MAXFILE ensures SetAt(g0, g', i, bn0, all, bn) {
      assert SetAt(g0, g, i, bn0, m, bn) && SetAt(g, g', i, bn1, r, bn);
    }
  }

  /** The blocks of the first k bytes, then those of the next n1. */
  lemma RoundsAdd(off: nat, k: nat, n1: nat, avail: nat)
    requires k <= avail && n1 > 0 && off + k + n1 <= MAXFILE * BSIZE
    ensures var bn0, m, bn1, r := off / BSIZE, Rounds(off, k, k), (off + k) / BSIZE, Rounds(off + k, n1, avail - k);
            && bn0 <= bn1 <= bn0 + m <= bn1 + r <= MAXFILE && (m == 0 ==> bn1 == bn0)
            && bn1 + r - bn0 == Rounds(off, k + n1, avail)
  {
  }

  /** The transaction after k bytes, at offset `at`, mapped its blocks. */
  lemma ReachedOn(sb: Super, g0: Snap, g: Snap, g': Snap, i: nat, off: nat, k: nat, at: nat, n1: nat, avail: nat,
                  rest: nat, end: nat)
    requires at == off + k && rest == avail - k && end == k + n1 && 0 < n1 && off + end <= MAXFILE * BSIZE
    requires MapsAll(sb, g0, g, i, off, k, k) && MapsAll(sb, g, g', i, at, n1, rest)
    ensures MapsAll(sb, g0, g', i, off, end, avail)
  {
    RoundsAdd(off, k, n1, avail);
    ReachedTwice(sb, g0, g, g', i, off / BSIZE, Rounds(off, k, k), at / BSIZE, Rounds(at, n1, rest),
                 Rounds(off, end, avail));
  }

  /** Where filewrite writes after k bytes, and how much then. */
  function Past(off: nat, k: nat): nat {
    off + k
  }

  function Part(n: int, k: nat): nat
    requires k < n
  {
    Min(n - k, MAXWRITE)
  }

  /** The files after k bytes were written by complete transactions; past the end nothing is. */
  ghost predicate SoFar(f0: seq<seq<int>>, f: seq<seq<int>>, i: nat, off: nat, src: seq<int>, k: nat) {
    && i < |f0| && k <= |src|
    && if off > |f0[i]| then k == 0 && f == f0
       else f == f0[i := Overwrite(f0[i], off, src[..k])] && (k == 0 || off + k <= MAXFILE * BSIZE)
  }

  /** After the complete transactions that wrote k bytes. */
  ghost predicate Midway(sb: Super, g0: Snap, g: Snap, i: nat, off: nat, src: seq<int>, k: nat) {
    && AreInodes(g0.ino) && AreInodes(g.ino) && |g0.ino| == |g.ino|
    && SoFar(Files(g0.d, g0.ino), Files(g.d, g.ino), i, off, src, k) && MapsAll(sb, g0, g, i, off, k, k)
  }

  /** Which transactions are refused: those past the end of the file, and those beyond its largest size. */
  lemma WhenRefused(f0: seq<seq<int>>, f: seq<seq<int>>, i: nat, off: nat, src: seq<int>, k: nat, at: nat,
                    n1: nat)
    requires SoFar(f0, f, i, off, src, k) && at == off + k
    ensures Refused(|f[i]|, at, n1) <==> off > |f0[i]| || at + n1 > MAXFILE * BSIZE
  {
  }

  lemma AskedMore(off: nat, n: int, k: nat, n1: nat, t: nat)
    requires k < n && k == t * MAXWRITE && n1 == Min(n - k, MAXWRITE) && off + k <= MAXFILE * BSIZE
    ensures if off + k + n1 > MAXFILE * BSIZE then Asked(off, n) == k else k + n1 <= Asked(off, n)
  {
    var x := MAXFILE * BSIZE - off;
    if x < n {
      Multiple(x, t);
    }
  }

  lemma Multiple(x: nat, t: nat)
    ensures t * MAXWRITE <= x < t * MAXWRITE + MAXWRITE ==> x / MAXWRITE == t
    ensures t * MAXWRITE + MAXWRITE <= x ==> t * MAXWRITE + MAXWRITE <= x / MAXWRITE * MAXWRITE
  {
    var q := x / MAXWRITE;
    assert q * MAXWRITE <= x < q * MAXWRITE + MAXWRITE;
  }

  lemma MovedShort(off: nat, n: nat, k: nat, n1: nat, avail: nat, t: nat)
    requires k == t * MAXWRITE <= avail < k + n1 <= n && n1 <= MAXWRITE
    ensures Moved(off, n, avail) == k + Chunks(off + k, n1, avail - k)
  {
    Multiple(avail, t);
    var e := (off + avail) / BSIZE * BSIZE;
    assert off + k + (avail - k) == off + avail;
    assert Chunks(off + k, n1, avail - k) == if e > off + k then e - off - k else 0;
  }

  lemma RoundsGrow(off: nat, m: nat, n: nat, avail: nat)
    requires m <= n
    ensures Rounds(off, m, avail) <= Rounds(off, n, avail)
    ensures 0 < m && avail < m ==> Rounds(off, m, avail) == Rounds(off, n, avail)
    ensures m <= avail ==> Rounds(off, m, avail) == Rounds(off, m, m)
  {
  }

  /** What the transaction after k bytes needs adds up with what the first k bytes needed. */
  lemma NeedOn(sb: Super, g0: Snap, g: Snap, i: nat, off: nat, k: nat, at: nat, n1: nat, avail: nat, rest: nat,
               end: nat)
    requires at == off + k && rest == avail - k && end == k + n1 && 0 < n1 && off + end <= MAXFILE * BSIZE
    requires MapsAll(sb, g0, g, i, off, k, k)
    ensures CannotFit(sb, g, i, at, n1, rest) <==> CannotFit(sb, g0, i, off, end, avail)
  {
    RoundsAdd(off, k, n1, avail);
    NeedSplit(sb, g0, g, i, off / BSIZE, Rounds(off, k, k), at / BSIZE, Rounds(at, n1, rest), Rounds(off, end, avail));
  }

  /** The transaction after k bytes finds too few free blocks. */
  lemma SpaceStuck(sb: Super, g0: Snap, g: Snap, i: nat, off: nat, n: int, avail: nat, k: nat, t: nat, at: nat,
                   n1: nat, rest: nat)
    requires k < n && k == t * MAXWRITE && n1 == Part(n, k) && k <= avail && off + k + n1 <= MAXFILE * BSIZE
    requires at == off + k && rest == avail - k
    requires MapsAll(sb, g0, g, i, off, k, k) && off <= g0.ino[i].size && CannotFit(sb, g, i, at, n1, rest)
    ensures NoSpace(sb, g0, i, off, n, avail)
  {
    NeedOn(sb, g0, g, i, off, k, at, n1, avail, rest, k + n1);
    AskedMore(off, n, k, n1, t);
    FitsLess(sb, g0, i, off, k + n1, Asked(off, n), avail);
  }

  lemma FitsLess(sb: Super, g: Snap, i: nat, off: nat, m: nat, n: nat, avail: nat)
    requires i < |g.ino| && IsInode(g.ino[i]) && m <= n && CannotFit(sb, g, i, off, m, avail)
    ensures CannotFit(sb, g, i, off, n, avail)
  {
    RoundsGrow(off, m, n, avail);
    NeedGrows(g.d, g.ino[i], off / BSIZE, Rounds(off, m, avail), Rounds(off, n, avail));
  }

  /** It is complete. */
  lemma SpaceWhole(sb: Super, g0: Snap, g: Snap, g': Snap, i: nat, off: nat, avail: nat, k: nat, at: nat, n1: nat,
                   rest: nat, end: nat)
    requires at == off + k && rest == avail - k && end == k + n1 <= avail && 0 < n1 && off + end <= MAXFILE * BSIZE
    requires MapsAll(sb, g0, g, i, off, k, k) && MapsAll(sb, g, g', i, at, n1, rest)
    ensures MapsAll(sb, g0, g', i, off, end, end)
  {
    ReachedOn(sb, g0, g, g', i, off, k, at, n1, avail, rest, end);
    RoundsGrow(off, end, end, avail);
  }

  /** Its bytes cannot all be read. */
  lemma SpaceShort(sb: Super, g0: Snap, g: Snap, g': Snap, i: nat, off: nat, n: int, avail: nat, k: nat, t: nat,
                   at: nat, n1: nat, rest: nat)
    requires k < n && k == t * MAXWRITE && n1 == Part(n, k) && k <= avail < k + n1 && off + k + n1 <= MAXFILE * BSIZE
    requires at == off + k && rest == avail - k
    requires MapsAll(sb, g0, g, i, off, k, k) && MapsAll(sb, g, g', i, at, n1, rest)
    ensures i < |g0.ino| && IsInode(g0.ino[i]) && !NoSpace(sb, g0, i, off, n, avail)
  {
    ReachedOn(sb, g0, g, g', i, off, k, at, n1, avail, rest, k + n1);
    AskedMore(off, n, k, n1, t);
    RoundsGrow(off, k + n1, Asked(off, n), avail);
  }

  /** It is refused, or all n bytes were written. */
  lemma SpaceEnds(sb: Super, g0: Snap, g: Snap, i: nat, off: nat, n: int, avail: nat, k: nat)
    requires MapsAll(sb, g0, g, i, off, k, k) && k <= avail
    requires off > g0.ino[i].size || Asked(off, n) == k
    ensures !NoSpace(sb, g0, i, off, n, avail)
  {
    RoundsGrow(off, k, k, avail);
  }

  /** The files after k bytes and then m more, of which r count. */
  lemma FilesOn(f0: seq<seq<int>>, f: seq<seq<int>>, f': seq<seq<int>>, i: nat, off: nat, src: seq<int>, k: nat,
                m: nat, r: nat)
    requires i < |f0| && off <= |f0[i]| && k + m <= |src| && r <= m
    requires f == f0[i := Overwrite(f0[i], off, src[..k])]
    requires |f[i]| >= off + k && f' == f[i := Written(f[i], off + k, src[k..][..m], r)]
    ensures f' == f0[i := Written(f0[i], off, src[..k + m], k + r)]
  {
    WrittenAfter(f0[i], off, src[..k], src[k..][..m], r);
    assert src[..k] + src[k..][..m] == src[..k + m];
  }

  lemma FilesWhole(f0: seq<seq<int>>, f: seq<seq<int>>, f': seq<seq<int>>, i: nat, off: nat, src: seq<int>, k: nat,
                   at: nat, n1: nat, end: nat)
    requires SoFar(f0, f, i, off, src, k) && off <= |f0[i]| && off + end <= MAXFILE * BSIZE
    requires at == off + k && end == k + n1 <= |src| && WroteNext(f, f', i, at, n1, src[k..])
    ensures SoFar(f0, f', i, off, src, end)
  {
    FilesOn(f0, f, f', i, off, src, k, n1, n1);
    AllWritten(f0[i], off, src[..end]);
  }

  lemma FilesShort(f0: seq<seq<int>>, f: seq<seq<int>>, f': seq<seq<int>>, i: nat, off: nat, n: int, src: seq<int>,
                   k: nat, t: nat, at: nat, n1: nat, end: nat)
    requires SoFar(f0, f, i, off, src, k) && off <= |f0[i]| && k < n && k == t * MAXWRITE && n1 == Part(n, k)
    requires at == off + k && |src| < k + n1 && at + n1 <= MAXFILE * BSIZE
    requires end == k + Chunks(at, n1, |src[k..]|) && WroteNext(f, f', i, at, n1, src[k..])
    ensures Outcome(f0, f', i, off, n, src, end)
  {
    FilesOn(f0, f, f', i, off, src, k, |src| - k, Chunks(at, n1, |src| - k));
    AskedMore(off, n, k, n1, t);
    MovedShort(off, Asked(off, n), k, n1, |src|, t);
  }

  lemma FilesEnd(f0: seq<seq<int>>, f: seq<seq<int>>, i: nat, off: nat, n: int, src: seq<int>, k: nat)
    requires SoFar(f0, f, i, off, src, k) && (off > |f0[i]| || Asked(off, n) == k)
    ensures Outcome(f0, f, i, off, n, src, k)
  {
    if off <= |f0[i]| {
      AllWritten(f0[i], off, src[..k]);
    }
  }

  lemma Nothing(sb: Super, g: Snap, i: nat, off: nat, src: seq<int>)
    requires AreInodes(g.ino) && i < |g.ino|
    ensures Midway(sb, g, g, i, off, src, 0)
  {
    if off <= g.ino[i].size {
      OverwriteNone(Files(g.d, g.ino)[i], off);
    }
  }

  /** What a transaction after k bytes comes to. */
  ghost predicate Turned(sb: Super, g0: Snap, g: Snap, i: nat, off: nat, n: int, src: seq<int>, k: nat, end: nat,
                         whole: bool)
  {
    && AreInodes(g0.ino) && AreInodes(g.ino) && i < |g0.ino| == |g.ino| && k < n
    && if whole then end == k + Part(n, k) && Midway(sb, g0, g, i, off, src, end)
       else
         && !NoSpace(sb, g0, i, off, n, |src|) && !Complete(g0.ino[i].size, off, n, |src|)
         && Outcome(Files(g0.d, g0.ino), Files(g.d, g.ino), i, off, n, src, end)
  }

  /** k bytes were written by t complete transactions. */
  predicate Begins(n: int, k: nat, t: nat) {
    k == n || k == t * MAXWRITE
  }

  lemma TurnRefused(sb: Super, g0: Snap, g: Snap, i: nat, off: nat, n: int, src: seq<int>, k: nat, t: nat)
    requires Midway(sb, g0, g, i, off, src, k) && k < n && Begins(n, k, t) && g0.ino[i].size <= MAXFILE * BSIZE
    requires off > g0.ino[i].size || off + k + Part(n, k) > MAXFILE * BSIZE
    ensures Turned(sb, g0, g.(logged := {}), i, off, n, src, k, k, false)
  {
    if off <= g0.ino[i].size {
      AskedMore(off, n, k, Part(n, k), t);
    }
    SpaceEnds(sb, g0, g, i, off, n, |src|, k);
    FilesEnd(Files(g0.d, g0.ino), Files(g.d, g.ino), i, off, n, src, k);
  }

  lemma TurnWhole(sb: Super, g0: Snap, g: Snap, g': Snap, i: nat, off: nat, src: seq<int>, k: nat, at: nat, n1: nat,
                  end: nat)
    requires Midway(sb, g0, g, i, off, src, k) && 0 < n1 <= |src[k..]| && at == off + k && end == k + n1
    requires OneWrite(sb, g, g', i, at, n1, src[k..]) && !Refused(g.ino[i].size, at, n1)
    requires off <= g0.ino[i].size && off + end <= MAXFILE * BSIZE
    ensures Midway(sb, g0, g', i, off, src, end)
  {
    SpaceWhole(sb, g0, g, g', i, off, |src|, k, at, n1, |src[k..]|, end);
    FilesWhole(Files(g0.d, g0.ino), Files(g.d, g.ino), Files(g'.d, g'.ino), i, off, src, k, at, n1, end);
  }

  lemma TurnShort(sb: Super, g0: Snap, g: Snap, g': Snap, i: nat, off: nat, n: int, src: seq<int>, k: nat, t: nat,
                  at: nat, n1: nat, end: nat)
    requires Midway(sb, g0, g, i, off, src, k) && k < n && Begins(n, k, t) && n1 == Part(n, k) && |src[k..]| < n1
    requires at == off + k && end == k + Chunks(at, n1, |src[k..]|)
    requires OneWrite(sb, g, g', i, at, n1, src[k..]) && !Refused(g.ino[i].size, at, n1)
    requires off <= g0.ino[i].size && at + n1 <= MAXFILE * BSIZE
    ensures !NoSpace(sb, g0, i, off, n, |src|)
    ensures Outcome(Files(g0.d, g0.ino), Files(g'.d, g'.ino), i, off, n, src, end)
  {
    SpaceShort(sb, g0, g, g', i, off, n, |src|, k, t, at, n1, |src[k..]|);
    FilesShort(Files(g0.d, g0.ino), Files(g.d, g.ino), Files(g'.d, g'.ino), i, off, n, src, k, t, at, n1, end);
  }

  lemma WholeOrNot(off: nat, n: nat, avail: nat)
    ensures Chunks(off, n, avail) == n <==> n <= avail
  {
  }

  /** The transaction of filewrite after k bytes. */
  ghost predicate Transaction(sb: Super, g: Snap, g': Snap, i: nat, off: nat, n: int, src: seq<int>, k: nat) {
    k < n && k <= |src| && OneWrite(sb, g, g', i, Past(off, k), Part(n, k), src[k..])
  }

  lemma TurnStuck(sb: Super, g0: Snap, g: Snap, i: nat, off: nat, n: int, src: seq<int>, k: nat, t: nat, at: nat,
                  n1: nat)
    requires Midway(sb, g0, g, i, off, src, k) && k < n && Begins(n, k, t) && n1 == Part(n, k) && at == off + k
    requires !Refused(g.ino[i].size, at, n1) && CannotFit(sb, g, i, at, n1, |src[k..]|)
    ensures NoSpace(sb, g0, i, off, n, |src|)
  {
    WhenRefused(Files(g0.d, g0.ino), Files(g.d, g.ino), i, off, src, k, at, n1);
    SpaceStuck(sb, g0, g, i, off, n, |src|, k, t, at, n1, |src[k..]|);
  }

  lemma AsTransaction(sb: Super, g: Snap, g': Snap, i: nat, off: nat, n: int, src: seq<int>, k: nat, at: nat, n1: nat)
    requires k < n && k <= |src| && n1 == Part(n, k) && at == Past(off, k) && OneWrite(sb, g, g', i, at, n1, src[k..])
    ensures Transaction(sb, g, g', i, off, n, src, k)
  {
  }

  lemma TurnEnds(sb: Super, g0: Snap, g: Snap, g': Snap, i: nat, off: nat, n: int, src: seq<int>, k: nat, t: nat,
                 at: nat, n1: nat, c: int, end: nat)
    requires Midway(sb, g0, g, i, off, src, k) && k < n && Begins(n, k, t) && g0.ino[i].size <= MAXFILE * BSIZE
    requires n1 == Part(n, k) && at == off + k && OneWrite(sb, g, g', i, at, n1, src[k..])
    requires c == if Refused(g.ino[i].size, at, n1) then -1 else Chunks(at, n1, |src[k..]|)
    requires end == if c > 0 then k + c else k
    ensures Turned(sb, g0, g', i, off, n, src, k, end, c == n1)
  {
    WhenRefused(Files(g0.d, g0.ino), Files(g.d, g.ino), i, off, src, k, at, n1);
    WholeOrNot(at, n1, |src[k..]|);
    if c == -1 {
      TurnRefused(sb, g0, g, i, off, n, src, k, t);
    } else if c == n1 {
      TurnWhole(sb, g0, g, g', i, off, src, k, at, n1, end);
    } else {
      TurnShort(sb, g0, g, g', i, off, n, src, k, t, at, n1, end);
    }
  }

  /** One transaction of filewrite's loop, after `done` bytes; `whole` tells whether it was complete. */
  method Turn(fs: Fs, i: nat, off: nat, n: int, src: seq<int>, done: nat, ghost g0: Snap, ghost t: nat)
    returns (end: nat, whole: bool, stuck: bool)
    requires fs.Valid() && off < U32 && done < n && Begins(n, done, t)
    requires Midway(fs.sb, g0, fs.Now(), i, off, src, done) && g0.ino[i].size <= MAXFILE * BSIZE
    modifies fs`d, fs`ino, fs`dinode, fs`logged, fs`owner
    ensures stuck ==> NoSpace(fs.sb, g0, i, off, n, |src|)
    ensures !stuck ==>
              && fs.Valid() && Transaction(fs.sb, old(fs.Now()), fs.Now(), i, off, n, src, done)
              && Turned(fs.sb, g0, fs.Now(), i, off, n, src, done, end, whole)
  {
    var max := (MAXOPBLOCKS - 1 - 1 - 2) / 2 * BSIZE;
    var n1 := n - done;
    if n1 > max {
      n1 := max;
    }
    ghost var g := fs.Now();
    var at := Past(off, done);
    assert n1 == Part(n, done);
    var c;
    c, stuck := WriteOp(fs, i, at, n1, src[done..]);
    end, whole := if c > 0 then done + c else done, c == n1;
    if stuck {
      TurnStuck(fs.sb, g0, g, i, off, n, src, done, t, at, n1);
    } else {
      AsTransaction(fs.sb, g, fs.Now(), i, off, n, src, done, at, n1);
      TurnEnds(fs.sb, g0, g, fs.Now(), i, off, n, src, done, t, at, n1, c, end);
    }
  }

  ghost predicate TransactionAt(sb: Super, snaps: seq<Snap>, i: nat, off: nat, n: int, src: seq<int>, t: nat) {
    t + 1 < |snaps| && Transaction(sb, snaps[t], snaps[t + 1], i, off, n, src, t * MAXWRITE)
  }

  /** The states before and after each transaction of filewrite. */
  ghost predicate Transactions(sb: Super, snaps: seq<Snap>, i: nat, off: nat, n: int, src: seq<int>) {
    && snaps != []
    && forall t: nat {:trigger TransactionAt(sb, snaps, i, off, n, src, t)} :: t + 1 < |snaps| ==>
         TransactionAt(sb, snaps, i, off, n, src, t)
  }

  lemma NextTransaction(sb: Super, snaps: seq<Snap>, i: nat, off: nat, n: int, src: seq<int>, k: nat, g: Snap)
    requires Transactions(sb, snaps, i, off, n, src) && Begins(n, k, |snaps| - 1)
    requires Transaction(sb, snaps[|snaps| - 1], g, i, off, n, src, k)
    ensures Transactions(sb, snaps + [g], i, off, n, src)
  {
    forall t: nat | t + 1 < |snaps + [g]| ensures TransactionAt(sb, snaps + [g], i, off, n, src, t) {
      if t + 1 < |snaps| {
        assert TransactionAt(sb, snaps, i, off, n, src, t);
      }
    }
  }

  lemma NextPart(n: int, k: nat, t: nat, end: nat, t': nat)
    requires k < n && Begins(n, k, t) && end == k + Part(n, k) && t' == t + 1
    ensures Begins(n, end, t')
  {
  }

  /** filewrite's loop after complete transactions that wrote k bytes. */
  ghost predicate Going(sb: Super, snaps: seq<Snap>, g0: Snap, g: Snap, i: nat, off: nat, n: int, src: seq<int>,
                        k: nat) {
    && Transactions(sb, snaps, i, off, n, src) && Begins(n, k, |snaps| - 1)
    && snaps[0] == g0 && snaps[|snaps| - 1] == g && Midway(sb, g0, g, i, off, src, k)
  }

  /** A round of the loop. */
  method FileRound(fs: Fs, i: nat, off: nat, n: int, src: seq<int>, done: nat, ghost g0: Snap, ghost snaps: seq<Snap>)
    returns (end: nat, whole: bool, stuck: bool, ghost snaps': seq<Snap>)
    requires fs.Valid() && off < U32 && done < n && Going(fs.sb, snaps, g0, fs.Now(), i, off, n, src, done)
    requires g0.ino[i].size <= MAXFILE * BSIZE
    modifies fs`d, fs`ino, fs`dinode, fs`logged, fs`owner
    ensures stuck ==> NoSpace(fs.sb, g0, i, off, n, |src|)
    ensures !stuck ==>
              && fs.Valid() && snaps' == snaps + [fs.Now()] && Transactions(fs.sb, snaps', i, off, n, src)
              && Turned(fs.sb, g0, fs.Now(), i, off, n, src, done, end, whole)
              && (whole ==> Going(fs.sb, snaps', g0, fs.Now(), i, off, n, src, end))
  {
    end, whole, stuck := Turn(fs, i, off, n, src, done, g0, |snaps| - 1);
    snaps' := snaps + [fs.Now()];
    if !stuck {
      NextTransaction(fs.sb, snaps, i, off, n, src, done, fs.Now());
      if whole {
        NextPart(n, done, |snaps| - 1, end, |snaps'| - 1);
      }
    }
  }

  /** All n bytes were written, if there were any to write. */
  lemma LoopEnds(sb: Super, g0: Snap, g: Snap, i: nat, off: nat, n: int, src: seq<int>, k: nat)
    requires Midway(sb, g0, g, i, off, src, k) && g0.ino[i].size <= MAXFILE * BSIZE
    requires k == n || (n < 0 && k == 0)
    ensures !NoSpace(sb, g0, i, off, n, |src|) && (Complete(g0.ino[i].size, off, n, |src|) <==> k == n)
    ensures Outcome(Files(g0.d, g0.ino), Files(g.d, g.ino), i, off, n, src, k)
  {
    SpaceEnds(sb, g0, g, i, off, n, |src|, k);
    FilesEnd(Files(g0.d, g0.ino), Files(g.d, g.ino), i, off, n, src, k);
  }

  /** filewrite: the file is overwritten at its offset by the bytes that can be read, up to the largest size, in
      transactions of at most MAXOPBLOCKS logged blocks each; the call returns n or -1 and panics exactly
      when the free blocks do not suffice for all of it.  snaps are the states before and after each
      transaction. */
  method FileWrite(fs: Fs, i: nat, off: nat, n: int, src: seq<int>)
    returns (ret: int, off': nat, stuck: bool, ghost k: nat, ghost snaps: seq<Snap>)
    requires fs.Valid() && i < |fs.ino| && off < U32
    modifies fs`d, fs`ino, fs`dinode, fs`logged, fs`owner
    ensures stuck <==> NoSpace(fs.sb, old(fs.Now()), i, off, n, |src|)
    ensures Transactions(fs.sb, snaps, i, off, n, src) && snaps[0] == old(fs.Now())
    ensures !stuck ==>
              && fs.Valid() && off' == off + k && fs.Now() == snaps[|snaps| - 1]
              && Outcome(Files(old(fs.d), old(fs.ino)), Files(fs.d, fs.ino), i, off, n, src, k)
              && ret == (if Complete(old(fs.ino)[i].size, off, n, |src|) then n else -1)
  {
    var done := 0;
    ret, off', stuck, k, snaps := -1, off, false, 0, [fs.Now()];
    Nothing(fs.sb, fs.Now(), i, off, src);
    assert Full(fs.d, fs.ino[i]);
    while done < n
      invariant !stuck && fs.Valid() && k == done && off' == off + k && (done == 0 || done <= n)
      invariant Going(fs.sb, snaps, old(fs.Now()), fs.Now(), i, off, n, src, done)
    {
      var end, whole;
      ghost var snaps';
      end, whole, stuck, snaps' := FileRound(fs, i, off, n, src, done, old(fs.Now()), snaps);
      if stuck {
        return;
      }
      snaps, k, off' := snaps', end, off + end;
      if !whole {
        return;
      }
      done := end;
    }
    LoopEnds(fs.sb, old(fs.Now()), fs.Now(), i, off, n, src, done);
    ret := if done == n then n else -1;
  }

  datatype Op =
    | Write(i: nat, off: nat, n: nat, src: seq<int>)
    | Trunc(i: nat)
    | Read(i: nat, off: nat, n: nat, room: nat)

  ghost predicate IsOp(nfiles: nat, op: Op) {
    op.i < nfiles && (!op.Trunc? ==> op.off < U32 && op.n < U32)
  }

  ghost predicate AreOps(nfiles: nat, ops: seq<Op>) {
    forall t: nat {:trigger ops[t]} :: t < |ops| ==> IsOp(nfiles, ops[t])
  }

  /** What an operation does to plain byte sequences. */
  function Effect(files: seq<seq<int>>, op: Op): (r: seq<seq<int>>)
    requires op.i < |files|
    ensures |r| == |files|
  {
    match op
    case Write(i, off, n, src) =>
      if Refused(|files[i]|, off, n) then files
      else files[i := Written(files[i], off, src[..Min(n, |src|)], Chunks(off, n, |src|))]
    case Trunc(i) => files[i := []]
    case Read(_, _, _, _) => files
  }

  /** The value an operation on plain byte sequences returns, with the bytes read. */
  function Answer(files: seq<seq<int>>, op: Op): (int, seq<int>)
    requires op.i < |files|
  {
    match op
    case Write(i, off, n, src) => (if Refused(|files[i]|, off, n) then -1 else Chunks(off, n, |src|), [])
    case Trunc(i) => (0, [])
    case Read(i, off, n, room) =>
      if off > |files[i]| || off + n >= U32 then (0, [])
      else
        var m := Min(n, |files[i]| - off);
        (if m <= room then m else -1, files[i][off..off + Min(m, room)])
  }

  /** In state g the operation is a write that is not refused and for which the free blocks do not suffice. */
  ghost predicate NoRoom(sb: Super, g: Snap, op: Op)
    requires op.i < |g.ino| && IsInode(g.ino[op.i])
  {
    op.Write? && !Refused(g.ino[op.i].size, op.off, op.n) && CannotFit(sb, g, op.i, op.off, op.n, |op.src|)
  }

  method Step(fs: Fs, op: Op) returns (a: (int, seq<int>), stuck: bool)
    requires fs.Valid() && IsOp(|fs.ino|, op)
    modifies fs`d, fs`ino, fs`dinode, fs`logged, fs`owner
    ensures !stuck ==>
              && fs.Valid() && a == Answer(Files(old(fs.d), old(fs.ino)), op)
              && Files(fs.d, fs.ino) == Effect(Files(old(fs.d), old(fs.ino)), op)
    ensures stuck <==> NoRoom(fs.sb, old(fs.Now()), op)
    ensures op.Read? ==> fs.d == old(fs.d) && fs.ino == old(fs.ino) && fs.logged == old(fs.logged)
                         && fs.owner == old(fs.owner)
  {
    match op
    case Write(i, off, n, src) =>
      var r;
      ghost var mapped, w;
      r, stuck, mapped, w := Writei(fs, i, off, n, src);
      a := (r, []);
      if !stuck && r != -1 {
        StopsAt(off, n, |src|, r);
      }
    case Trunc(i) =>
      ghost var d0, ino0 := fs.d, fs.ino;
      stuck := fs.Itrunc(i);
      a := (0, []);
      EmptyFile(d0, ino0, fs.d, fs.ino, i);
    case Read(i, off, n, room) =>
      var r, dst := fs.Readi(i, off, n, room);
      a, stuck := (r, dst), false;
  }

  lemma EmptyFile(d0: Disk, ino0: seq<Inode>, d: Disk, ino: seq<Inode>, i: nat)
    requires AreInodes(ino0) && AreInodes(ino) && i < |ino0| && ino == ino0[i := Emptied()]
    requires d.words == d0.words && d.bytes == d0.bytes
    ensures Files(d, ino) == Files(d0, ino0)[i := []]
  {
    forall j: nat | j < |ino| && j != i ensures Content(d, ino[j]) == Content(d0, ino0[j]) {
      var c, c0 := Content(d, ino[j]), Content(d0, ino0[j]);
      forall p: nat | p < |c| ensures c[p] == c0[p] {
        assert ByteAt(d, ino[j], p / BSIZE, p % BSIZE) == ByteAt(d0, ino0[j], p / BSIZE, p % BSIZE);
      }
    }
  }

  /** The files after the first t operations, applied to plain byte sequences. */
  ghost function Effects(files: seq<seq<int>>, ops: seq<Op>, t: nat): (r: seq<seq<int>>)
    requires AreOps(|files|, ops) && t <= |ops|
    ensures |r| == |files|
  {
    if t == 0 then files else Effect(Effects(files, ops, t - 1), ops[t - 1])
  }

  /** What the first t operations return on plain byte sequences. */
  ghost function Answers(files: seq<seq<int>>, ops: seq<Op>, t: nat): (r: seq<(int, seq<int>)>)
    requires AreOps(|files|, ops) && t <= |ops|
    ensures |r| == t
  {
    if t == 0 then [] else Answers(files, ops, t - 1) + [Answer(Effects(files, ops, t - 1), ops[t - 1])]
  }

  method StepAt(fs: Fs, ops: seq<Op>, t: nat, ghost files0: seq<seq<int>>) returns (a: (int, seq<int>), stuck: bool)
    requires fs.Valid() && |fs.ino| == |files0| && AreOps(|files0|, ops) && t < |ops|
             && Files(fs.d, fs.ino) == Effects(files0, ops, t)
    modifies fs`d, fs`ino, fs`dinode, fs`logged, fs`owner
    ensures stuck <==> NoRoom(fs.sb, old(fs.Now()), ops[t])
    ensures !stuck ==> fs.Valid() && |fs.ino| == |files0| && Files(fs.d, fs.ino) == Effects(files0, ops, t + 1)
    ensures !stuck ==> Answers(files0, ops, t + 1) == Answers(files0, ops, t) + [a]
  {
    a, stuck := Step(fs, ops[t]);
  }

  /** Any sequence of writes, truncations and reads on any files behaves as on plain byte sequences,
      up to a write the free blocks do not suffice for. */
  method Run(fs: Fs, ops: seq<Op>) returns (answers: seq<(int, seq<int>)>, stuck: bool, ghost g: Snap)
    requires fs.Valid() && AreOps(|fs.ino|, ops)
    modifies fs`d, fs`ino, fs`dinode, fs`logged, fs`owner
    ensures |answers| <= |ops| && (stuck <==> |answers| < |ops|)
    ensures answers == Answers(Files(old(fs.d), old(fs.ino)), ops, |answers|)
    ensures stuck ==>
              && AreInodes(g.ino) && |g.ino| == |old(fs.ino)| && NoRoom(fs.sb, g, ops[|answers|])
              && Files(g.d, g.ino) == Effects(Files(old(fs.d), old(fs.ino)), ops, |answers|)
    ensures !stuck ==> fs.Valid() && Files(fs.d, fs.ino) == Effects(Files(old(fs.d), old(fs.ino)), ops, |ops|)
  {
    ghost var files0 := Files(fs.d, fs.ino);
    answers, g := [], fs.Now();
    while |answers| < |ops|
      invariant |answers| <= |ops| && fs.Valid() && |fs.ino| == |files0| && answers == Answers(files0, ops, |answers|)
      invariant Files(fs.d, fs.ino) == Effects(files0, ops, |answers|)
      decreases |ops| - |answers|
    {
      var a;
      g := fs.Now();
      a, stuck := StepAt(fs, ops, |answers|, files0);
      if stuck {
        return;
      }
      answers := answers + [a];
    }
    stuck := false;
  }
}
