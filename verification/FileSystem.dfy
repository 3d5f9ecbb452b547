/** Block allocation and file contents: balloc, bfree, bmap, itrunc, readi and writei of kernel/fs.c. */
module FileSystem {
  import opened Counting
  import opened FsState
  import opened Words

  /** What log_write sees of the allocation of the blocks `added`. */
  ghost function Logs(sb: Super, added: set<nat>): set<nat> {
    added + (set b | b in added :: BBLOCK(sb, b))
  }

  ghost predicate AllUsed(sb: Super, d: Disk) {
    IsDisk(sb, d) && forall b: nat :: b < sb.size ==> Bit(sb, d, b)
  }

  /** The free data blocks when those in `used` are taken. */
  ghost function FreeSet(sb: Super, used: set<nat>): set<nat> {
    set b: nat | sb.datastart <= b < sb.size && b !in used
  }

  ghost function Room(sb: Super, owner: Owner): nat {
    |FreeSet(sb, owner.Keys)|
  }

  lemma FullDisk(sb: Super, d: Disk, owner: Owner)
    requires IsDisk(sb, d) && Marked(sb, d, owner.Keys)
    ensures AllUsed(sb, d) <==> Room(sb, owner) == 0
  {
    if AllUsed(sb, d) {
      assert FreeSet(sb, owner.Keys) == {} by {
        forall b: nat | sb.datastart <= b < sb.size ensures b in owner {
          assert Bit(sb, d, b);
        }
      }
    } else {
      var b: nat :| b < sb.size && !Bit(sb, d, b);
      assert b in FreeSet(sb, owner.Keys);
    }
  }

  lemma RoomTaken(sb: Super, owner: Owner, b: nat, s: Slot)
    requires sb.datastart <= b < sb.size && b !in owner
    ensures Room(sb, owner[b := s]) + 1 == Room(sb, owner)
  {
    assert FreeSet(sb, owner[b := s].Keys) == FreeSet(sb, owner.Keys) - {b};
  }

  /** How many blocks bmap has to allocate for block bn. */
  function Missing(d: Disk, ip: Inode, bn: nat): nat
    requires IsInode(ip)
  {
    if BlockOf(d, ip, bn) != 0 then 0 else if bn >= NDIRECT && ip.addrs[NDIRECT] == 0 then 2 else 1
  }

  /** Pointers are only added. */
  ghost predicate Kept(d: Disk, ino: seq<Inode>, d': Disk, ino': seq<Inode>)
    requires AreInodes(ino) && AreInodes(ino') && |ino'| == |ino|
  {
    forall s: Slot {:trigger Ref(d', ino', s)} :: IsSlot(ino, s) && Ref(d, ino, s) != 0 ==>
      Ref(d', ino', s) == Ref(d, ino, s)
  }

  ghost predicate Grown(d: Disk, ino: seq<Inode>, d': Disk, ino': seq<Inode>)
    requires AreInodes(ino)
  {
    && |ino'| == |ino| && AreInodes(ino') && (forall i :: 0 <= i < |ino| ==> ino'[i].size == ino[i].size)
    && Kept(d, ino, d', ino')
  }

  lemma RefIsBlock(sb: Super, d: Disk, ino: seq<Inode>, owner: Owner, s: Slot)
    requires IsDisk(sb, d) && Refs(sb, d, ino, owner) && IsSlot(ino, s) && Ref(d, ino, s) != 0
    ensures sb.datastart <= Ref(d, ino, s) < sb.size && IsBlock(d, Ref(d, ino, s)) && Ref(d, ino, s) in owner
  {
    assert Holds(d, ino, owner, s);
    assert HeldBy(sb, d, ino, owner, Ref(d, ino, s));
  }

  /** The bitmap is exact: the bit of b is set just when b is metadata or some slot refers to it, and
      then no other slot does. */
  lemma BitmapIsExact(sb: Super, d: Disk, ino: seq<Inode>, owner: Owner, b: nat)
    requires ValidSuper(sb) && IsDisk(sb, d) && Refs(sb, d, ino, owner) && Marked(sb, d, owner.Keys) && b < sb.size
    ensures Bit(sb, d, b) <==> b < sb.datastart || exists s :: IsSlot(ino, s) && Ref(d, ino, s) == b
    ensures b > 0 ==>
              forall s, s' :: IsSlot(ino, s) && IsSlot(ino, s') && Ref(d, ino, s) == Ref(d, ino, s') == b ==> s == s'
  {
    if b in owner {
      assert HeldBy(sb, d, ino, owner, b);
      assert Ref(d, ino, owner[b]) == b;
    }
    forall s | IsSlot(ino, s) && Ref(d, ino, s) == b && b > 0 ensures b in owner && owner[b] == s {
      assert Holds(d, ino, owner, s);
    }
  }

  lemma LogsUnion(sb: Super, added: set<nat>, more: set<nat>)
    ensures Logs(sb, added + more) == Logs(sb, added) + Logs(sb, more)
  {
  }

  lemma LogsOne(sb: Super, b: nat)
    ensures Logs(sb, {}) == {} && Logs(sb, {b}) == {b, BBLOCK(sb, b)}
  {
  }

  /** bmap's effect from g0 to g1: b is block bn of inode i, and was there or is new and zeroed; the log
      has the blocks that changed. */
  ghost predicate Mapped(sb: Super, g0: Snap, g1: Snap, i: nat, bn: nat, b: nat)
    requires AreInodes(g0.ino) && i < |g0.ino|
  {
    && Grown(g0.d, g0.ino, g1.d, g1.ino) && Wrote(g0.d, g0.ino, g1.d, g1.ino, 0, 0, [], 0)
    && b == BlockOf(g1.d, g1.ino[i], bn) != 0 && b < sb.size && b in g1.owner
    && (bn < NDIRECT ==> g1.ino[i].addrs[NDIRECT] == g0.ino[i].addrs[NDIRECT])
    && g0.owner.Keys <= g1.owner.Keys && g1.owner.Keys - g0.owner.Keys <= {b, g1.ino[i].addrs[NDIRECT]}
    && (b in g0.owner <==> BlockOf(g0.d, g0.ino[i], bn) != 0)
    && g1.logged == g0.logged + Logs(sb, g1.owner.Keys - g0.owner.Keys)
                    + (if bn >= NDIRECT && b !in g0.owner then {g1.ino[i].addrs[NDIRECT]} else {})
    && DiskLogged(sb, g0.d, g1.d, g1.logged)
  }

  /** A block that was there. */
  lemma MappedOld(sb: Super, g: Snap, i: nat, bn: nat, b: nat)
    requires IsDisk(sb, g.d) && Refs(sb, g.d, g.ino, g.owner) && i < |g.ino| && bn < MAXFILE
    requires b == BlockOf(g.d, g.ino[i], bn) != 0
    ensures Mapped(sb, g, g, i, bn, b)
  {
    assert Ref(g.d, g.ino, Data(i, bn)) == b;
    RefIsBlock(sb, g.d, g.ino, g.owner, Data(i, bn));
    NothingLogged(sb, g.d, g.logged);
    assert g.owner.Keys - g.owner.Keys == {};
    LogsOne(sb, b);
  }

  /** A new block, in the inode or in an indirect block that was there. */
  lemma MappedNew(sb: Super, g0: Snap, g1: Snap, i: nat, bn: nat, b: nat, ind: set<nat>)
    requires AreInodes(g0.ino) && i < |g0.ino| && bn < MAXFILE && BlockOf(g0.d, g0.ino[i], bn) == 0 && 0 < b < sb.size
    requires Attached(g0.d, g0.ino, g1.d, g1.ino, Data(i, bn), b) && Wrote(g0.d, g0.ino, g1.d, g1.ino, 0, 0, [], 0)
    requires b !in g0.owner && g1.owner == g0.owner[b := Data(i, bn)]
    requires ind == (if bn < NDIRECT then {} else {g1.ino[i].addrs[NDIRECT]})
    requires g1.logged == g0.logged + {b, BBLOCK(sb, b)} + ind && DiskLogged(sb, g0.d, g1.d, g1.logged)
    ensures Mapped(sb, g0, g1, i, bn, b)
  {
    LogsOne(sb, b);
    assert g1.owner.Keys - g0.owner.Keys == {b};
    assert Ref(g1.d, g1.ino, Data(i, bn)) == b && Ref(g1.d, g1.ino, Ind(i)) == Ref(g0.d, g0.ino, Ind(i));
    forall s: Slot | IsSlot(g0.ino, s) && Ref(g0.d, g0.ino, s) != 0
      ensures Ref(g1.d, g1.ino, s) == Ref(g0.d, g0.ino, s)
    {
      assert Ref(g0.d, g0.ino, Data(i, bn)) == 0;
    }
  }

  /** A new indirect block, then a block in it. */
  lemma MappedAfterInd(sb: Super, g0: Snap, g1: Snap, g2: Snap, i: nat, bn: nat, x: nat, b: nat)
    requires AreInodes(g0.ino) && i < |g0.ino| && NDIRECT <= bn < MAXFILE && g0.ino[i].addrs[NDIRECT] == 0
    requires Attached(g0.d, g0.ino, g1.d, g1.ino, Ind(i), x) && Wrote(g0.d, g0.ino, g1.d, g1.ino, 0, 0, [], 0) && x != 0
    requires x !in g0.owner && g1.owner == g0.owner[x := Ind(i)] && g1.logged == g0.logged + {x, BBLOCK(sb, x)}
    requires DiskLogged(sb, g0.d, g1.d, g1.logged)
    requires Mapped(sb, g1, g2, i, bn, b)
    ensures Mapped(sb, g0, g2, i, bn, b)
  {
    assert Ref(g1.d, g1.ino, Data(i, bn)) == 0 == BlockOf(g1.d, g1.ino[i], bn);
    assert Ref(g1.d, g1.ino, Ind(i)) == x == Ref(g2.d, g2.ino, Ind(i));
    assert g2.owner.Keys - g0.owner.Keys == (g2.owner.Keys - g1.owner.Keys) + {x};
    LogsUnion(sb, g2.owner.Keys - g1.owner.Keys, {x});
    LogsOne(sb, x);
    WroteThenSame(g0.d, g0.ino, g1.d, g1.ino, g2.d, g2.ino, 0, 0, [], 0);
    LoggedTwice(sb, g0.d, g1.d, g2.d, g1.logged, g2.logged);
    forall s: Slot | IsSlot(g0.ino, s) && Ref(g0.d, g0.ino, s) != 0
      ensures Ref(g2.d, g2.ino, s) == Ref(g0.d, g0.ino, s)
    {
      assert Ref(g1.d, g1.ino, s) == Ref(g0.d, g0.ino, s);
    }
  }

  /** The bitmap blocks with the bits of the blocks in s. */
  ghost function BitmapBlocks(sb: Super, s: set<nat>): set<nat> {
    set b | b in s :: BBLOCK(sb, b)
  }

  lemma FreedOne(sb: Super, all: set<nat>, left: set<nat>, b: nat)
    ensures b in left && left <= all ==>
              BitmapBlocks(sb, all - (left - {b})) == BitmapBlocks(sb, all - left) + {BBLOCK(sb, b)}
  {
    if b in left && left <= all {
      assert all - (left - {b}) == (all - left) + {b};
    }
  }

  lemma FreedBoth(sb: Super, a: set<nat>, b: set<nat>, c: set<nat>)
    requires c <= b <= a
    ensures BitmapBlocks(sb, a - b) + BitmapBlocks(sb, b - c) == BitmapBlocks(sb, a - c)
  {
    assert a - c == (a - b) + (b - c);
  }

  /** However many blocks are freed, their bits are in the few bitmap blocks there are. */
  lemma FewBitmapBlocks(sb: Super, s: set<nat>)
    requires forall b :: b in s ==> b < sb.size
    ensures |BitmapBlocks(sb, s)| <= sb.size / BPB + 1
  {
    var n := sb.size / BPB + 1;
    var all: seq<nat> := seq(n, k requires 0 <= k => sb.bmapstart + k);
    forall x | x in BitmapBlocks(sb, s) ensures x in Elems(all) {
      var b :| b in s && x == BBLOCK(sb, b);
      assert b / BPB < n && all[b / BPB] == x;
    }
    SubsetCard(BitmapBlocks(sb, s), Elems(all));
    ElemsCard(all);
  }

  /** itrunc logs no more than the bitmap and one inode block. */
  lemma TruncationBound(sb: Super, d: Disk, ino: seq<Inode>, owner: Owner, i: nat)
    requires Refs(sb, d, ino, owner)
    ensures |BitmapBlocks(sb, owner.Keys - Others(owner, i).Keys) + {IBLOCK(sb, i)}| <= sb.size / BPB + 2
  {
    var freed := owner.Keys - Others(owner, i).Keys;
    forall b | b in freed ensures b < sb.size {
      assert HeldBy(sb, d, ino, owner, b);
    }
    FewBitmapBlocks(sb, freed);
  }

  lemma Relocated(sb: Super, d: Disk, d': Disk, ino: seq<Inode>, owner: Owner)
    requires Refs(sb, d, ino, owner) && d'.words == d.words
    ensures Refs(sb, d', ino, owner)
  {
    forall s: Slot | IsSlot(ino, s) ensures Holds(d', ino, owner, s) {
      assert Holds(d, ino, owner, s);
    }
    forall b: nat | b in owner ensures HeldBy(sb, d', ino, owner, b) {
      assert HeldBy(sb, d, ino, owner, b);
    }
  }

  function Min(a: int, b: int): int {
    if a < b then a else b
  }

  /** Below the size there is a block. */
  lemma PresentBelow(sb: Super, d: Disk, ino: seq<Inode>, owner: Owner, i: nat, off: nat)
    requires IsDisk(sb, d) && Refs(sb, d, ino, owner) && AllFull(d, ino) && i < |ino| && off < ino[i].size
    ensures off / BSIZE < MAXFILE && BlockOf(d, ino[i], off / BSIZE) != 0
    ensures BlockOf(d, ino[i], off / BSIZE) < sb.size && |d.bytes[BlockOf(d, ino[i], off / BSIZE)]| == BSIZE
  {
    assert Full(d, ino[i]);
    assert NoHole(d, ino[i], off / BSIZE);
    assert Ref(d, ino, Data(i, off / BSIZE)) == BlockOf(d, ino[i], off / BSIZE);
    RefIsBlock(sb, d, ino, owner, Data(i, off / BSIZE));
  }

  /** A chunk inside one block is a slice of the file. */
  lemma ReadStep(sb: Super, d: Disk, ip: Inode, off: nat, m: nat, b: nat)
    requires IsInode(ip) && b == BlockOf(d, ip, off / BSIZE) != 0 && b < |d.bytes| && |d.bytes[b]| == BSIZE
    requires off % BSIZE + m <= BSIZE && off + m <= ip.size
    ensures d.bytes[b][off % BSIZE..off % BSIZE + m] == Content(d, ip)[off..off + m]
  {
    var q, o := off / BSIZE, off % BSIZE;
    var chunk, slice := d.bytes[b][o..o + m], Content(d, ip)[off..off + m];
    forall k: nat | k < m ensures chunk[k] == slice[k] {
      assert off + k == q * BSIZE + (o + k);
      assert (off + k) / BSIZE == q && (off + k) % BSIZE == o + k;
    }
  }

  /** The first k bytes of the next chunk continue what was read from `off` up to `at`. */
  lemma ReadOn(whole: seq<int>, off: nat, at: nat, dst: seq<int>, chunk: seq<int>, k: nat, at': nat)
    requires off <= at && at + |chunk| <= |whole| && dst == whole[off..at] && chunk == whole[at..at + |chunk|]
    requires k <= |chunk| && at' == at + k
    ensures dst + chunk[..k] == whole[off..at']
  {
  }

  lemma AllocLogged(sb: Super, d: Disk, d1: Disk, d2: Disk, b: nat, log: set<nat>)
    requires DiskLogged(sb, d, d1, {BBLOCK(sb, b)}) && DiskLogged(sb, d1, d2, {b}) && {b, BBLOCK(sb, b)} <= log
    ensures DiskLogged(sb, d, d2, log)
  {
    LoggedMore(sb, d1, d2, {b}, log);
    LoggedTwice(sb, d, d1, d2, {BBLOCK(sb, b)}, log);
  }

  lemma WordLogged(sb: Super, d: Disk, d1: Disk, d2: Disk, x: nat, log1: set<nat>, log2: set<nat>)
    requires DiskLogged(sb, d, d1, log1) && log2 == log1 + {x} && x < |d1.words| == |d2.words| == |d1.bytes|
    requires d2 == d1.(words := d1.words[x := d2.words[x]])
    ensures DiskLogged(sb, d, d2, log2)
  {
    OneLogged(sb, d1, d2, x);
    LoggedMore(sb, d1, d2, {x}, log2);
    LoggedTwice(sb, d, d1, d2, log1, log2);
  }

  class Fs {
    const sb: Super
    var d: Disk
    var ino: seq<Inode>
    var dinode: seq<Inode>
    var logged: set<nat>
    ghost var owner: Owner

    ghost predicate Valid()
      reads this
    {
      && ValidSuper(sb) && IsDisk(sb, d) && |ino| == |dinode| == sb.ninodes
      && Refs(sb, d, ino, owner) && Marked(sb, d, owner.Keys) && AllFull(d, ino)
    }

    ghost function Now(): Snap
      reads this
    {
      Snap(d, ino, dinode, owner, logged)
    }

    /** The file system on a disk, with its inodes in memory. */
    constructor (sb: Super, d: Disk, ino: seq<Inode>, ghost owner: Owner)
      ensures this.sb == sb && this.d == d && this.ino == dinode == ino && this.owner == owner && logged == {}
    {
      this.sb, this.d, this.ino, this.dinode, this.owner, this.logged := sb, d, ino, ino, owner, {};
    }

    method Bzero(b: nat)
      requires IsDisk(sb, d) && b < sb.size
      modifies this`d, this`logged
      ensures IsDisk(sb, d) && d == Zero(sb, old(d), b) && logged == old(logged) + {b}
      ensures DiskLogged(sb, old(d), d, {b})
    {
      ZeroLogged(sb, d, b);
      d := Zero(sb, d, b);
      logged := logged + {b};
    }

    /** Marks and zeroes the free block b. */
    method Take(b: nat)
      requires IsDisk(sb, d) && b < sb.size && !Bit(sb, d, b)
      modifies this`d, this`logged
      ensures IsDisk(sb, d) && d == Zero(sb, PutBit(sb, old(d), b, true), b)
      ensures logged == old(logged) + {b, BBLOCK(sb, b)} && DiskLogged(sb, old(d), d, logged)
    {
      BitLogged(sb, d, b, true);
      d := PutBit(sb, d, b, true);
      ghost var d1 := d;
      logged := logged + {BBLOCK(sb, b)};
      Bzero(b);
      AllocLogged(sb, old(d), d1, d, b, logged);
    }

    /** The first free block, marked and zeroed; a panic exactly when no block is free. */
    method Balloc() returns (r: nat, stuck: bool)
      requires IsDisk(sb, d)
      modifies this`d, this`logged
      ensures IsDisk(sb, d)
      ensures (stuck <==> AllUsed(sb, old(d))) && (stuck ==> d == old(d))
      ensures !stuck ==> Allocated(sb, old(d), d, r) && logged == old(logged) + {r, BBLOCK(sb, r)}
      ensures DiskLogged(sb, old(d), d, logged)
    {
      var b := 0;
      while b < sb.size
        invariant b % BPB == 0 && d == old(d) && logged == old(logged)
        invariant forall c: nat :: c < b && c < sb.size ==> Bit(sb, d, c)
      {
        var bi := 0;
        while bi < BPB && b + bi < sb.size
          invariant 0 <= bi <= BPB && d == old(d) && logged == old(logged)
          invariant forall c: nat :: c < b + bi && c < sb.size ==> Bit(sb, d, c)
        {
          assert (b + bi) / BPB == b / BPB && (b + bi) % BPB == bi;
          if !d.bits[b / BPB][bi] {
            assert !Bit(sb, d, b + bi);
            Take(b + bi);
            return b + bi, false;
          }
          bi := bi + 1;
        }
        b := b + BPB;
      }
      return 0, true;
    }

    /** Clears the bit of b; a panic exactly when it is clear already. */
    method Bfree(b: nat) returns (stuck: bool)
      requires IsDisk(sb, d) && b < sb.size
      modifies this`d, this`logged
      ensures IsDisk(sb, d)
      ensures stuck <==> !Bit(sb, old(d), b)
      ensures !stuck ==> d == PutBit(sb, old(d), b, false) && logged == old(logged) + {BBLOCK(sb, b)}
      ensures !stuck ==> DiskLogged(sb, old(d), d, logged)
    {
      if !d.bits[b / BPB][b % BPB] {
        return true;
      }
      BitLogged(sb, d, b, false);
      d := PutBit(sb, d, b, false);
      logged := logged + {BBLOCK(sb, b)};
      LoggedMore(sb, old(d), d, {BBLOCK(sb, b)}, logged);
      stuck := false;
    }

    /** A fresh block for an empty entry of addrs. */
    method NewAddr(i: nat, k: nat) returns (b: nat, stuck: bool)
      requires Valid() && i < |ino| && k <= NDIRECT && ino[i].addrs[k] == 0
      modifies this`d, this`ino, this`logged, this`owner
      ensures stuck <==> Room(sb, old(owner)) == 0
      ensures stuck ==> d == old(d) && ino == old(ino) && owner == old(owner)
      ensures !stuck ==>
                && Room(sb, owner) + 1 == Room(sb, old(owner))
                && Valid() && b < sb.size && !Bit(sb, old(d), b) && (forall c: nat :: c < b ==> Bit(sb, old(d), c))
                && b !in old(owner) && owner == old(owner)[b := if k < NDIRECT then Data(i, k) else Ind(i)]
                && Attached(old(d), old(ino), d, ino, if k < NDIRECT then Data(i, k) else Ind(i), b)
                && Wrote(old(d), old(ino), d, ino, 0, 0, [], 0)
                && logged == old(logged) + {b, BBLOCK(sb, b)} && DiskLogged(sb, old(d), d, logged)
    {
      ghost var s := if k < NDIRECT then Data(i, k) else Ind(i);
      FullDisk(sb, d, owner);
      b, stuck := Balloc();
      if !stuck {
        AttachAddr(sb, old(d), d, ino, owner, i, k, b);
        ino := ino[i := ino[i].(addrs := ino[i].addrs[k := b])];
        AttachRefs(sb, old(d), d, old(ino), ino, owner, s, b);
        AttachBytes(sb, old(d), d, old(ino), ino, owner, s, b);
        RoomTaken(sb, owner, b, s);
        owner := owner[b := s];
      }
    }

    /** A fresh block for an empty entry of the indirect block. */
    method NewWord(i: nat, j: nat) returns (b: nat, stuck: bool)
      requires Valid() && i < |ino| && j < NINDIRECT && ino[i].addrs[NDIRECT] != 0
               && BlockOf(d, ino[i], NDIRECT + j) == 0
      modifies this`d, this`logged, this`owner
      ensures stuck <==> Room(sb, old(owner)) == 0
      ensures stuck ==> d == old(d) && owner == old(owner)
      ensures !stuck ==>
                && Room(sb, owner) + 1 == Room(sb, old(owner))
                && Valid() && b < sb.size && !Bit(sb, old(d), b) && (forall c: nat :: c < b ==> Bit(sb, old(d), c))
                && b !in old(owner) && owner == old(owner)[b := Data(i, NDIRECT + j)]
                && Attached(old(d), ino, d, ino, Data(i, NDIRECT + j), b)
                && Wrote(old(d), ino, d, ino, 0, 0, [], 0)
                && logged == old(logged) + {b, BBLOCK(sb, b), ino[i].addrs[NDIRECT]}
                && DiskLogged(sb, old(d), d, logged)
    {
      ghost var s := Data(i, NDIRECT + j);
      var x := ino[i].addrs[NDIRECT];
      FullDisk(sb, d, owner);
      b, stuck := Balloc();
      if !stuck {
        AttachVia(sb, old(d), d, ino, owner, i, j, b);
        ghost var d1 := d;
        var row: seq<nat> := d.words[x][j := b];
        d := d.(words := d.words[x := row]);
        ghost var log1 := logged;
        logged := logged + {x};
        WordLogged(sb, old(d), d1, d, x, log1, logged);
        AttachRefs(sb, old(d), d, ino, ino, owner, s, b);
        AttachBytes(sb, old(d), d, ino, ino, owner, s, b);
        assert forall c: nat :: c < sb.size ==> IsBlock(d1, c) ==> IsBlock(d, c);
        assert forall c: nat :: c < sb.size ==> (Bit(sb, d, c) <==> Bit(sb, d1, c));
        RoomTaken(sb, owner, b, s);
        owner := owner[b := s];
      }
    }

    /** bmap for a block in an indirect block that is there. */
    method BmapWord(i: nat, j: nat) returns (b: nat, stuck: bool)
      requires Valid() && i < |ino| && j < NINDIRECT && ino[i].addrs[NDIRECT] != 0
      modifies this`d, this`logged, this`owner
      ensures stuck <==> Room(sb, old(owner)) < Missing(old(d), ino[i], NDIRECT + j)
      ensures BlockOf(old(d), ino[i], NDIRECT + j) != 0 ==> d == old(d) && logged == old(logged) && owner == old(owner)
      ensures !stuck ==> Valid() && Mapped(sb, old(Now()), Now(), i, NDIRECT + j, b)
                         && Room(sb, owner) + Missing(old(d), ino[i], NDIRECT + j) == Room(sb, old(owner))
    {
      var x := ino[i].addrs[NDIRECT];
      assert Ref(d, ino, Ind(i)) == x;
      RefIsBlock(sb, d, ino, owner, Ind(i));
      b, stuck := d.words[x][j], false;
      if b == 0 {
        b, stuck := NewWord(i, j);
        if !stuck {
          assert HeldBy(sb, d, ino, owner, b);
          MappedNew(sb, old(Now()), Now(), i, NDIRECT + j, b, {x});
        }
      } else {
        MappedOld(sb, Now(), i, NDIRECT + j, b);
      }
    }

    /** bmap for a block in the indirect block. */
    method BmapIndirect(i: nat, j: nat) returns (b: nat, stuck: bool)
      requires Valid() && i < |ino| && j < NINDIRECT
      modifies this`d, this`ino, this`logged, this`owner
      ensures stuck <==> Room(sb, old(owner)) < Missing(old(d), old(ino)[i], NDIRECT + j)
      ensures BlockOf(old(d), old(ino)[i], NDIRECT + j) != 0 ==>
                d == old(d) && ino == old(ino) && logged == old(logged) && owner == old(owner)
      ensures !stuck ==> Valid() && Mapped(sb, old(Now()), Now(), i, NDIRECT + j, b)
                         && Room(sb, owner) + Missing(old(d), old(ino)[i], NDIRECT + j) == Room(sb, old(owner))
    {
      if ino[i].addrs[NDIRECT] != 0 {
        b, stuck := BmapWord(i, j);
        return;
      }
      b, stuck := NewAddr(i, NDIRECT);
      if stuck {
        return;
      }
      ghost var x, g1 := b, Now();
      assert Ref(d, ino, Ind(i)) == x && Ref(d, ino, Data(i, NDIRECT + j)) == 0;
      b, stuck := BmapWord(i, j);
      if !stuck {
        MappedAfterInd(sb, old(Now()), g1, Now(), i, NDIRECT + j, x, b);
      }
    }

    /** bmap for a block in the inode. */
    method BmapDirect(i: nat, bn: nat) returns (b: nat, stuck: bool)
      requires Valid() && i < |ino| && bn < NDIRECT
      modifies this`d, this`ino, this`logged, this`owner
      ensures stuck <==> Room(sb, old(owner)) < Missing(old(d), old(ino)[i], bn)
      ensures BlockOf(old(d), old(ino)[i], bn) != 0 ==>
                d == old(d) && ino == old(ino) && logged == old(logged) && owner == old(owner)
      ensures !stuck ==> Valid() && Mapped(sb, old(Now()), Now(), i, bn, b)
                         && Room(sb, owner) + Missing(old(d), old(ino)[i], bn) == Room(sb, old(owner))
    {
      b, stuck := ino[i].addrs[bn], false;
      if b == 0 {
        b, stuck := NewAddr(i, bn);
        if !stuck {
          assert HeldBy(sb, d, ino, owner, b);
          MappedNew(sb, old(Now()), Now(), i, bn, b, {});
        }
      } else {
        MappedOld(sb, Now(), i, bn, b);
      }
    }

    /** The block number of block bn, allocated if it was missing: a panic exactly when the free blocks do
        not suffice or bn is past the largest file.  No byte of any file changes; a block that is there is
        only looked up. */
    method Bmap(i: nat, bn: nat) returns (b: nat, stuck: bool)
      requires Valid() && i < |ino|
      modifies this`d, this`ino, this`logged, this`owner
      ensures stuck <==> bn >= MAXFILE || Room(sb, old(owner)) < Missing(old(d), old(ino)[i], bn)
      ensures bn < MAXFILE && BlockOf(old(d), old(ino)[i], bn) != 0 ==>
                d == old(d) && ino == old(ino) && logged == old(logged) && owner == old(owner)
      ensures !stuck ==> Valid() && Mapped(sb, old(Now()), Now(), i, bn, b)
                         && Room(sb, owner) + Missing(old(d), old(ino)[i], bn) == Room(sb, old(owner))
    {
      if bn < NDIRECT {
        b, stuck := BmapDirect(i, bn);
        return;
      }
      var j := bn - NDIRECT;
      if j < NINDIRECT {
        b, stuck := BmapIndirect(i, j);
        return;
      }
      b, stuck := 0, true;
    }

    /** Frees block b, one of those still marked. */
    method FreeMarked(b: nat, ghost used: set<nat>) returns (stuck: bool)
      requires IsDisk(sb, d) && Marked(sb, d, used) && b in used && sb.datastart <= b < sb.size
      modifies this`d, this`logged
      ensures !stuck && IsDisk(sb, d) && Marked(sb, d, used - {b}) && d.words == old(d).words && d.bytes == old(d).bytes
      ensures logged == old(logged) + {BBLOCK(sb, b)} && DiskLogged(sb, old(d), d, logged)
    {
      assert Bit(sb, d, b);
      ghost var d0 := d;
      stuck := Bfree(b);
      forall c: nat | c < sb.size ensures Bit(sb, d, c) <==> c < sb.datastart || c in used - {b} {
        assert Bit(sb, d0, c) <==> c < sb.datastart || c in used;
      }
    }

    /** The loop over the entries of the indirect block x. */
    method FreeWords(i: nat, x: nat, ghost ino0: seq<Inode>) returns (stuck: bool)
      requires ValidSuper(sb) && IsDisk(sb, d) && Refs(sb, d, ino0, owner) && i < |ino0|
      requires x == ino0[i].addrs[NDIRECT] != 0 && Marked(sb, d, Left(owner, i, NDIRECT))
      modifies this`d, this`logged
      ensures !stuck && IsDisk(sb, d) && Marked(sb, d, Left(owner, i, MAXFILE)) && d.words == old(d).words
              && d.bytes == old(d).bytes
      ensures logged == old(logged) + BitmapBlocks(sb, Left(owner, i, NDIRECT) - Left(owner, i, MAXFILE))
      ensures DiskLogged(sb, old(d), d, logged)
    {
      assert Ref(d, ino0, Ind(i)) == x;
      RefIsBlock(sb, d, ino0, owner, Ind(i));
      var j := 0;
      NothingLogged(sb, d, logged);
      while j < NINDIRECT
        invariant 0 <= j <= NINDIRECT && IsDisk(sb, d) && Marked(sb, d, Left(owner, i, NDIRECT + j))
        invariant d.words == old(d).words && d.bytes == old(d).bytes && |d.words[x]| == NINDIRECT
        invariant Left(owner, i, NDIRECT + j) <= Left(owner, i, NDIRECT)
        invariant logged == old(logged) + BitmapBlocks(sb, Left(owner, i, NDIRECT) - Left(owner, i, NDIRECT + j))
        invariant DiskLogged(sb, old(d), d, logged)
      {
        ghost var d1, log1 := d, logged;
        LeftStep(sb, old(d), ino0, owner, i, NDIRECT + j);
        FreedOne(sb, Left(owner, i, NDIRECT), Left(owner, i, NDIRECT + j), d.words[x][j]);
        if d.words[x][j] != 0 {
          stuck := FreeMarked(d.words[x][j], Left(owner, i, NDIRECT + j));
          if stuck {
            return true;
          }
          LoggedTwice(sb, old(d), d1, d, log1, logged);
        }
        j := j + 1;
      }
      stuck := false;
    }

    /** The loop over the direct blocks. */
    method FreeDirect(i: nat) returns (stuck: bool)
      requires Valid() && i < |ino|
      modifies this`d, this`ino, this`logged
      ensures !stuck && IsDisk(sb, d) && Marked(sb, d, Left(owner, i, NDIRECT)) && d.words == old(d).words
              && d.bytes == old(d).bytes
      ensures |ino| == |old(ino)| && IsInode(ino[i]) && ino == old(ino)[i := ino[i]] && ino[i].size == old(ino)[i].size
      ensures (forall k :: 0 <= k < NDIRECT ==> ino[i].addrs[k] == 0)
              && ino[i].addrs[NDIRECT] == old(ino)[i].addrs[NDIRECT]
      ensures logged == old(logged) + BitmapBlocks(sb, owner.Keys - Left(owner, i, NDIRECT))
      ensures DiskLogged(sb, old(d), d, logged)
    {
      assert Left(owner, i, 0) == owner.Keys;
      var k := 0;
      NothingLogged(sb, d, logged);
      while k < NDIRECT
        invariant 0 <= k <= NDIRECT && IsDisk(sb, d) && Marked(sb, d, Left(owner, i, k))
        invariant d.words == old(d).words && d.bytes == old(d).bytes
        invariant |ino| == |old(ino)| && IsInode(ino[i]) && ino == old(ino)[i := ino[i]]
                  && ino[i].size == old(ino)[i].size
        invariant forall c :: 0 <= c <= NDIRECT ==> ino[i].addrs[c] == if c < k then 0 else old(ino)[i].addrs[c]
        invariant logged == old(logged) + BitmapBlocks(sb, owner.Keys - Left(owner, i, k))
        invariant DiskLogged(sb, old(d), d, logged)
      {
        ghost var d1, log1 := d, logged;
        LeftStep(sb, old(d), old(ino), owner, i, k);
        FreedOne(sb, owner.Keys, Left(owner, i, k), ino[i].addrs[k]);
        if ino[i].addrs[k] != 0 {
          stuck := FreeMarked(ino[i].addrs[k], Left(owner, i, k));
          if stuck {
            return true;
          }
          LoggedTwice(sb, old(d), d1, d, log1, logged);
          ino := ino[i := ino[i].(addrs := ino[i].addrs[k := 0])];
        }
        k := k + 1;
      }
      stuck := false;
    }

    /** itrunc never frees a free block; the file is empty and its blocks are free, all other files
        keep theirs. */
    method Itrunc(i: nat) returns (stuck: bool)
      requires Valid() && i < |ino|
      modifies this`d, this`ino, this`dinode, this`logged, this`owner
      ensures !stuck && Valid()
      ensures ino == old(ino)[i := Emptied()] && dinode == old(dinode)[i := Emptied()]
      ensures owner == Others(old(owner), i) && d.words == old(d).words && d.bytes == old(d).bytes
      ensures logged == old(logged) + (BitmapBlocks(sb, old(owner).Keys - owner.Keys) + {IBLOCK(sb, i)})
      ensures DiskLogged(sb, old(d), d, logged) && InodesLogged(sb, old(dinode), dinode, logged)
    {
      stuck := FreeDirect(i);
      if stuck {
        return true;
      }
      ghost var d1, log1 := d, logged;
      LeftDirect(sb, old(d), old(ino), owner, i);
      Truncated(sb, old(d), d, old(ino), owner, i);
      if ino[i].addrs[NDIRECT] != 0 {
        Relocated(sb, old(d), d, old(ino), owner);
        stuck := FreeWords(i, ino[i].addrs[NDIRECT], old(ino));
        if stuck {
          return true;
        }
        LoggedTwice(sb, old(d), d1, d, log1, logged);
        d1, log1 := d, logged;
        FreedOne(sb, Left(owner, i, NDIRECT), Left(owner, i, MAXFILE), ino[i].addrs[NDIRECT]);
        stuck := FreeMarked(ino[i].addrs[NDIRECT], Left(owner, i, MAXFILE));
        if stuck {
          return true;
        }
        LoggedTwice(sb, old(d), d1, d, log1, logged);
        ino := ino[i := ino[i].(addrs := ino[i].addrs[NDIRECT := 0])];
        Truncated(sb, old(d), d, old(ino), owner, i);
      }
      ino := ino[i := ino[i].(size := 0)];
      assert ino[i].addrs == Emptied().addrs;
      assert ino[i] == Emptied();
      assert ino == old(ino)[i := Emptied()];
      FreedBoth(sb, owner.Keys, Left(owner, i, NDIRECT), Others(owner, i).Keys);
      owner := Others(owner, i);
      log1 := logged;
      Iupdate(i);
      LoggedMore(sb, old(d), d, log1, logged);
      stuck := false;
    }

    method Iupdate(i: nat)
      requires i < |ino| == |dinode|
      modifies this`dinode, this`logged
      ensures dinode == old(dinode)[i := ino[i]] && logged == old(logged) + {IBLOCK(sb, i)}
      ensures InodesLogged(sb, old(dinode), dinode, logged)
    {
      dinode := dinode[i := ino[i]];
      logged := logged + {IBLOCK(sb, i)};
      InodeChanged(sb, old(dinode), i, ino[i], logged);
    }

    /** One round of readi's loop: what is left of the block under off, up to n bytes. */
    method ReadChunk(i: nat, off: nat, n: nat) returns (chunk: seq<int>)
      requires Valid() && i < |ino| && 0 < n && off + n <= ino[i].size
      modifies this`d, this`ino, this`logged, this`owner
      ensures d == old(d) && ino == old(ino) && logged == old(logged) && owner == old(owner)
      ensures 0 < |chunk| <= n && chunk == Content(d, ino[i])[off..off + |chunk|]
    {
      PresentBelow(sb, d, ino, owner, i, off);
      var b, stuck := Bmap(i, off / BSIZE);
      var m := Min(n, BSIZE - off % BSIZE);
      ReadStep(sb, d, ino[i], off, m, b);
      chunk := d.bytes[b][off % BSIZE..off % BSIZE + m];
    }

    /** readi's loop. */
    method ReadLoop(i: nat, off: nat, n: nat, room: nat) returns (r: int, dst: seq<int>)
      requires Valid() && i < |ino| && off + n <= ino[i].size
      modifies this`d, this`ino, this`logged, this`owner
      ensures d == old(d) && ino == old(ino) && logged == old(logged) && owner == old(owner)
      ensures if n <= room then r == n && dst == Content(d, ino[i])[off..off + n]
              else r == -1 && dst == Content(d, ino[i])[off..off + room]
    {
      dst := [];
      var off', tot := off, 0;
      ghost var whole := Content(d, ino[i]);
      while tot < n
        invariant 0 <= tot <= n && tot <= room && off' == off + tot && dst == whole[off..off']
        invariant d == old(d) && ino == old(ino) && logged == old(logged) && owner == old(owner)
      {
        var chunk := ReadChunk(i, off', n - tot);
        var k := Min(room - tot, |chunk|);
        ReadOn(whole, off, off', dst, chunk, k, off' + k);
        dst := dst + chunk[..k];
        if k < |chunk| {
          return -1, dst;
        }
        tot, off' := tot + k, off' + k;
      }
      r := tot;
    }

    /** readi returns the slice of the file's byte sequence, clipped to its end, and changes nothing.
        `room` is how much of the destination can be written; the call fails when that is too little, after
        it was filled. */
    method Readi(i: nat, off: nat, n: nat, room: nat) returns (r: int, dst: seq<int>)
      requires Valid() && i < |ino| && off < U32 && n < U32
      modifies this`d, this`ino, this`logged, this`owner
      ensures d == old(d) && ino == old(ino) && logged == old(logged) && owner == old(owner)
      ensures off > ino[i].size || off + n >= U32 ==> r == 0 && dst == []
      ensures off <= ino[i].size && off + n < U32 ==>
                var m := Min(n, ino[i].size - off);
                if m <= room then r == m && dst == Content(d, ino[i])[off..off + m]
                else r == -1 && dst == Content(d, ino[i])[off..off + room]
    {
      if off > ino[i].size || (off + n) % U32 < off {
        return 0, [];
      }
      if off + n > ino[i].size {
        r, dst := ReadLoop(i, off, ino[i].size - off, room);
      } else {
        r, dst := ReadLoop(i, off, n, room);
      }
    }
  }
}
