/** writei of kernel/fs.c and filewrite of kernel/file.c: a file is a byte sequence, and one
    transaction logs at most MAXOPBLOCKS blocks. */
module FileWrites {
  import opened Bytes
  import opened Counting
  import opened FsState
  import opened FileSystem
  import opened Words

  const MAXOPBLOCKS: nat := 10

  /** The blocks bmap returned for block bn0, bn0 + 1, ... of inode i. */
  ghost predicate Chain(g0: Snap, g: Snap, i: nat, bn0: nat, mapped: seq<nat>)
    requires AreInodes(g0.ino) && AreInodes(g.ino) && i < |g0.ino| == |g.ino|
  {
    forall k: nat {:trigger mapped[k]} :: k < |mapped| ==>
      && bn0 + k < MAXFILE && mapped[k] == BlockOf(g.d, g.ino[i], bn0 + k) != 0 && mapped[k] in g.owner
      && (mapped[k] in g0.owner <==> BlockOf(g0.d, g0.ino[i], bn0 + k) != 0)
  }

  /** Nothing was allocated but mapped blocks and the indirect block. */
  ghost predicate OnlyNew(owner0: Owner, owner: Owner, mapped: seq<nat>, ind: nat) {
    && owner0.Keys <= owner.Keys
    && forall b: nat :: b in owner && b !in owner0 ==> b in mapped || b == ind
  }

  /** A pointer in the indirect block was set. */
  ghost predicate ViaNew(owner0: Owner, bn0: nat, mapped: seq<nat>) {
    exists k: nat {:trigger mapped[k]} :: k < |mapped| && bn0 + k >= NDIRECT && mapped[k] !in owner0
  }

  /** The log has the first w mapped blocks, what allocation changed, and the indirect block if one of
      its pointers was set. */
  ghost predicate LogIs(sb: Super, g0: Snap, g: Snap, bn0: nat, mapped: seq<nat>, w: nat, ind: nat) {
    && w <= |mapped|
    && g.logged == g0.logged + Elems(mapped[..w]) + Logs(sb, g.owner.Keys - g0.owner.Keys)
                   + (if ViaNew(g0.owner, bn0, mapped) then {ind} else {})
  }

  /** A file system as Fs keeps it, as far as pointers go. */
  ghost predicate Linked(sb: Super, g: Snap) {
    0 < sb.datastart && Refs(sb, g.d, g.ino, g.owner)
  }

  lemma ChainStep(sb: Super, g0: Snap, g1: Snap, g2: Snap, i: nat, bn0: nat, mapped: seq<nat>, b: nat)
    requires Linked(sb, g0) && Linked(sb, g1) && i < |g0.ino| && bn0 + |mapped| < MAXFILE
    requires Grown(g0.d, g0.ino, g1.d, g1.ino) && g0.owner.Keys <= g1.owner.Keys
    requires Chain(g0, g1, i, bn0, mapped) && Mapped(sb, g1, g2, i, bn0 + |mapped|, b)
    ensures Grown(g0.d, g0.ino, g2.d, g2.ino) && Chain(g0, g2, i, bn0, mapped + [b])
  {
    var bn := bn0 + |mapped|;
    forall s: Slot | IsSlot(g0.ino, s) && Ref(g0.d, g0.ino, s) != 0
      ensures Ref(g2.d, g2.ino, s) == Ref(g0.d, g0.ino, s)
    {
      assert Ref(g1.d, g1.ino, s) == Ref(g0.d, g0.ino, s);
    }
    KnownBlock(sb, g0, g1, g2, i, bn, b);
    var m2 := mapped + [b];
    forall k: nat | k < |m2|
      ensures && bn0 + k < MAXFILE && m2[k] == BlockOf(g2.d, g2.ino[i], bn0 + k) != 0 && m2[k] in g2.owner
              && (m2[k] in g0.owner <==> BlockOf(g0.d, g0.ino[i], bn0 + k) != 0)
    {
      if k < |mapped| {
        assert m2[k] == mapped[k];
        assert Ref(g1.d, g1.ino, Data(i, bn0 + k)) == mapped[k] == Ref(g2.d, g2.ino, Data(i, bn0 + k));
      }
    }
  }

  /** The block mapped for bn was in use at the start just when block bn was there at the start. */
  lemma KnownBlock(sb: Super, g0: Snap, g1: Snap, g2: Snap, i: nat, bn: nat, b: nat)
    requires Linked(sb, g0) && Linked(sb, g1) && i < |g0.ino| && bn < MAXFILE
    requires Grown(g0.d, g0.ino, g1.d, g1.ino) && g0.owner.Keys <= g1.owner.Keys && Mapped(sb, g1, g2, i, bn, b)
    ensures b in g0.owner <==> BlockOf(g0.d, g0.ino[i], bn) != 0
  {
    assert Holds(g0.d, g0.ino, g0.owner, Data(i, bn)) && Ref(g0.d, g0.ino, Data(i, bn)) == BlockOf(g0.d, g0.ino[i], bn);
    assert Ref(g1.d, g1.ino, Data(i, bn)) == BlockOf(g1.d, g1.ino[i], bn) && Ref(g2.d, g2.ino, Data(i, bn)) == b;
    if b in g0.owner {
      assert HeldBy(sb, g0.d, g0.ino, g0.owner, b);
      assert Ref(g1.d, g1.ino, g0.owner[b]) == b && Holds(g1.d, g1.ino, g1.owner, g0.owner[b])
             && Holds(g1.d, g1.ino, g1.owner, Data(i, bn));
    }
  }

  /** A slot empty at the start, other than those of the mapped blocks and the indirect block, is empty
      still. */
  lemma StillEmpty(sb: Super, g0: Snap, g: Snap, i: nat, bn0: nat, mapped: seq<nat>, s: Slot)
    requires Linked(sb, g0) && Linked(sb, g) && i < |g0.ino| && Grown(g0.d, g0.ino, g.d, g.ino)
    requires Chain(g0, g, i, bn0, mapped) && OnlyNew(g0.owner, g.owner, mapped, g.ino[i].addrs[NDIRECT])
    requires IsSlot(g0.ino, s) && s != Ind(i) && !(s.Data? && s.i == i && bn0 <= s.bn < bn0 + |mapped|)
    ensures Ref(g.d, g.ino, s) == 0 <==> Ref(g0.d, g0.ino, s) == 0
  {
    var c := Ref(g.d, g.ino, s);
    assert Holds(g.d, g.ino, g.owner, s) && Holds(g.d, g.ino, g.owner, Ind(i))
           && Ref(g.d, g.ino, Ind(i)) == g.ino[i].addrs[NDIRECT];
    forall k: nat | k < |mapped| ensures g.owner[mapped[k]] == Data(i, bn0 + k) {
      assert Ref(g.d, g.ino, Data(i, bn0 + k)) == mapped[k] && Holds(g.d, g.ino, g.owner, Data(i, bn0 + k));
    }
    if c in g0.owner {
      assert HeldBy(sb, g0.d, g0.ino, g0.owner, c);
      assert Ref(g.d, g.ino, g0.owner[c]) == c && Holds(g.d, g.ino, g.owner, g0.owner[c]);
    }
  }

  /** A block that was there for this call was there from the start: no block is mapped twice. */
  lemma NotYet(sb: Super, g0: Snap, g1: Snap, g2: Snap, i: nat, bn0: nat, mapped: seq<nat>, b: nat)
    requires 0 < sb.datastart && AreInodes(g0.ino) && i < |g0.ino| == |g1.ino| && bn0 + |mapped| < MAXFILE
    requires Linked(sb, g1) && OnlyNew(g0.owner, g1.owner, mapped, g1.ino[i].addrs[NDIRECT])
    requires Chain(g0, g1, i, bn0, mapped) && Mapped(sb, g1, g2, i, bn0 + |mapped|, b)
    ensures b in g1.owner <==> b in g0.owner
  {
    var s := Data(i, bn0 + |mapped|);
    forall k: nat | k < |mapped| ensures g1.owner[mapped[k]] == Data(i, bn0 + k) {
      assert Ref(g1.d, g1.ino, Data(i, bn0 + k)) == mapped[k] && Holds(g1.d, g1.ino, g1.owner, Data(i, bn0 + k));
    }
    var x := g1.ino[i].addrs[NDIRECT];
    assert Ref(g1.d, g1.ino, Ind(i)) == x && Holds(g1.d, g1.ino, g1.owner, Ind(i));
    if b in g1.owner {
      assert Ref(g2.d, g2.ino, s) == b == Ref(g1.d, g1.ino, s) && Holds(g1.d, g1.ino, g1.owner, s);
      assert g1.owner[b] == s && b !in mapped && b != x;
    }
  }

  lemma OnlyNewStep(sb: Super, g1: Snap, owner0: Owner, owner2: Owner, mapped: seq<nat>, b: nat, ind1: nat, ind2: nat)
    requires Linked(sb, g1) && OnlyNew(owner0, g1.owner, mapped, ind1)
    requires g1.owner.Keys <= owner2.Keys && owner2.Keys - g1.owner.Keys <= {b, ind2} && (ind1 == 0 || ind1 == ind2)
    ensures OnlyNew(owner0, owner2, mapped + [b], ind2)
  {
    forall c: nat | c in owner2 && c !in owner0 ensures c in mapped + [b] || c == ind2 {
      if c in g1.owner {
        assert HeldBy(sb, g1.d, g1.ino, g1.owner, c);
      } else {
        assert c in owner2.Keys - g1.owner.Keys;
      }
    }
  }

  lemma LogStep(sb: Super, g0: Snap, g1: Snap, g2: Snap, bn0: nat, mapped: seq<nat>, b: nat, ind1: nat, ind2: nat)
    requires LogIs(sb, g0, g1, bn0, mapped, |mapped|, ind1)
    requires g0.owner.Keys <= g1.owner.Keys <= g2.owner.Keys
    requires ViaNew(g0.owner, bn0, mapped) ==> ind1 == ind2
    requires g2.logged == g1.logged + Logs(sb, g2.owner.Keys - g1.owner.Keys)
                          + (if bn0 + |mapped| >= NDIRECT && b !in g0.owner then {ind2} else {})
    ensures LogIs(sb, g0, g2, bn0, mapped + [b], |mapped|, ind2)
    ensures LogIs(sb, g0, g2.(logged := g2.logged + {b}), bn0, mapped + [b], |mapped| + 1, ind2)
  {
    var m2 := mapped + [b];
    assert m2[..|mapped|] == mapped == mapped[..|mapped|] && m2[..|mapped| + 1] == m2;
    assert g2.owner.Keys - g0.owner.Keys == (g1.owner.Keys - g0.owner.Keys) + (g2.owner.Keys - g1.owner.Keys);
    LogsUnion(sb, g1.owner.Keys - g0.owner.Keys, g2.owner.Keys - g1.owner.Keys);
    assert Elems(m2) == Elems(mapped) + {b};
    ViaStep(g0.owner, bn0, mapped, b);
  }

  lemma ViaStep(owner0: Owner, bn0: nat, mapped: seq<nat>, b: nat)
    ensures ViaNew(owner0, bn0, mapped + [b])
            <==> ViaNew(owner0, bn0, mapped) || (bn0 + |mapped| >= NDIRECT && b !in owner0)
  {
    var m2 := mapped + [b];
    if ViaNew(owner0, bn0, mapped) {
      var k: nat :| k < |mapped| && bn0 + k >= NDIRECT && mapped[k] !in owner0;
      assert m2[k] == mapped[k];
    }
    if bn0 + |mapped| >= NDIRECT && b !in owner0 {
      assert m2[|mapped|] == b;
    }
    if ViaNew(owner0, bn0, m2) {
      var k: nat :| k < |m2| && bn0 + k >= NDIRECT && m2[k] !in owner0;
      assert k < |mapped| ==> m2[k] == mapped[k];
    }
  }

  /** The blocks to allocate for block bn0 + k of a file, when blocks bn0, bn0 + 1, ... are mapped in turn:
      the first one past the direct blocks may need the indirect block too. */
  function MissingAt(d: Disk, ip: Inode, bn0: nat, k: nat): nat
    requires IsInode(ip)
  {
    (if BlockOf(d, ip, bn0 + k) == 0 then 1 else 0)
    + (if bn0 + k >= NDIRECT && (k == 0 || bn0 + k == NDIRECT) && ip.addrs[NDIRECT] == 0 then 1 else 0)
  }

  /** The blocks to allocate for n blocks of a file from block bn0 on. */
  function Need(d: Disk, ip: Inode, bn0: nat, n: nat): nat
    requires IsInode(ip)
  {
    if n == 0 then 0 else Need(d, ip, bn0, n - 1) + MissingAt(d, ip, bn0, n - 1)
  }

  lemma {:induction false} NeedGrows(d: Disk, ip: Inode, bn0: nat, m: nat, n: nat)
    requires IsInode(ip) && m <= n
    ensures Need(d, ip, bn0, m) <= Need(d, ip, bn0, n)
  {
    if m < n {
      NeedGrows(d, ip, bn0, m, n - 1);
    }
  }

  /** From g0 to g the first k blocks of a write were mapped, and no more was allocated than they need. */
  ghost predicate Fitted(sb: Super, g0: Snap, g: Snap, i: nat, bn0: nat, k: nat)
    requires i < |g0.ino| && IsInode(g0.ino[i])
  {
    Room(sb, g.owner) + Need(g0.d, g0.ino[i], bn0, k) == Room(sb, g0.owner)
  }

  /** The file system g after writei, from g0, mapped the blocks `mapped`, logged the first w of them and
      wrote tot bytes. */
  ghost predicate Progress(sb: Super, g0: Snap, g: Snap, i: nat, off: nat, src: seq<int>, tot: nat, mapped: seq<nat>,
                           w: nat)
    requires AreInodes(g0.ino) && i < |g0.ino| && tot <= |src|
  {
    && Grown(g0.d, g0.ino, g.d, g.ino) && Wrote(g0.d, g0.ino, g.d, g.ino, i, off, src, tot)
    && Chain(g0, g, i, off / BSIZE, mapped)
    && OnlyNew(g0.owner, g.owner, mapped, g.ino[i].addrs[NDIRECT])
    && LogIs(sb, g0, g, off / BSIZE, mapped, w, g.ino[i].addrs[NDIRECT])
    && (off / BSIZE + |mapped| <= NDIRECT || mapped == [] ==> g.ino[i].addrs[NDIRECT] == g0.ino[i].addrs[NDIRECT])
    && DiskLogged(sb, g0.d, g.d, g.logged + Elems(mapped))
  }

  /** What bmap is missing for the next block is what the count for the whole write says. */
  lemma MissingNext(sb: Super, g0: Snap, g: Snap, i: nat, off: nat, src: seq<int>, tot: nat, mapped: seq<nat>)
    requires Linked(sb, g0) && Linked(sb, g) && i < |g0.ino| && tot <= |src| && off / BSIZE + |mapped| < MAXFILE
    requires Progress(sb, g0, g, i, off, src, tot, mapped, |mapped|)
    ensures Missing(g.d, g.ino[i], off / BSIZE + |mapped|) == MissingAt(g0.d, g0.ino[i], off / BSIZE, |mapped|)
  {
    var bn0 := off / BSIZE;
    var s := Data(i, bn0 + |mapped|);
    StillEmpty(sb, g0, g, i, bn0, mapped, s);
    assert Ref(g.d, g.ino, s) == BlockOf(g.d, g.ino[i], s.bn) && Ref(g0.d, g0.ino, s) == BlockOf(g0.d, g0.ino[i], s.bn);
    if |mapped| > 0 && bn0 + |mapped| > NDIRECT {
      assert mapped[|mapped| - 1] == BlockOf(g.d, g.ino[i], bn0 + |mapped| - 1) != 0;
    }
  }

  lemma MapStep(sb: Super, g0: Snap, g1: Snap, g2: Snap, i: nat, off: nat, src: seq<int>, tot: nat, mapped: seq<nat>,
                b: nat)
    requires Linked(sb, g0) && Linked(sb, g1) && i < |g0.ino| && tot <= |src| && off / BSIZE + |mapped| < MAXFILE
    requires Progress(sb, g0, g1, i, off, src, tot, mapped, |mapped|)
             && Mapped(sb, g1, g2, i, off / BSIZE + |mapped|, b)
    ensures Progress(sb, g0, g2, i, off, src, tot, mapped + [b], |mapped|)
    ensures LogIs(sb, g0, g2.(logged := g2.logged + {b}), off / BSIZE, mapped + [b], |mapped| + 1,
                  g2.ino[i].addrs[NDIRECT])
  {
    var bn0 := off / BSIZE;
    var x1, x2 := g1.ino[i].addrs[NDIRECT], g2.ino[i].addrs[NDIRECT];
    assert Ref(g1.d, g1.ino, Ind(i)) == x1 && Ref(g2.d, g2.ino, Ind(i)) == x2;
    ChainStep(sb, g0, g1, g2, i, bn0, mapped, b);
    NotYet(sb, g0, g1, g2, i, bn0, mapped, b);
    OnlyNewStep(sb, g1, g0.owner, g2.owner, mapped, b, x1, x2);
    LogStep(sb, g0, g1, g2, bn0, mapped, b, x1, x2);
    StrayLogged(sb, g0.d, g1.d, g2.d, g1.logged, g2.logged, mapped, b);
    WroteThenSame(g0.d, g0.ino, g1.d, g1.ino, g2.d, g2.ino, i, off, src, tot);
  }

  lemma StrayLogged(sb: Super, d: Disk, d1: Disk, d2: Disk, log1: set<nat>, log2: set<nat>, mapped: seq<nat>, b: nat)
    requires DiskLogged(sb, d, d1, log1 + Elems(mapped)) && DiskLogged(sb, d1, d2, log2) && log1 <= log2
    ensures DiskLogged(sb, d, d2, log2 + Elems(mapped + [b]))
  {
    LoggedMore(sb, d1, d2, log2, log2 + Elems(mapped + [b]));
    LoggedTwice(sb, d, d1, d2, log1 + Elems(mapped), log2 + Elems(mapped + [b]));
  }

  /** From g to g' the next m bytes were copied into block b. */
  lemma CopyStep(sb: Super, g0: Snap, g: Snap, g': Snap, i: nat, off: nat, src: seq<int>, tot: nat, m: nat,
                 mapped: seq<nat>, w: nat, b: nat)
    requires AreInodes(g0.ino) && i < |g0.ino| && tot + m <= |src| && |mapped| > 0
    requires IsDisk(sb, g.d) && Refs(sb, g.d, g.ino, g.owner)
    requires Progress(sb, g0, g, i, off, src, tot, mapped, |mapped| - 1)
    requires LogIs(sb, g0, g', off / BSIZE, mapped, w, g.ino[i].addrs[NDIRECT])
    requires (off + tot) % BSIZE + m <= BSIZE && (off + tot) / BSIZE < MAXFILE
    requires b == BlockOf(g.d, g.ino[i], (off + tot) / BSIZE) != 0 && b < sb.size && |g.d.bytes[b]| == BSIZE
    requires g'.d == g.d.(bytes := g.d.bytes[b := Splice(g.d.bytes[b], (off + tot) % BSIZE, src[tot..tot + m])])
    requires g'.ino == g.ino && g'.owner == g.owner
    requires mapped[|mapped| - 1] == b && g.logged <= g'.logged
    ensures Progress(sb, g0, g', i, off, src, tot + m, mapped, w)
  {
    OneLogged(sb, g.d, g'.d, b);
    LoggedMore(sb, g.d, g'.d, {b}, g'.logged + Elems(mapped));
    LoggedTwice(sb, g0.d, g.d, g'.d, g.logged + Elems(mapped), g'.logged + Elems(mapped));
    WriteStep(sb, g0.d, g0.ino, g.d, g.ino, g.owner, i, off, src, tot, m, b);
    forall s: Slot | IsSlot(g0.ino, s) && Ref(g0.d, g0.ino, s) != 0
      ensures Ref(g'.d, g.ino, s) == Ref(g0.d, g0.ino, s)
    {
      assert Ref(g.d, g.ino, s) == Ref(g0.d, g0.ino, s);
    }
    forall k: nat | k < |mapped| ensures mapped[k] == BlockOf(g'.d, g.ino[i], off / BSIZE + k) {
      assert mapped[k] == BlockOf(g.d, g.ino[i], off / BSIZE + k);
    }
  }

  /** The call of bmap in a round of writei's loop. */
  method MapChunk(fs: Fs, i: nat, off: nat, src: seq<int>, tot: nat, ghost g0: Snap, ghost mapped: seq<nat>)
    returns (stuck: bool, blk: nat)
    requires fs.Valid() && Linked(fs.sb, g0) && i < |g0.ino| && tot <= |src|
    requires Progress(fs.sb, g0, fs.Now(), i, off, src, tot, mapped, |mapped|)
    requires (off + tot) / BSIZE == off / BSIZE + |mapped| < MAXFILE
    modifies fs`d, fs`ino, fs`logged, fs`owner
    ensures stuck <==> Room(fs.sb, old(fs.owner)) < MissingAt(g0.d, g0.ino[i], off / BSIZE, |mapped|)
    ensures !stuck ==>
              && fs.Valid() && Progress(fs.sb, g0, fs.Now(), i, off, src, tot, mapped + [blk], |mapped|)
              && blk == BlockOf(fs.d, fs.ino[i], (off + tot) / BSIZE) != 0 && blk < fs.sb.size
              && LogIs(fs.sb, g0, fs.Now().(logged := fs.logged + {blk}), off / BSIZE, mapped + [blk], |mapped| + 1,
                       fs.ino[i].addrs[NDIRECT])
              && Room(fs.sb, fs.owner) + MissingAt(g0.d, g0.ino[i], off / BSIZE, |mapped|) == Room(fs.sb, old(fs.owner))
  {
    ghost var g1 := fs.Now();
    var bn := (off + tot) / BSIZE;
    MissingNext(fs.sb, g0, g1, i, off, src, tot, mapped);
    ghost var missing := MissingAt(g0.d, g0.ino[i], off / BSIZE, |mapped|);
    assert Missing(fs.d, fs.ino[i], bn) == missing;
    blk, stuck := fs.Bmap(i, bn);
    if !stuck {
      MapStep(fs.sb, g0, g1, fs.Now(), i, off, src, tot, mapped, blk);
    }
  }

  lemma InsideBlock(off: nat, n: nat, tot: nat, m: nat)
    requires tot < n && off + n <= MAXFILE * BSIZE && m == Min(n - tot, BSIZE - (off + tot) % BSIZE)
    ensures (off + tot) / BSIZE < MAXFILE && (off + tot) % BSIZE + m <= BSIZE && m > 0
  {
  }

  /** One round of writei's loop; `copied` tells whether the user copy succeeded. */
  method WriteChunk(fs: Fs, i: nat, off: nat, n: nat, src: seq<int>, tot: nat, ghost g0: Snap, ghost mapped: seq<nat>)
    returns (stuck: bool, m: nat, copied: bool, ghost b: nat)
    requires fs.Valid() && Linked(fs.sb, g0) && i < |g0.ino| && tot <= |src| && tot < n && off + n <= MAXFILE * BSIZE
    requires Progress(fs.sb, g0, fs.Now(), i, off, src, tot, mapped, |mapped|)
    requires (off + tot) / BSIZE == off / BSIZE + |mapped|
    modifies fs`d, fs`ino, fs`logged, fs`owner
    ensures m == Min(n - tot, BSIZE - (off + tot) % BSIZE) && (copied <==> tot + m <= |src|)
    ensures stuck <==> Room(fs.sb, old(fs.owner)) < MissingAt(g0.d, g0.ino[i], off / BSIZE, |mapped|)
    ensures !stuck ==>
              && fs.Valid()
              && (copied ==> Progress(fs.sb, g0, fs.Now(), i, off, src, tot + m, mapped + [b], |mapped + [b]|))
              && (!copied ==> Progress(fs.sb, g0, fs.Now(), i, off, src, |src|, mapped + [b], |mapped|))
              && Room(fs.sb, fs.owner) + MissingAt(g0.d, g0.ino[i], off / BSIZE, |mapped|) == Room(fs.sb, old(fs.owner))
  {
    m := Min(n - tot, BSIZE - (off + tot) % BSIZE);
    InsideBlock(off, n, tot, m);
    copied := tot + m <= |src|;
    var blk;
    stuck, blk := MapChunk(fs, i, off, src, tot, g0, mapped);
    b := blk;
    if stuck {
      return;
    }
    if copied {
      StoreChunk(fs, i, off, src, tot, m, true, blk, g0, mapped + [blk]);
    } else {
      StoreChunk(fs, i, off, src, tot, |src| - tot, false, blk, g0, mapped + [blk]);
    }
  }

  /** The user copy of m bytes into block blk and, if it was whole, its log_write. */
  method StoreChunk(fs: Fs, i: nat, off: nat, src: seq<int>, tot: nat, m: nat, copied: bool, blk: nat, ghost g0: Snap,
                    ghost mapped: seq<nat>)
    requires fs.Valid() && AreInodes(g0.ino) && i < |g0.ino| && tot + m <= |src| && |mapped| > 0 && i < |fs.ino|
    requires Progress(fs.sb, g0, fs.Now(), i, off, src, tot, mapped, |mapped| - 1)
    requires LogIs(fs.sb, g0, fs.Now().(logged := fs.logged + {blk}), off / BSIZE, mapped, |mapped|,
                   fs.ino[i].addrs[NDIRECT])
    requires (off + tot) % BSIZE + m <= BSIZE && (off + tot) / BSIZE < MAXFILE
             && blk == BlockOf(fs.d, fs.ino[i], (off + tot) / BSIZE) != 0 && blk < fs.sb.size
             && mapped[|mapped| - 1] == blk
    modifies fs`d, fs`logged
    ensures fs.Valid()
    ensures Progress(fs.sb, g0, fs.Now(), i, off, src, tot + m, mapped, if copied then |mapped| else |mapped| - 1)
  {
    ghost var g := fs.Now();
    assert IsBlock(fs.d, blk);
    fs.d := fs.d.(bytes := fs.d.bytes[blk := Splice(fs.d.bytes[blk], (off + tot) % BSIZE, src[tot..tot + m])]);
    if copied {
      fs.logged := fs.logged + {blk};
    }
    CopyStep(fs.sb, g0, g, fs.Now(), i, off, src, tot, m, mapped, if copied then |mapped| else |mapped| - 1, blk);
    BytesKeepRefs(fs.sb, g.d, fs.d, fs.ino, fs.owner);
  }

  ghost predicate Covers(d: Disk, ip: Inode, size: nat)
    requires IsInode(ip)
  {
    forall bn: nat {:trigger BlockOf(d, ip, bn)} :: bn < MAXFILE && bn * BSIZE < size ==> BlockOf(d, ip, bn) != 0
  }

  /** Raising the size over blocks that are there makes no hole. */
  lemma Resized(sb: Super, d: Disk, ino: seq<Inode>, owner: Owner, i: nat, size: nat)
    requires Refs(sb, d, ino, owner) && AllFull(d, ino) && i < |ino| && size <= MAXFILE * BSIZE
    requires Covers(d, ino[i], size)
    ensures Refs(sb, d, ino[i := ino[i].(size := size)], owner) && AllFull(d, ino[i := ino[i].(size := size)])
    ensures Wrote(d, ino, d, ino[i := ino[i].(size := size)], 0, 0, [], 0)
  {
    var ino' := ino[i := ino[i].(size := size)];
    forall s: Slot | IsSlot(ino', s) ensures Holds(d, ino', owner, s) {
      assert Holds(d, ino, owner, s);
    }
    forall b: nat | b in owner ensures HeldBy(sb, d, ino', owner, b) {
      assert HeldBy(sb, d, ino, owner, b);
    }
    forall j: nat | j < |ino'| ensures Full(d, ino'[j]) {
      assert Full(d, ino[j]);
      forall bn: nat | bn < MAXFILE ensures NoHole(d, ino'[j], bn) {
        assert NoHole(d, ino[j], bn);
        assert BlockOf(d, ino'[j], bn) == BlockOf(d, ino[j], bn);
      }
    }
  }

  /** The blocks under a write and below the old size cover the new size. */
  lemma Covered(g0: Snap, g: Snap, i: nat, off: nat, tot: nat, mapped: seq<nat>)
    requires AreInodes(g0.ino) && AreInodes(g.ino) && i < |g0.ino| == |g.ino| && Full(g.d, g.ino[i])
    requires g.ino[i].size == g0.ino[i].size && Chain(g0, g, i, off / BSIZE, mapped)
    requires off <= g.ino[i].size && off + tot <= (off / BSIZE + |mapped|) * BSIZE
    ensures Covers(g.d, g.ino[i], off + tot)
  {
    forall bn: nat | bn < MAXFILE && bn * BSIZE < off + tot ensures BlockOf(g.d, g.ino[i], bn) != 0 {
      assert NoHole(g.d, g.ino[i], bn);
      if bn * BSIZE >= g.ino[i].size {
        assert bn >= off / BSIZE;
        assert mapped[bn - off / BSIZE] == BlockOf(g.d, g.ino[i], bn);
      }
    }
  }

  /** Where writei stops: at n, or before the first chunk the user copy fails for. */
  predicate Stops(off: nat, n: nat, avail: nat, r: nat) {
    && r <= n && r <= avail
    && (r < n ==> (r == 0 || (off + r) % BSIZE == 0) && r + Min(n - r, BSIZE - (off + r) % BSIZE) > avail)
  }

  /** At the head of writei's loop with k blocks mapped. */
  predicate Position(off: nat, n: nat, tot: nat, k: nat) {
    && tot <= n && (tot == 0 <==> k == 0)
    && (tot < n ==> (off + tot) / BSIZE == off / BSIZE + k && (tot == 0 || (off + tot) % BSIZE == 0))
    && (k > 0 ==> (off / BSIZE + k - 1) * BSIZE < off + tot <= (off / BSIZE + k) * BSIZE)
  }

  /** k blocks hold the tot bytes written, and each holds a byte to be written. */
  predicate Spans(off: nat, n: nat, tot: nat, k: nat) {
    && (tot > 0 ==> off + tot <= (off / BSIZE + k) * BSIZE)
    && (k > 0 ==> (off / BSIZE + k - 1) * BSIZE < off + n)
  }

  lemma PositionStep(off: nat, n: nat, tot: nat, m: nat, k: nat)
    requires Position(off, n, tot, k) && tot < n && m == Min(n - tot, BSIZE - (off + tot) % BSIZE)
    ensures m > 0 && Position(off, n, tot + m, k + 1) && Spans(off, n, tot, k + 1)
  {
    assert (off + tot + m) % BSIZE == 0 || tot + m == n;
  }

  /** The number of blocks writei asks bmap for: those of the n bytes, or up to the one whose user copy
      fails. */
  function Rounds(off: nat, n: nat, avail: nat): nat {
    if n == 0 then 0 else (off + Min(n - 1, avail)) / BSIZE - off / BSIZE + 1
  }

  /** In state g the free blocks do not suffice for n bytes at offset off of file i. */
  ghost predicate CannotFit(sb: Super, g: Snap, i: nat, off: nat, n: nat, avail: nat)
    requires i < |g.ino| && IsInode(g.ino[i])
  {
    Room(sb, g.owner) < Need(g.d, g.ino[i], off / BSIZE, Rounds(off, n, avail))
  }

  /** At the head of writei's loop, with tot bytes written. */
  ghost predicate Writing(sb: Super, g0: Snap, g: Snap, i: nat, off: nat, n: nat, src: seq<int>, tot: nat,
                          mapped: seq<nat>) {
    && AreInodes(g0.ino) && i < |g0.ino| && tot <= |src| && Position(off, n, tot, |mapped|)
    && Progress(sb, g0, g, i, off, src, tot, mapped, |mapped|) && Fitted(sb, g0, g, i, off / BSIZE, |mapped|)
  }

  lemma NextPlace(off: nat, n: nat, avail: nat, tot: nat, m: nat, k: nat)
    requires Position(off, n, tot, k) && tot < n && tot <= avail && m == Min(n - tot, BSIZE - (off + tot) % BSIZE)
    ensures m > 0 && Spans(off, n, tot, k + 1) && Position(off, n, tot + m, k + 1) && k < Rounds(off, n, avail)
    ensures tot + m > avail ==> Stops(off, n, avail, tot) && Rounds(off, n, avail) == k + 1
  {
    PositionStep(off, n, tot, m, k);
    SameBlock(off + tot, off + Min(n - 1, avail), m);
  }

  lemma SameBlock(p: nat, q: nat, m: nat)
    requires p <= q && p % BSIZE + m <= BSIZE
    ensures p / BSIZE <= q / BSIZE && (q < p + m ==> q / BSIZE == p / BSIZE)
  {
  }

  /** With k blocks mapped there is no room for the next. */
  lemma RunsShort(sb: Super, g0: Snap, g: Snap, i: nat, off: nat, n: nat, avail: nat, tot: nat, k: nat)
    requires AreInodes(g0.ino) && i < |g0.ino| && Fitted(sb, g0, g, i, off / BSIZE, k)
    requires Position(off, n, tot, k) && tot < n && tot <= avail
    requires Room(sb, g.owner) < MissingAt(g0.d, g0.ino[i], off / BSIZE, k)
    ensures CannotFit(sb, g0, i, off, n, avail)
  {
    NextPlace(off, n, avail, tot, Min(n - tot, BSIZE - (off + tot) % BSIZE), k);
    NeedGrows(g0.d, g0.ino[i], off / BSIZE, k + 1, Rounds(off, n, avail));
  }

  /** The next m bytes were written to block b. */
  lemma WritesOn(sb: Super, g0: Snap, g1: Snap, g2: Snap, i: nat, off: nat, n: nat, src: seq<int>, tot: nat, m: nat,
                 mapped: seq<nat>, b: nat)
    requires Writing(sb, g0, g1, i, off, n, src, tot, mapped) && tot < n
    requires m == Min(n - tot, BSIZE - (off + tot) % BSIZE) && tot + m <= |src|
    requires Progress(sb, g0, g2, i, off, src, tot + m, mapped + [b], |mapped + [b]|)
    requires Room(sb, g2.owner) + MissingAt(g0.d, g0.ino[i], off / BSIZE, |mapped|) == Room(sb, g1.owner)
    ensures m > 0 && Writing(sb, g0, g2, i, off, n, src, tot + m, mapped + [b])
  {
    NextPlace(off, n, |src|, tot, m, |mapped|);
  }

  /** Block b was mapped, but the bytes could not be copied. */
  lemma WriteStops(sb: Super, g0: Snap, g1: Snap, g2: Snap, i: nat, off: nat, n: nat, src: seq<int>, tot: nat, m: nat,
                   mapped: seq<nat>, b: nat)
    requires Writing(sb, g0, g1, i, off, n, src, tot, mapped) && tot < n
    requires m == Min(n - tot, BSIZE - (off + tot) % BSIZE) && tot + m > |src|
    requires Room(sb, g2.owner) + MissingAt(g0.d, g0.ino[i], off / BSIZE, |mapped|) == Room(sb, g1.owner)
    ensures Stops(off, n, |src|, tot) && Spans(off, n, tot, |mapped + [b]|) && !CannotFit(sb, g0, i, off, n, |src|)
    ensures |mapped + [b]| == Rounds(off, n, |src|) && Fitted(sb, g0, g2, i, off / BSIZE, |mapped + [b]|)
  {
    NextPlace(off, n, |src|, tot, m, |mapped|);
  }

  /** One round, seen from the whole write. */
  method WriteRound(fs: Fs, i: nat, off: nat, n: nat, src: seq<int>, tot: nat, ghost g0: Snap, ghost mapped: seq<nat>)
    returns (stuck: bool, tot': nat, copied: bool, ghost mapped': seq<nat>)
    requires fs.Valid() && Linked(fs.sb, g0) && tot < n && off + n <= MAXFILE * BSIZE
    requires Writing(fs.sb, g0, fs.Now(), i, off, n, src, tot, mapped)
    modifies fs`d, fs`ino, fs`logged, fs`owner
    ensures stuck ==> CannotFit(fs.sb, g0, i, off, n, |src|)
    ensures !stuck ==> fs.Valid()
    ensures !stuck && copied ==> tot < tot' && Writing(fs.sb, g0, fs.Now(), i, off, n, src, tot', mapped')
    ensures !stuck && !copied ==>
              && tot' == tot && |src| < n && Stops(off, n, |src|, tot) && Spans(off, n, tot, |mapped'|)
              && Progress(fs.sb, g0, fs.Now(), i, off, src, |src|, mapped', |mapped|)
              && |mapped'| == Rounds(off, n, |src|) && Fitted(fs.sb, g0, fs.Now(), i, off / BSIZE, |mapped'|)
              && !CannotFit(fs.sb, g0, i, off, n, |src|)
              && |mapped'| == |mapped| + 1 && (off + tot) / BSIZE == off / BSIZE + |mapped|
  {
    var m;
    ghost var g1, b := fs.Now(), 0;
    stuck, m, copied, b := WriteChunk(fs, i, off, n, src, tot, g0, mapped);
    mapped' := mapped + [b];
    if stuck {
      RunsShort(fs.sb, g0, g1, i, off, n, |src|, tot, |mapped|);
      tot' := tot;
    } else if copied {
      WritesOn(fs.sb, g0, g1, fs.Now(), i, off, n, src, tot, m, mapped, b);
      tot' := tot + m;
    } else {
      WriteStops(fs.sb, g0, g1, fs.Now(), i, off, n, src, tot, m, mapped, b);
      tot' := tot;
    }
  }

  /** writei's loop.  A chunk whose user copy fails halfway is in the block as far as it could be read, but
      is not logged and not counted. */
  method WriteLoop(fs: Fs, i: nat, off: nat, n: nat, src: seq<int>)
    returns (stuck: bool, tot: nat, ghost mapped: seq<nat>, ghost w: nat)
    requires fs.Valid() && i < |fs.ino| && off + n <= MAXFILE * BSIZE
    modifies fs`d, fs`ino, fs`logged, fs`owner
    ensures stuck <==> CannotFit(fs.sb, old(fs.Now()), i, off, n, |src|)
    ensures !stuck ==>
              && fs.Valid() && Stops(off, n, |src|, tot) && Spans(off, n, tot, |mapped|)
              && Progress(fs.sb, old(fs.Now()), fs.Now(), i, off, src, Min(n, |src|), mapped, w)
              && |mapped| == Rounds(off, n, |src|) && Fitted(fs.sb, old(fs.Now()), fs.Now(), i, off / BSIZE, |mapped|)
              && (tot == n ==> w == |mapped|)
              && (tot < n ==> w + 1 == |mapped| && (off + tot) / BSIZE == off / BSIZE + w)
  {
    mapped, w, tot, stuck := [], 0, 0, false;
    ghost var g0 := fs.Now();
    Start(fs.sb, g0, i, off, src);
    while tot < n
      invariant !stuck && fs.Valid() && w == |mapped| && Writing(fs.sb, g0, fs.Now(), i, off, n, src, tot, mapped)
    {
      var copied;
      stuck, tot, copied, mapped := WriteRound(fs, i, off, n, src, tot, g0, mapped);
      if stuck || !copied {
        return;
      }
      w := |mapped|;
    }
    WriteEnds(fs.sb, g0, fs.Now(), i, off, n, src, mapped);
  }

  ghost predicate SetAt(g0: Snap, g: Snap, i: nat, bn0: nat, m: nat, bn: nat) {
    && i < |g0.ino| == |g.ino| && IsInode(g0.ino[i]) && IsInode(g.ino[i])
    && (BlockOf(g.d, g.ino[i], bn) == 0 <==> BlockOf(g0.d, g0.ino[i], bn) == 0 && !(bn0 <= bn < bn0 + m))
  }

  /** From g0 to g the blocks bn0, bn0 + 1, ..., m of them, of file i were mapped and no others: of the file's
      pointers these are set, and the free blocks are fewer by what was missing. */
  ghost predicate Reached(sb: Super, g0: Snap, g: Snap, i: nat, bn0: nat, m: nat) {
    && AreInodes(g0.ino) && AreInodes(g.ino) && i < |g0.ino| == |g.ino| && Fitted(sb, g0, g, i, bn0, m)
    && (forall bn: nat {:trigger SetAt(g0, g, i, bn0, m, bn)} :: bn < MAXFILE ==> SetAt(g0, g, i, bn0, m, bn))
    && (g.ino[i].addrs[NDIRECT] == 0 <==> g0.ino[i].addrs[NDIRECT] == 0 && (m == 0 || bn0 + m <= NDIRECT))
  }

  lemma ReachedBlock(sb: Super, g0: Snap, g: Snap, i: nat, bn0: nat, mapped: seq<nat>, bn: nat)
    requires Linked(sb, g0) && Linked(sb, g) && i < |g0.ino| && Grown(g0.d, g0.ino, g.d, g.ino) && bn < MAXFILE
    requires Chain(g0, g, i, bn0, mapped) && OnlyNew(g0.owner, g.owner, mapped, g.ino[i].addrs[NDIRECT])
    ensures SetAt(g0, g, i, bn0, |mapped|, bn)
  {
    var s := Data(i, bn);
    assert Ref(g.d, g.ino, s) == BlockOf(g.d, g.ino[i], bn) && Ref(g0.d, g0.ino, s) == BlockOf(g0.d, g0.ino[i], bn);
    if bn0 <= bn < bn0 + |mapped| {
      assert mapped[bn - bn0] == BlockOf(g.d, g.ino[i], bn);
    } else {
      StillEmpty(sb, g0, g, i, bn0, mapped, s);
    }
  }

  lemma ReachedWith(sb: Super, g0: Snap, g: Snap, i: nat, bn0: nat, mapped: seq<nat>)
    requires Linked(sb, g0) && Linked(sb, g) && i < |g0.ino| && Grown(g0.d, g0.ino, g.d, g.ino)
    requires Chain(g0, g, i, bn0, mapped) && OnlyNew(g0.owner, g.owner, mapped, g.ino[i].addrs[NDIRECT])
    requires bn0 + |mapped| <= NDIRECT || mapped == [] ==> g.ino[i].addrs[NDIRECT] == g0.ino[i].addrs[NDIRECT]
    requires Fitted(sb, g0, g, i, bn0, |mapped|)
    ensures Reached(sb, g0, g, i, bn0, |mapped|)
  {
    forall bn: nat | bn < MAXFILE ensures SetAt(g0, g, i, bn0, |mapped|, bn) {
      ReachedBlock(sb, g0, g, i, bn0, mapped, bn);
    }
    assert Ref(g.d, g.ino, Ind(i)) == g.ino[i].addrs[NDIRECT] && Ref(g0.d, g0.ino, Ind(i)) == g0.ino[i].addrs[NDIRECT];
    if mapped != [] && bn0 + |mapped| > NDIRECT {
      assert mapped[|mapped| - 1] == BlockOf(g.d, g.ino[i], bn0 + |mapped| - 1) != 0;
    }
  }

  lemma ReachedSame(sb: Super, g0: Snap, g: Snap, g': Snap, i: nat, bn0: nat, m: nat)
    requires Reached(sb, g0, g, i, bn0, m) && AreInodes(g'.ino) && |g'.ino| == |g.ino|
    requires g'.d == g.d && g'.owner == g.owner && g'.ino[i].addrs == g.ino[i].addrs
    ensures Reached(sb, g0, g', i, bn0, m)
  {
    forall bn: nat | bn < MAXFILE ensures SetAt(g0, g', i, bn0, m, bn) {
      assert SetAt(g0, g, i, bn0, m, bn);
    }
  }

  lemma AllBlocks(off: nat, n: nat, avail: nat, k: nat)
    requires n <= avail && Position(off, n, n, k)
    ensures Rounds(off, n, avail) == k && Stops(off, n, avail, n) && Spans(off, n, n, k)
  {
  }

  lemma WriteEnds(sb: Super, g0: Snap, g: Snap, i: nat, off: nat, n: nat, src: seq<int>, mapped: seq<nat>)
    requires n <= |src| && Writing(sb, g0, g, i, off, n, src, n, mapped)
    ensures !CannotFit(sb, g0, i, off, n, |src|) && Stops(off, n, |src|, n) && Spans(off, n, n, |mapped|)
    ensures |mapped| == Rounds(off, n, |src|)
  {
    AllBlocks(off, n, |src|, |mapped|);
  }

  lemma Start(sb: Super, g: Snap, i: nat, off: nat, src: seq<int>)
    requires AreInodes(g.ino) && i < |g.ino| && |g.d.words| == |g.d.bytes|
    ensures Progress(sb, g, g, i, off, src, 0, [], 0)
  {
    assert g.owner.Keys - g.owner.Keys == {};
    LogsOne(sb, 0);
    NothingLogged(sb, g.d, g.logged + Elems([]));
  }

  /** c with w written at off. */
  function Overwrite(c: seq<int>, off: nat, w: seq<int>): (r: seq<int>)
    requires off <= |c|
  {
    c[..off] + w + (if off + |w| < |c| then c[off + |w|..] else [])
  }

  /** c after a write at off that put w in the blocks and counts the first r bytes of it. */
  function Written(c: seq<int>, off: nat, w: seq<int>, r: nat): (s: seq<int>)
    requires off <= |c| && r <= |w|
  {
    Overwrite(c, off, w)[..if off + r > |c| then off + r else |c|]
  }

  /** All files as byte sequences. */
  ghost function Files(d: Disk, ino: seq<Inode>): (f: seq<seq<int>>)
    requires AreInodes(ino)
    ensures |f| == |ino| && forall i :: 0 <= i < |ino| ==> f[i] == Content(d, ino[i])
  {
    seq(|ino|, i requires 0 <= i < |ino| => Content(d, ino[i]))
  }

  lemma WroteFile(d0: Disk, ino0: seq<Inode>, d: Disk, ino: seq<Inode>, i0: nat, off: nat, src: seq<int>, r: nat,
                  k: nat, i: nat)
    requires AreInodes(ino0) && AreInodes(ino) && i < |ino| == |ino0| && i0 < |ino0|
             && off <= ino0[i0].size <= MAXFILE * BSIZE && r <= k <= |src|
    requires Wrote(d0, ino0, d, ino, i0, off, src, k) && ino[i].size <= MAXFILE * BSIZE
    requires ino[i].size == if i == i0 && off + r > ino0[i].size then off + r else ino0[i].size
    ensures Content(d, ino[i])
            == if i == i0 then Written(Content(d0, ino0[i0]), off, src[..k], r) else Content(d0, ino0[i])
  {
    var c0, c := Content(d0, ino0[i]), Content(d, ino[i]);
    forall p: nat | p < |c| ensures c[p] == if i == i0 && off <= p < off + k then src[p - off] else c0[p] {
      var bn, o := p / BSIZE, p % BSIZE;
      assert p == bn * BSIZE + o && bn < MAXFILE;
      assert FileByte(d, ino, i, bn, o) == if i == i0
             && off <= p < off + k then src[p - off] else FileByte(d0, ino0, i, bn, o);
    }
    if i == i0 {
      var w := Written(c0, off, src[..k], r);
      assert |w| == |c|;
      assert forall p: nat :: p < |c| ==> w[p] == c[p];
    }
  }

  lemma WroteFiles(d0: Disk, ino0: seq<Inode>, d: Disk, ino: seq<Inode>, i0: nat, off: nat, src: seq<int>, r: nat,
                   k: nat)
    requires AreInodes(ino0) && AreInodes(ino) && i0 < |ino| == |ino0| && off <= ino0[i0].size && r <= k <= |src|
    requires AllFull(d0, ino0) && AllFull(d, ino) && Wrote(d0, ino0, d, ino, i0, off, src, k)
    requires forall i :: 0 <= i < |ino| ==>
               ino[i].size == if i == i0 && off + r > ino0[i].size then off + r else ino0[i].size
    ensures Files(d, ino) == Files(d0, ino0)[i0 := Written(Files(d0, ino0)[i0], off, src[..k], r)]
  {
    forall i: nat | i < |ino|
      ensures Content(d, ino[i])
              == if i == i0 then Written(Content(d0, ino0[i0]), off, src[..k], r) else Content(d0, ino0[i])
    {
      assert Full(d0, ino0[i]) && Full(d, ino[i]) && Full(d0, ino0[i0]);
      WroteFile(d0, ino0, d, ino, i0, off, src, r, k, i);
    }
  }

  /** The arguments writei refuses. */
  predicate Refused(size: nat, off: nat, n: nat) {
    off > size || off + n >= U32 || off + n > MAXFILE * BSIZE
  }

  /** What one writei call logs. */
  ghost predicate LogOfWrite(sb: Super, g0: Snap, g: Snap, i: nat, off: nat, n: nat, r: nat, mapped: seq<nat>, w: nat)
    requires AreInodes(g0.ino) && AreInodes(g.ino) && i < |g0.ino| == |g.ino|
  {
    && Kept(g0.d, g0.ino, g.d, g.ino) && Chain(g0, g, i, off / BSIZE, mapped) && Spans(off, n, r, |mapped|)
    && OnlyNew(g0.owner, g.owner, mapped, g.ino[i].addrs[NDIRECT]) && (r == n ==> w == |mapped|)
    && IBLOCK(sb, i) in g.logged
    && exists before :: LogIs(sb, g0, g.(logged := before), off / BSIZE, mapped, w, g.ino[i].addrs[NDIRECT])
                        && g.logged == before + {IBLOCK(sb, i)}
  }

  lemma SameChain(g0: Snap, g1: Snap, g: Snap, i: nat, bn0: nat, mapped: seq<nat>)
    requires AreInodes(g0.ino) && AreInodes(g1.ino) && AreInodes(g.ino) && i < |g0.ino| == |g1.ino| == |g.ino|
    requires g.ino[i].addrs == g1.ino[i].addrs && g.d == g1.d && g.owner == g1.owner && Chain(g0, g1, i, bn0, mapped)
    ensures Chain(g0, g, i, bn0, mapped)
  {
    forall k: nat | k < |mapped|
      ensures && bn0 + k < MAXFILE && mapped[k] == BlockOf(g.d, g.ino[i], bn0 + k) != 0 && mapped[k] in g.owner
              && (mapped[k] in g0.owner <==> BlockOf(g0.d, g0.ino[i], bn0 + k) != 0)
    {
      assert mapped[k] == BlockOf(g.d, g1.ino[i], bn0 + k);
    }
  }

  /** The block of the chunk writei stopped at, whose bytes are not logged. */
  ghost function Stray(g: Snap, i: nat, off: nat, n: nat, r: nat): set<nat>
    requires AreInodes(g.ino) && i < |g.ino|
  {
    if r == n then {} else {BlockOf(g.d, g.ino[i], (off + r) / BSIZE)}
  }

  /** All that writei changes on disk is logged, but for that block. */
  lemma WriteLogged(sb: Super, g0: Snap, g1: Snap, g: Snap, i: nat, off: nat, n: nat, src: seq<int>, tot: nat, k: nat,
                    mapped: seq<nat>, w: nat)
    requires AreInodes(g0.ino) && AreInodes(g.ino) && i < |g0.ino| == |g.ino| && k <= |src| && tot <= n
    requires Progress(sb, g0, g1, i, off, src, k, mapped, w) && (tot == n ==> w == |mapped|)
    requires tot < n ==> w + 1 == |mapped| && (off + tot) / BSIZE == off / BSIZE + w
    requires g.d == g1.d && g1.logged <= g.logged && g.ino[i].addrs == g1.ino[i].addrs
    ensures DiskLogged(sb, g0.d, g.d, g.logged + Stray(g, i, off, n, tot))
  {
    var stray := Stray(g, i, off, n, tot);
    forall b | b in Elems(mapped) ensures b in g.logged + stray {
      var j: nat :| j < |mapped| && mapped[j] == b;
      if j < w {
        assert mapped[..w][j] == b;
      } else {
        assert mapped[j] == BlockOf(g1.d, g1.ino[i], off / BSIZE + j);
        assert BlockOf(g.d, g.ino[i], off / BSIZE + j) == BlockOf(g1.d, g1.ino[i], off / BSIZE + j);
      }
    }
    LoggedMore(sb, g0.d, g.d, g1.logged + Elems(mapped), g.logged + stray);
  }

  /** After the loop, at g1, writei sets the size and calls iupdate. */
  lemma LogAfter(sb: Super, g0: Snap, g1: Snap, g: Snap, i: nat, off: nat, n: nat, src: seq<int>, tot: nat,
                 k: nat, mapped: seq<nat>, w: nat)
    requires AreInodes(g0.ino) && i < |g0.ino| == |g1.ino| && k <= |src| && Spans(off, n, tot, |mapped|)
    requires (tot == n ==> w == |mapped|) && Progress(sb, g0, g1, i, off, src, k, mapped, w)
    requires |g.ino| == |g1.ino| && g.ino == g1.ino[i := g1.ino[i].(size := g.ino[i].size)]
    requires g.d == g1.d && g.owner == g1.owner && g.logged == g1.logged + {IBLOCK(sb, i)}
    ensures LogOfWrite(sb, g0, g, i, off, n, tot, mapped, w)
  {
    forall s: Slot | IsSlot(g0.ino, s) && Ref(g0.d, g0.ino, s) != 0 ensures Ref(g.d, g.ino, s) == Ref(g0.d, g0.ino, s) {
      assert Ref(g1.d, g1.ino, s) == Ref(g0.d, g0.ino, s);
    }
    SameChain(g0, g1, g, i, off / BSIZE, mapped);
    assert LogIs(sb, g0, g.(logged := g1.logged), off / BSIZE, mapped, w, g.ino[i].addrs[NDIRECT]);
  }

  /** if(off > ip->size) ip->size = off, with off advanced by the tot bytes written. */
  method SetSize(fs: Fs, i: nat, off: nat, src: seq<int>, tot: nat, ghost k: nat, ghost g0: Snap,
                 ghost mapped: seq<nat>, ghost w: nat)
    requires fs.Valid() && AreInodes(g0.ino) && i < |g0.ino| == |fs.ino| && k <= |src| && off <= g0.ino[i].size
    requires off + tot <= MAXFILE * BSIZE && (tot > 0 ==> off + tot <= (off / BSIZE + |mapped|) * BSIZE)
    requires Progress(fs.sb, g0, fs.Now(), i, off, src, k, mapped, w)
    modifies fs`ino
    ensures fs.Valid() && Wrote(g0.d, g0.ino, fs.d, fs.ino, i, off, src, k)
    ensures var size := if off + tot > g0.ino[i].size then off + tot else g0.ino[i].size;
            fs.ino == old(fs.ino)[i := old(fs.ino)[i].(size := size)]
  {
    if off + tot > fs.ino[i].size {
      ghost var g1 := fs.Now();
      assert Full(fs.d, fs.ino[i]);
      Covered(g0, g1, i, off, tot, mapped);
      Resized(fs.sb, fs.d, fs.ino, fs.owner, i, off + tot);
      fs.ino := fs.ino[i := fs.ino[i].(size := off + tot)];
      WroteThenSame(g0.d, g0.ino, fs.d, g1.ino, fs.d, fs.ino, i, off, src, k);
    }
  }

  /** The part of writei after its loop: the size and the inode block. */
  method FinishWrite(fs: Fs, i: nat, off: nat, n: nat, src: seq<int>, tot: nat, ghost k: nat, ghost g0: Snap,
                     ghost mapped: seq<nat>, ghost w: nat)
    requires fs.Valid() && AreInodes(g0.ino) && AllFull(g0.d, g0.ino) && i < |g0.ino| == |fs.ino|
             && tot <= k <= |src| && k <= n
    requires off <= g0.ino[i].size && off + n <= MAXFILE * BSIZE && Spans(off, n, tot, |mapped|)
             && (tot == n ==> w == |mapped|)
    requires Progress(fs.sb, g0, fs.Now(), i, off, src, k, mapped, w)
    modifies fs`ino, fs`dinode, fs`logged
    ensures fs.Valid() && fs.dinode == old(fs.dinode)[i := fs.ino[i]]
    ensures fs.d == old(fs.d) && fs.owner == old(fs.owner) && fs.ino[i].addrs == old(fs.ino[i]).addrs
    ensures old(fs.logged) <= fs.logged && InodesLogged(fs.sb, old(fs.dinode), fs.dinode, fs.logged)
    ensures Files(fs.d, fs.ino) == Files(g0.d, g0.ino)[i := Written(Files(g0.d, g0.ino)[i], off, src[..k], tot)]
    ensures LogOfWrite(fs.sb, g0, fs.Now(), i, off, n, tot, mapped, w)
  {
    ghost var g1 := fs.Now();
    SetSize(fs, i, off, src, tot, k, g0, mapped, w);
    WroteFiles(g0.d, g0.ino, fs.d, fs.ino, i, off, src, tot, k);
    fs.Iupdate(i);
    LogAfter(fs.sb, g0, g1, fs.Now(), i, off, n, src, tot, k, mapped, w);
  }

  /** writei overwrites the byte sequence of one file, extending it if need be, and no other file; it
      panics exactly when the free blocks do not suffice.  Of the bytes that can be read, those before the
      end of the file are in it even if their chunk failed. */
  method Writei(fs: Fs, i: nat, off: nat, n: nat, src: seq<int>)
    returns (r: int, stuck: bool, ghost mapped: seq<nat>, ghost w: nat)
    requires fs.Valid() && i < |fs.ino| && off < U32 && n < U32
    modifies fs`d, fs`ino, fs`dinode, fs`logged, fs`owner
    ensures r == -1 <==> Refused(old(fs.ino)[i].size, off, n)
    ensures r == -1 ==> fs.Now() == old(fs.Now()) && fs.dinode == old(fs.dinode)
    ensures stuck <==> !Refused(old(fs.ino)[i].size, off, n) && CannotFit(fs.sb, old(fs.Now()), i, off, n, |src|)
    ensures !stuck && r != -1 ==>
              && fs.Valid() && r >= 0 && Stops(off, n, |src|, r)
              && Files(fs.d, fs.ino)
                 == Files(old(fs.d), old(fs.ino))
                    [i := Written(Files(old(fs.d), old(fs.ino))[i], off, src[..Min(n, |src|)], r)]
              && fs.dinode == old(fs.dinode)[i := fs.ino[i]]
              && LogOfWrite(fs.sb, old(fs.Now()), fs.Now(), i, off, n, r, mapped, w)
              && Reached(fs.sb, old(fs.Now()), fs.Now(), i, off / BSIZE, Rounds(off, n, |src|))
              && DiskLogged(fs.sb, old(fs.d), fs.d, fs.logged + Stray(fs.Now(), i, off, n, r))
              && InodesLogged(fs.sb, old(fs.dinode), fs.dinode, fs.logged)
  {
    mapped, w := [], 0;
    if off > fs.ino[i].size || (off + n) % U32 < off {
      return -1, false, mapped, w;
    }
    if off + n > MAXFILE * BSIZE {
      return -1, false, mapped, w;
    }
    var tot;
    stuck, tot, mapped, w := WriteLoop(fs, i, off, n, src);
    r := tot;
    if stuck {
      return;
    }
    ghost var g := fs.Now();
    FinishWrite(fs, i, off, n, src, tot, Min(n, |src|), old(fs.Now()), mapped, w);
    WriteLogged(fs.sb, old(fs.Now()), g, fs.Now(), i, off, n, src, tot, Min(n, |src|), mapped, w);
    ReachedWith(fs.sb, old(fs.Now()), g, i, off / BSIZE, mapped);
    ReachedSame(fs.sb, old(fs.Now()), g, fs.Now(), i, off / BSIZE, |mapped|);
  }

  function At(mapped: seq<nat>, k: nat, ind: nat): nat {
    if k < |mapped| then mapped[k] else ind
  }

  /** At most ten blocks that hold every block such a transaction logs. */
  ghost function Budget(sb: Super, i: nat, ind: nat, mapped: seq<nat>, aligned: bool): (s: seq<nat>)
    ensures |s| <= MAXOPBLOCKS
  {
    var t := (k: nat) => At(mapped, k, ind);
    if aligned then
      [IBLOCK(sb, i), ind, BBLOCK(sb, ind), t(0), BBLOCK(sb, t(0)), t(1), BBLOCK(sb, t(1)), t(2), BBLOCK(sb, t(2))]
    else
      [IBLOCK(sb, i), ind, BBLOCK(sb, ind), t(0), t(1), BBLOCK(sb, t(1)), t(2), BBLOCK(sb, t(2)), t(3),
       BBLOCK(sb, t(3))]
  }

  lemma InBudget(sb: Super, owner0: Owner, owner: Owner, i: nat, ind: nat, mapped: seq<nat>, aligned: bool)
    requires OnlyNew(owner0, owner, mapped, ind)
    requires if aligned then |mapped| <= 3 else |mapped| <= 4 && (|mapped| > 0 ==> mapped[0] in owner0)
    ensures var s := Budget(sb, i, ind, mapped, aligned);
            && ind in s && IBLOCK(sb, i) in s && (forall b :: b in mapped ==> b in s)
            && forall b :: b in owner && b !in owner0 ==> b in s && BBLOCK(sb, b) in s
  {
    var s := Budget(sb, i, ind, mapped, aligned);
    forall k: nat | k < |mapped| ensures mapped[k] in s && (mapped[k] !in owner0 ==> BBLOCK(sb, mapped[k]) in s) {
      assert mapped[k] == At(mapped, k, ind);
      assert k == 0 || k == 1 || k == 2 || k == 3;
    }
    forall b | b in owner && b !in owner0 ensures b in s && BBLOCK(sb, b) in s {
      if b != ind {
        var k: nat :| k < |mapped| && mapped[k] == b;
      }
    }
  }

  /** A write of at most three blocks, at any offset of a file without holes, logs at most
      MAXOPBLOCKS distinct blocks. */
  lemma TransactionBound(sb: Super, g0: Snap, g: Snap, i: nat, off: nat, n: nat, r: nat, mapped: seq<nat>, w: nat)
    requires AreInodes(g0.ino) && AreInodes(g.ino) && i < |g0.ino| == |g.ino| && Full(g0.d, g0.ino[i])
    requires off <= g0.ino[i].size && n <= 3 * BSIZE && g0.logged == {}
    requires LogOfWrite(sb, g0, g, i, off, n, r, mapped, w)
    ensures |g.logged| <= MAXOPBLOCKS
  {
    var ind, aligned := g.ino[i].addrs[NDIRECT], off % BSIZE == 0;
    if !aligned && |mapped| > 0 {
      assert NoHole(g0.d, g0.ino[i], off / BSIZE);
      assert mapped[0] in g0.owner;
    }
    InBudget(sb, g0.owner, g.owner, i, ind, mapped, aligned);
    var s := Budget(sb, i, ind, mapped, aligned);
    var before :| LogIs(sb, g0, g.(logged := before), off / BSIZE, mapped, w, ind)
      && g.logged == before + {IBLOCK(sb, i)};
    forall x | x in g.logged ensures x in s {
      if x in Elems(mapped[..w]) {
        assert x in mapped;
      }
    }
    assert g.logged <= Elems(s);
    SubsetCard(g.logged, Elems(s));
    ElemsCard(s);
  }
}
