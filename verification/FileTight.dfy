/** The bound on the blocks of one transaction is reached. */
module FileTight {
  import opened Counting
  import opened FsState
  import opened FileSystem
  import opened FileWrites

  /** A disk with four bitmap blocks. */
  const SB := Super(24577, 62, 32, 36, 8181)

  /** One free block under each bitmap block. */
  predicate IsFree(b: nat) {
    b == 8191 || b == 8193 || b == 16532 || b == 24576
  }

  /** From block 8192 on, every 269 blocks belong to one inode: its indirect block, then its data. */
  function First(i: nat): nat
    requires i > 0
  {
    8192 + (i - 1) * 269
  }

  function Taken(b: nat): nat {
    if b < 24576 && !IsFree(b) then b else 0
  }

  function Addr(i: nat, k: nat): nat {
    if i == 0 then if k < 10 then 8181 + k else 0
    else if k == NDIRECT then First(i)
    else Taken(First(i) + 1 + k)
  }

  function Word(x: nat, j: nat): nat {
    if 8192 <= x && (x - 8192) % 269 == 0 then Taken(x + 1 + NDIRECT + j) else 0
  }

  function Inodes(): (ino: seq<Inode>)
    ensures |ino| == 62 && AreInodes(ino)
    ensures forall i: nat :: i < 62 ==>
              && ino[i].size == (if i == 0 then 9217 else 0)
              && forall k: nat :: k <= NDIRECT ==> ino[i].addrs[k] == Addr(i, k)
  {
    seq(62, i requires 0 <= i => Inode(seq(NDIRECT + 1, k requires 0 <= k => Addr(i, k)), if i == 0 then 9217 else 0))
  }

  function TightDisk(): (d: Disk)
    ensures IsDisk(SB, d)
    ensures forall b: nat {:trigger Bit(SB, d, b)} :: b < SB.size ==> (Bit(SB, d, b) <==> !IsFree(b))
    ensures forall x: nat, j: nat :: x < SB.size && j < NINDIRECT ==>
              |d.words[x]| == NINDIRECT && d.words[x][j] == Word(x, j)
  {
    var d := Disk(seq(4, k requires 0 <= k => seq(BPB, r requires 0 <= r => !IsFree(k * BPB + r))),
                  seq(SB.size, x requires 0 <= x => seq(NINDIRECT, j requires 0 <= j => Word(x, j))),
                  seq(SB.size, x => seq(BSIZE, _ => 0)));
    assert forall b: nat :: b < SB.size ==> IsBlock(d, b);
    assert forall b: nat :: b == b / BPB * BPB + b % BPB;
    d
  }

  function SlotAt(b: nat): Slot
    requires 8181 <= b
  {
    if b < 8192 then Data(0, b - 8181)
    else if (b - 8192) % 269 == 0 then Ind(1 + (b - 8192) / 269)
    else Data(1 + (b - 8192) / 269, (b - 8192) % 269 - 1)
  }

  ghost function Owners(): Owner {
    map b: nat | 8181 <= b < 24576 && !IsFree(b) :: SlotAt(b)
  }

  function RefVal(s: Slot): nat {
    match s
    case Data(i, bn) => if i == 0 then if bn < 10 then 8181 + bn else 0 else Taken(First(i) + 1 + bn)
    case Ind(i) => if i == 0 then 0 else First(i)
  }

  lemma RefIs(s: Slot)
    requires IsSlot(Inodes(), s)
    ensures Ref(TightDisk(), Inodes(), s) == RefVal(s)
  {
    if s.Data? && s.i > 0 && s.bn >= NDIRECT {
      var x := First(s.i);
      assert x < SB.size;
      assert (x - 8192) % 269 == 0;
      assert TightDisk().words[x][s.bn - NDIRECT] == Word(x, s.bn - NDIRECT);
    }
  }

  lemma SlotRound(s: Slot)
    requires IsSlot(Inodes(), s) && RefVal(s) != 0
    ensures RefVal(s) in Owners() && Owners()[RefVal(s)] == s
  {
  }

  lemma OwnerRound(b: nat)
    requires b in Owners()
    ensures IsSlot(Inodes(), SlotAt(b)) && RefVal(SlotAt(b)) == b
  {
  }

  lemma TightState()
    ensures var d, ino, owner := TightDisk(), Inodes(), Owners();
            ValidSuper(SB) && Refs(SB, d, ino, owner) && Marked(SB, d, owner.Keys) && AllFull(d, ino)
  {
    var d, ino, owner := TightDisk(), Inodes(), Owners();
    forall s: Slot | IsSlot(ino, s) ensures Holds(d, ino, owner, s) {
      RefIs(s);
      if RefVal(s) != 0 {
        SlotRound(s);
      }
    }
    forall b: nat | b in owner ensures HeldBy(SB, d, ino, owner, b) {
      OwnerRound(b);
      RefIs(SlotAt(b));
    }
    forall i: nat | i < |ino| ensures Full(d, ino[i]) {
      forall bn: nat | bn < MAXFILE ensures NoHole(d, ino[i], bn) {
        RefIs(Data(i, bn));
      }
    }
  }

  /** What matters of the state: file 0 ends in its tenth block and has no indirect block, and the
      free blocks lie under four different bitmap blocks. */
  ghost predicate Tight(g: Snap) {
    && Refs(SB, g.d, g.ino, g.owner) && |g.ino| == 62 && g.ino[0].size == 9217
    && Ref(g.d, g.ino, Data(0, 9)) == 8190 && Ref(g.d, g.ino, Data(0, 10)) == Ref(g.d, g.ino, Data(0, 11)) == 0
    && Ref(g.d, g.ino, Data(0, 12)) == Ref(g.d, g.ino, Ind(0)) == 0
    && forall b: nat :: SB.datastart <= b < SB.size ==> (b in g.owner <==> !IsFree(b))
  }

  method MakeTight() returns (fs: Fs)
    ensures fresh(fs) && fs.sb == SB && fs.Valid() && Tight(fs.Now()) && fs.logged == {}
  {
    TightState();
    fs := new Fs(SB, TightDisk(), Inodes(), Owners());
    RefIs(Data(0, 9));
    RefIs(Data(0, 10));
    RefIs(Data(0, 11));
    RefIs(Data(0, 12));
  }

  /** A slot that was empty holds one of the free blocks. */
  lemma SlotWasEmpty(g0: Snap, g: Snap, s: Slot)
    requires Tight(g0) && AreInodes(g.ino) && |g.ino| == 62 && Refs(SB, g.d, g.ino, g.owner)
             && Kept(g0.d, g0.ino, g.d, g.ino)
    requires IsSlot(g.ino, s) && Ref(g0.d, g0.ino, s) == 0 && Ref(g.d, g.ino, s) != 0
    ensures var b := Ref(g.d, g.ino, s); b in g.owner && g.owner[b] == s && b !in g0.owner && IsFree(b)
  {
    var b := Ref(g.d, g.ino, s);
    assert Holds(g.d, g.ino, g.owner, s) && HeldBy(SB, g.d, g.ino, g.owner, b);
    if b in g0.owner {
      OwnerKept(g0, g, b);
      assert false;
    }
  }

  lemma OwnerKept(g0: Snap, g: Snap, b: nat)
    requires Tight(g0) && AreInodes(g.ino) && |g.ino| == 62 && Refs(SB, g.d, g.ino, g.owner)
             && Kept(g0.d, g0.ino, g.d, g.ino)
    requires b in g0.owner
    ensures g0.owner[b].i < 62 && Ref(g0.d, g0.ino, g0.owner[b]) == b != 0 && b in g.owner && g.owner[b] == g0.owner[b]
  {
    assert HeldBy(SB, g0.d, g0.ino, g0.owner, b);
    assert Ref(g.d, g.ino, g0.owner[b]) == b && Holds(g.d, g.ino, g.owner, g0.owner[b]);
  }

  /** The blocks mapped for three blocks at offset 9217 of file 0: blocks 10, 11, 12 and the indirect
      block are new. */
  lemma FourNew(g0: Snap, g: Snap, mapped: seq<nat>)
    requires Tight(g0) && AreInodes(g.ino) && |g.ino| == 62 && Refs(SB, g.d, g.ino, g.owner)
             && Kept(g0.d, g0.ino, g.d, g.ino)
    requires Chain(g0, g, 0, 9, mapped) && |mapped| == 4
    requires OnlyNew(g0.owner, g.owner, mapped, g.ino[0].addrs[NDIRECT])
    ensures mapped[0] == 8190 && forall f: nat :: IsFree(f) ==> f in g.owner && f !in g0.owner
  {
    var ind := g.ino[0].addrs[NDIRECT];
    assert Ref(g.d, g.ino, Data(0, 9)) == mapped[0];
    assert Ref(g.d, g.ino, Data(0, 10)) == mapped[1];
    assert Ref(g.d, g.ino, Data(0, 11)) == mapped[2];
    assert Ref(g.d, g.ino, Data(0, 12)) == mapped[3];
    assert Ref(g.d, g.ino, Ind(0)) == ind;
    SlotWasEmpty(g0, g, Data(0, 10));
    SlotWasEmpty(g0, g, Data(0, 11));
    SlotWasEmpty(g0, g, Data(0, 12));
    SlotWasEmpty(g0, g, Ind(0));
    FourOfFour(mapped[1], mapped[2], mapped[3], ind);
  }

  lemma FourOfFour(a: nat, b: nat, c: nat, e: nat)
    requires IsFree(a) && IsFree(b) && IsFree(c) && IsFree(e) && a != b && a != c && a != e && b != c && b != e
             && c != e
    ensures forall f: nat :: IsFree(f) ==> f == a || f == b || f == c || f == e
  {
  }

  /** The ten blocks: the inode's, the file's last one, the four free ones and their bitmap blocks. */
  lemma TenBlocks(a: set<nat>)
    requires 32 in a && 8190 in a && forall f: nat :: IsFree(f) ==> f in a && BBLOCK(SB, f) in a
    ensures |a| >= 10
  {
    var s: seq<nat> := [32, BBLOCK(SB, 8191), BBLOCK(SB, 8193), BBLOCK(SB, 16532), BBLOCK(SB, 24576), 8190, 8191, 8193,
                        16532, 24576];
    assert IsFree(8191) && IsFree(8193) && IsFree(16532) && IsFree(24576);
    assert forall k :: 0 <= k < |s| - 1 ==> s[k] < s[k + 1];
    DistinctCard(s, a);
  }

  lemma FreeIsLogged(owner0: Owner, owner: Owner, logged: set<nat>, f: nat)
    requires f in owner && f !in owner0 && Logs(SB, owner.Keys - owner0.Keys) <= logged
    ensures f in logged && BBLOCK(SB, f) in logged
  {
    var added := owner.Keys - owner0.Keys;
    assert f in added;
    assert BBLOCK(SB, f) in Logs(SB, added);
  }

  lemma LogHasTen(g0: Snap, g: Snap, logged: set<nat>, mapped: seq<nat>, ind: nat)
    requires |mapped| == 4 && LogIs(SB, g0, g, 9, mapped, 4, ind) && logged == g.logged + {32}
    requires mapped[0] == 8190 && forall f: nat :: IsFree(f) ==> f in g.owner && f !in g0.owner
    ensures |logged| >= 10
  {
    assert mapped[..4] == mapped;
    assert 8190 in Elems(mapped);
    forall f: nat | IsFree(f) ensures f in logged && BBLOCK(SB, f) in logged {
      FreeIsLogged(g0.owner, g.owner, logged, f);
    }
    TenBlocks(logged);
  }

  lemma TenDistinct(g0: Snap, g: Snap, mapped: seq<nat>, w: nat)
    requires Tight(g0) && g0.logged == {} && AreInodes(g.ino) && |g.ino| == 62 && Refs(SB, g.d, g.ino, g.owner)
    requires Full(g0.d, g0.ino[0]) && LogOfWrite(SB, g0, g, 0, 9217, 3072, 3072, mapped, w)
    ensures |g.logged| == MAXOPBLOCKS
  {
    TransactionBound(SB, g0, g, 0, 9217, 3072, 3072, mapped, w);
    FourNew(g0, g, mapped);
    var before :| LogIs(SB, g0, g.(logged := before), 9, mapped, w, g.ino[0].addrs[NDIRECT])
      && g.logged == before + {32};
    LogHasTen(g0, g.(logged := before), g.logged, mapped, g.ino[0].addrs[NDIRECT]);
  }

  lemma NeedFour(d: Disk, ip: Inode, bn0: nat)
    requires IsInode(ip)
    ensures Need(d, ip, bn0, 4)
            == MissingAt(d, ip, bn0, 0) + MissingAt(d, ip, bn0, 1) + MissingAt(d, ip, bn0, 2) + MissingAt(d, ip, bn0, 3)
  {
    assert Need(d, ip, bn0, 1) == Need(d, ip, bn0, 0) + MissingAt(d, ip, bn0, 0);
    assert Need(d, ip, bn0, 2) == Need(d, ip, bn0, 1) + MissingAt(d, ip, bn0, 1);
    assert Need(d, ip, bn0, 3) == Need(d, ip, bn0, 2) + MissingAt(d, ip, bn0, 2);
    assert Need(d, ip, bn0, 4) == Need(d, ip, bn0, 3) + MissingAt(d, ip, bn0, 3);
  }

  /** Four free blocks suffice for this write: it needs three blocks and the indirect block. */
  lemma ItFits(g: Snap)
    requires Tight(g)
    ensures !CannotFit(SB, g, 0, 9217, 3072, 3072)
  {
    var ip := g.ino[0];
    assert Ref(g.d, g.ino, Data(0, 9)) == BlockOf(g.d, ip, 9) && Ref(g.d, g.ino, Data(0, 10)) == BlockOf(g.d, ip, 10);
    assert Ref(g.d, g.ino, Data(0, 11)) == BlockOf(g.d, ip, 11) && Ref(g.d, g.ino, Data(0, 12)) == BlockOf(g.d, ip, 12);
    assert Rounds(9217, 3072, 3072) == 4;
    assert MissingAt(g.d, ip, 9, 0) == 0 && MissingAt(g.d, ip, 9, 1) == MissingAt(g.d, ip, 9, 2) == 1
           && MissingAt(g.d, ip, 9, 3) == 2;
    NeedFour(g.d, ip, 9);
    var free: seq<nat> := [8191, 8193, 16532, 24576];
    assert forall k :: 0 <= k < 4 ==> IsFree(free[k]) && SB.datastart <= free[k] < SB.size;
    DistinctCard(free, FreeSet(SB, g.owner.Keys));
  }

  /** A transaction of filewrite that logs exactly MAXOPBLOCKS distinct blocks: the state before it, and
      the file system after it. */
  method BoundIsReached() returns (fs: Fs, ghost g0: Snap, ghost mapped: seq<nat>, ghost w: nat)
    ensures fresh(fs) && fs.sb == SB && fs.Valid() && Tight(g0) && g0.logged == {} && |fs.ino| == 62
    ensures LogOfWrite(SB, g0, fs.Now(), 0, 9217, 3072, 3072, mapped, w)
    ensures |fs.logged| == MAXOPBLOCKS
  {
    fs := MakeTight();
    g0 := fs.Now();
    var src := seq(3072, _ => 7);
    ItFits(g0);
    assert Full(g0.d, g0.ino[0]);
    var r, stuck;
    r, stuck, mapped, w := Writei(fs, 0, 9217, 3072, src);
    TenDistinct(g0, fs.Now(), mapped, w);
  }
}
