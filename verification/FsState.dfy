/** The on-disk state behind kernel/fs.c: bitmap, block pointers and file bytes. */
module FsState {
  import opened Bytes

  const BSIZE: nat := 1024
  const BPB: nat := 8192
  const IPB: nat := 16
  const NDIRECT: nat := 12
  const NINDIRECT: nat := 256
  const MAXFILE: nat := 268

  /** The superblock; datastart is size - nblocks. */
  datatype Super = Super(size: nat, ninodes: nat, inodestart: nat, bmapstart: nat, datastart: nat)

  predicate ValidSuper(sb: Super) {
    && 0 < sb.inodestart
    && sb.inodestart + sb.ninodes / IPB + 1 <= sb.bmapstart
    && sb.bmapstart + sb.size / BPB + 1 <= sb.datastart <= sb.size
  }

  function BBLOCK(sb: Super, b: nat): nat {
    b / BPB + sb.bmapstart
  }

  function IBLOCK(sb: Super, i: nat): nat {
    i / IPB + sb.inodestart
  }

  datatype Inode = Inode(addrs: seq<nat>, size: nat)

  /** Three views of the blocks: the bits of the bitmap, one row for each of its blocks; block
      numbers in indirect blocks; bytes of file data. */
  datatype Disk = Disk(bits: seq<seq<bool>>, words: seq<seq<nat>>, bytes: seq<seq<int>>)

  predicate IsBlock(d: Disk, b: nat)
    requires b < |d.bytes| == |d.words|
  {
    |d.bytes[b]| == BSIZE && |d.words[b]| == NINDIRECT
  }

  predicate IsDisk(sb: Super, d: Disk) {
    && |d.bytes| == |d.words| == sb.size
    && |d.bits| == sb.size / BPB + 1 && (forall k :: 0 <= k < |d.bits| ==> |d.bits[k]| == BPB)
    && forall b: nat {:trigger IsBlock(d, b)} :: b < sb.size ==> IsBlock(d, b)
  }

  /** The bitmap bit of block b. */
  predicate Bit(sb: Super, d: Disk, b: nat)
    requires IsDisk(sb, d) && b < sb.size
  {
    d.bits[b / BPB][b % BPB]
  }

  function PutBit(sb: Super, d: Disk, b: nat, x: bool): (d': Disk)
    requires IsDisk(sb, d) && b < sb.size
    ensures IsDisk(sb, d') && d'.words == d.words && d'.bytes == d.bytes
    ensures forall c: nat {:trigger Bit(sb, d', c)} :: c < sb.size ==>
              (Bit(sb, d', c) <==> if c == b then x else Bit(sb, d, c))
  {
    var d' := d.(bits := d.bits[b / BPB := d.bits[b / BPB][b % BPB := x]]);
    assert forall c: nat :: c < sb.size ==> IsBlock(d, c) ==> IsBlock(d', c);
    assert forall c: nat :: c / BPB == b / BPB && c % BPB == b % BPB ==> c == b;
    d'
  }

  function Zero(sb: Super, d: Disk, b: nat): (d': Disk)
    requires IsDisk(sb, d) && b < sb.size
    ensures IsDisk(sb, d') && d'.bits == d.bits
    ensures forall c: nat :: c < sb.size && c != b ==> d'.words[c] == d.words[c] && d'.bytes[c] == d.bytes[c]
    ensures (forall j :: 0 <= j < |d'.words[b]| ==> d'.words[b][j] == 0)
            && (forall o :: 0 <= o < |d'.bytes[b]| ==> d'.bytes[b][o] == 0)
  {
    var d' := d.(words := d.words[b := seq(NINDIRECT, _ => 0)], bytes := d.bytes[b := seq(BSIZE, _ => 0)]);
    assert forall c: nat :: c < sb.size ==> IsBlock(d, c) ==> IsBlock(d', c);
    d'
  }

  /** What changes is logged, with blocks counted off by their place: row k of the bitmap is its block k, */
  ghost predicate RowLogged(sb: Super, d: Disk, d': Disk, log: set<nat>, k: nat)
    requires k < |d.bits| == |d'.bits|
  {
    d'.bits[k] != d.bits[k] ==> sb.bmapstart + k in log
  }

  /** a block of the data area is itself, */
  ghost predicate BlockLogged(d: Disk, d': Disk, log: set<nat>, b: nat)
    requires b < |d.words| == |d'.words| == |d.bytes| == |d'.bytes|
  {
    d'.words[b] != d.words[b] || d'.bytes[b] != d.bytes[b] ==> b in log
  }

  /** and inode block k has inodes k * IPB to k * IPB + IPB - 1. */
  ghost predicate InodeLogged(sb: Super, dinode: seq<Inode>, dinode': seq<Inode>, log: set<nat>, k: nat, j: nat)
    requires |dinode| == |dinode'|
  {
    j < IPB && k * IPB + j < |dinode| && dinode'[k * IPB + j] != dinode[k * IPB + j] ==> sb.inodestart + k in log
  }

  ghost predicate DiskLogged(sb: Super, d: Disk, d': Disk, log: set<nat>) {
    && |d.bits| == |d'.bits| && |d.words| == |d'.words| == |d.bytes| == |d'.bytes|
    && (forall k: nat {:trigger RowLogged(sb, d, d', log, k)} :: k < |d.bits| ==> RowLogged(sb, d, d', log, k))
    && (forall b: nat {:trigger BlockLogged(d, d', log, b)} :: b < |d.words| ==> BlockLogged(d, d', log, b))
  }

  ghost predicate InodesLogged(sb: Super, dinode: seq<Inode>, dinode': seq<Inode>, log: set<nat>) {
    && |dinode| == |dinode'|
    && forall k: nat, j: nat {:trigger InodeLogged(sb, dinode, dinode', log, k, j)} ::
         InodeLogged(sb, dinode, dinode', log, k, j)
  }

  lemma LoggedTwice(sb: Super, d: Disk, d1: Disk, d2: Disk, log1: set<nat>, log2: set<nat>)
    requires DiskLogged(sb, d, d1, log1) && DiskLogged(sb, d1, d2, log2) && log1 <= log2
    ensures DiskLogged(sb, d, d2, log2)
  {
    forall k: nat | k < |d.bits| ensures RowLogged(sb, d, d2, log2, k) {
      assert RowLogged(sb, d, d1, log1, k) && RowLogged(sb, d1, d2, log2, k);
    }
    forall b: nat | b < |d.words| ensures BlockLogged(d, d2, log2, b) {
      assert BlockLogged(d, d1, log1, b) && BlockLogged(d1, d2, log2, b);
    }
  }

  lemma LoggedMore(sb: Super, d: Disk, d': Disk, log: set<nat>, more: set<nat>)
    requires DiskLogged(sb, d, d', log) && log <= more
    ensures DiskLogged(sb, d, d', more)
  {
    forall k: nat | k < |d.bits| ensures RowLogged(sb, d, d', more, k) {
      assert RowLogged(sb, d, d', log, k);
    }
    forall b: nat | b < |d.words| ensures BlockLogged(d, d', more, b) {
      assert BlockLogged(d, d', log, b);
    }
  }

  lemma NothingLogged(sb: Super, d: Disk, log: set<nat>)
    requires |d.words| == |d.bytes|
    ensures DiskLogged(sb, d, d, log)
  {
  }

  lemma BitLogged(sb: Super, d: Disk, b: nat, x: bool)
    requires IsDisk(sb, d) && b < sb.size
    ensures DiskLogged(sb, d, PutBit(sb, d, b, x), {BBLOCK(sb, b)})
  {
  }

  lemma ZeroLogged(sb: Super, d: Disk, b: nat)
    requires IsDisk(sb, d) && b < sb.size
    ensures DiskLogged(sb, d, Zero(sb, d, b), {b})
  {
  }

  /** An entry of an indirect block, or bytes of a data block. */
  lemma OneLogged(sb: Super, d: Disk, d': Disk, x: nat)
    requires x < |d.words| == |d'.words| == |d.bytes| == |d'.bytes| && d'.bits == d.bits
    requires d'.words == d.words[x := d'.words[x]] && d'.bytes == d.bytes[x := d'.bytes[x]]
    ensures DiskLogged(sb, d, d', {x})
  {
  }

  lemma InodeChanged(sb: Super, dinode: seq<Inode>, i: nat, ip: Inode, log: set<nat>)
    requires i < |dinode| && IBLOCK(sb, i) in log
    ensures InodesLogged(sb, dinode, dinode[i := ip], log)
  {
    var dinode' := dinode[i := ip];
    forall k: nat, j: nat ensures InodeLogged(sb, dinode, dinode', log, k, j) {
      if j < IPB && k * IPB + j == i {
        assert i / IPB == k;
      }
    }
  }

  /** Where a block can be referenced: block bn of inode i, or its indirect block. */
  datatype Slot = Data(i: nat, bn: nat) | Ind(i: nat)

  predicate IsInode(ip: Inode) {
    |ip.addrs| == NDIRECT + 1
  }

  predicate IsSlot(ino: seq<Inode>, s: Slot) {
    s.i < |ino| && (s.Data? ==> s.bn < MAXFILE)
  }

  /** The block a slot refers to, 0 if none. */
  function BlockOf(d: Disk, ip: Inode, bn: nat): nat
    requires IsInode(ip)
  {
    if bn < NDIRECT then ip.addrs[bn]
    else
      var x := ip.addrs[NDIRECT];
      if x != 0 && x < |d.words| && bn - NDIRECT < |d.words[x]| then d.words[x][bn - NDIRECT] else 0
  }

  function Ref(d: Disk, ino: seq<Inode>, s: Slot): nat
    requires s.i < |ino| && IsInode(ino[s.i])
  {
    match s
    case Data(i, bn) => BlockOf(d, ino[i], bn)
    case Ind(i) => ino[i].addrs[NDIRECT]
  }

  type Owner = map<nat, Slot>

  /** A state of the file system: disk, inodes in memory and on disk, the slot of every used block, and the
      blocks the current transaction has logged. */
  datatype Snap = Snap(d: Disk, ino: seq<Inode>, dinode: seq<Inode>, owner: Owner, logged: set<nat>)

  ghost predicate Holds(d: Disk, ino: seq<Inode>, owner: Owner, s: Slot)
    requires s.i < |ino| && IsInode(ino[s.i])
  {
    Ref(d, ino, s) != 0 ==> Ref(d, ino, s) in owner && owner[Ref(d, ino, s)] == s
  }

  ghost predicate HeldBy(sb: Super, d: Disk, ino: seq<Inode>, owner: Owner, b: nat)
    requires b in owner
  {
    && sb.datastart <= b < sb.size && IsSlot(ino, owner[b]) && IsInode(ino[owner[b].i])
    && Ref(d, ino, owner[b]) == b
  }

  /** Every referenced block is a data block and has one slot that refers to it. */
  ghost predicate Refs(sb: Super, d: Disk, ino: seq<Inode>, owner: Owner) {
    && AreInodes(ino)
    && (forall s: Slot {:trigger Holds(d, ino, owner, s)} :: IsSlot(ino, s) ==> Holds(d, ino, owner, s))
    && (forall b: nat {:trigger HeldBy(sb, d, ino, owner, b)} :: b in owner ==> HeldBy(sb, d, ino, owner, b))
  }

  /** The bits set are those of metadata and of referenced blocks. */
  ghost predicate Marked(sb: Super, d: Disk, used: set<nat>)
    requires IsDisk(sb, d)
  {
    forall b: nat {:trigger Bit(sb, d, b)} :: b < sb.size ==> (Bit(sb, d, b) <==> b < sb.datastart || b in used)
  }

  ghost predicate NoHole(d: Disk, ip: Inode, bn: nat)
    requires IsInode(ip)
  {
    bn * BSIZE < ip.size ==> BlockOf(d, ip, bn) != 0
  }

  /** No holes below the size. */
  ghost predicate Full(d: Disk, ip: Inode) {
    && IsInode(ip) && ip.size <= MAXFILE * BSIZE
    && forall bn: nat {:trigger NoHole(d, ip, bn)} :: bn < MAXFILE ==> NoHole(d, ip, bn)
  }

  ghost predicate AllFull(d: Disk, ino: seq<Inode>) {
    forall i: nat {:trigger Full(d, ino[i])} :: i < |ino| ==> Full(d, ino[i])
  }

  /** Byte o of block bn; holes read as zero. */
  ghost function ByteAt(d: Disk, ip: Inode, bn: nat, o: nat): int
    requires IsInode(ip)
  {
    var b := BlockOf(d, ip, bn);
    if b != 0 && b < |d.bytes| && o < |d.bytes[b]| then d.bytes[b][o] else 0
  }

  /** The file as a byte sequence. */
  ghost function Content(d: Disk, ip: Inode): (c: seq<int>)
    requires IsInode(ip)
    ensures |c| == ip.size && forall p :: 0 <= p < ip.size ==> c[p] == ByteAt(d, ip, p / BSIZE, p % BSIZE)
  {
    seq(ip.size, p requires p >= 0 => ByteAt(d, ip, p / BSIZE, p % BSIZE))
  }

  /** Byte o of block bn of inode i. */
  ghost function FileByte(d: Disk, ino: seq<Inode>, i: nat, bn: nat, o: nat): int
    requires i < |ino| && IsInode(ino[i])
  {
    ByteAt(d, ino[i], bn, o)
  }

  ghost predicate AreInodes(ino: seq<Inode>) {
    forall i :: 0 <= i < |ino| ==> IsInode(ino[i])
  }

  /** k bytes of src at offset off of inode i; every other byte of every file is as it was. */
  ghost predicate Wrote(d: Disk, ino: seq<Inode>, d': Disk, ino': seq<Inode>, i0: nat, off: nat, src: seq<int>, k: nat)
    requires AreInodes(ino) && AreInodes(ino') && |ino| == |ino'| && k <= |src|
  {
    forall i: nat, bn: nat, o: nat {:trigger FileByte(d', ino', i, bn, o)} :: i < |ino| && bn < MAXFILE && o < BSIZE ==>
      FileByte(d', ino', i, bn, o)
      == if i == i0 && off <= bn * BSIZE + o < off + k then src[bn * BSIZE + o - off] else FileByte(d, ino, i, bn, o)
  }

  /** What balloc does to the disk: the first free block is marked and zeroed. */
  ghost predicate Allocated(sb: Super, d: Disk, d': Disk, b: nat)
    requires IsDisk(sb, d) && IsDisk(sb, d')
  {
    && b < sb.size && !Bit(sb, d, b) && (forall c: nat :: c < b ==> Bit(sb, d, c))
    && (forall c: nat {:trigger Bit(sb, d', c)} :: c < sb.size ==> (Bit(sb, d', c) <==> c == b || Bit(sb, d, c)))
    && (forall c: nat :: c < sb.size && c != b ==> d'.words[c] == d.words[c] && d'.bytes[c] == d.bytes[c])
    && (forall j :: 0 <= j < |d'.words[b]| ==> d'.words[b][j] == 0)
    && (forall o :: 0 <= o < |d'.bytes[b]| ==> d'.bytes[b][o] == 0)
  }

  /** Slot s0 now refers to b, every other slot to what it did; sizes are unchanged. */
  ghost predicate Attached(d: Disk, ino: seq<Inode>, d': Disk, ino': seq<Inode>, s0: Slot, b: nat)
    requires AreInodes(ino)
  {
    && |ino'| == |ino| && AreInodes(ino') && (forall i :: 0 <= i < |ino| ==> ino'[i].size == ino[i].size)
    && forall s: Slot {:trigger Ref(d', ino', s)} :: IsSlot(ino, s) ==>
         Ref(d', ino', s) == if s == s0 then b else Ref(d, ino, s)
  }

  lemma AttachRefs(sb: Super, d: Disk, d': Disk, ino: seq<Inode>, ino': seq<Inode>, owner: Owner, s0: Slot, b: nat)
    requires Refs(sb, d, ino, owner) && IsSlot(ino, s0) && Ref(d, ino, s0) == 0
    requires Attached(d, ino, d', ino', s0, b) && 0 < sb.datastart <= b < sb.size && b !in owner
    ensures Refs(sb, d', ino', owner[b := s0])
  {
    var owner' := owner[b := s0];
    forall s: Slot | IsSlot(ino', s) ensures Holds(d', ino', owner', s) {
      assert Holds(d, ino, owner, s);
    }
    forall c: nat | c in owner' ensures HeldBy(sb, d', ino', owner', c) {
      if c != b {
        assert HeldBy(sb, d, ino, owner, c);
      }
    }
  }

  /** Storing a fresh block in an empty entry of addrs. */
  lemma AttachAddr(sb: Super, d: Disk, d': Disk, ino: seq<Inode>, owner: Owner, i: nat, k: nat, b: nat)
    requires IsDisk(sb, d) && IsDisk(sb, d') && Refs(sb, d, ino, owner) && Marked(sb, d, owner.Keys)
    requires Allocated(sb, d, d', b) && i < |ino| && k <= NDIRECT && ino[i].addrs[k] == 0
    ensures b !in owner && sb.datastart <= b
    ensures Attached(d, ino, d', ino[i := ino[i].(addrs := ino[i].addrs[k := b])],
                     if k < NDIRECT then Data(i, k) else Ind(i), b)
  {
    var ino' := ino[i := ino[i].(addrs := ino[i].addrs[k := b])];
    var s0 := if k < NDIRECT then Data(i, k) else Ind(i);
    forall s: Slot | IsSlot(ino, s) ensures Ref(d', ino', s) == if s == s0 then b else Ref(d, ino, s) {
      assert Holds(d, ino, owner, Ind(s.i));
    }
  }

  /** Storing a fresh block in an empty entry of an indirect block. */
  lemma AttachVia(sb: Super, d: Disk, d': Disk, ino: seq<Inode>, owner: Owner, i: nat, j: nat, b: nat)
    requires IsDisk(sb, d) && IsDisk(sb, d') && Refs(sb, d, ino, owner) && Marked(sb, d, owner.Keys)
    requires Allocated(sb, d, d', b) && i < |ino| && j < NINDIRECT && ino[i].addrs[NDIRECT] != 0
    requires Ref(d, ino, Data(i, NDIRECT + j)) == 0
    ensures b !in owner && sb.datastart <= b && ino[i].addrs[NDIRECT] < sb.size
            && |d'.words[ino[i].addrs[NDIRECT]]| == NINDIRECT
    ensures Attached(d, ino, SetWord(d', ino[i].addrs[NDIRECT], j, b), ino, Data(i, NDIRECT + j), b)
  {
    var x := ino[i].addrs[NDIRECT];
    assert Holds(d, ino, owner, Ind(i));
    assert HeldBy(sb, d, ino, owner, x);
    assert IsBlock(d, x) && IsBlock(d', x);
    var d2 := SetWord(d', x, j, b);
    forall s: Slot | IsSlot(ino, s) ensures Ref(d2, ino, s) == if s == Data(i, NDIRECT + j) then b else Ref(d, ino, s) {
      assert Holds(d, ino, owner, Ind(s.i));
    }
  }

  function SetWord(d: Disk, x: nat, j: nat, b: nat): (d': Disk)
    requires x < |d.words| && j < |d.words[x]|
  {
    var row: seq<nat> := d.words[x][j := b];
    d.(words := d.words[x := row])
  }

  /** A zeroed block in place of a hole changes no byte of any file, and makes no hole. */
  lemma AttachBytes(sb: Super, d: Disk, d': Disk, ino: seq<Inode>, ino': seq<Inode>, owner: Owner, s0: Slot, b: nat)
    requires IsDisk(sb, d) && Refs(sb, d, ino, owner) && IsSlot(ino, s0) && Ref(d, ino, s0) == 0
    requires Attached(d, ino, d', ino', s0, b) && b !in owner && b != 0
    requires |d'.bytes| == |d.bytes| && b < |d.bytes| && (forall o :: 0 <= o < |d'.bytes[b]| ==> d'.bytes[b][o] == 0)
    requires forall c: nat :: c < |d.bytes| && c != b ==> d'.bytes[c] == d.bytes[c]
    ensures Wrote(d, ino, d', ino', 0, 0, [], 0)
    ensures AllFull(d, ino) ==> AllFull(d', ino')
  {
    forall i: nat, bn: nat, o: nat | i < |ino| && bn < MAXFILE
      ensures FileByte(d', ino', i, bn, o) == FileByte(d, ino, i, bn, o)
    {
      assert Ref(d', ino', Data(i, bn)) == BlockOf(d', ino'[i], bn);
      assert Holds(d, ino, owner, Data(i, bn));
    }
    if AllFull(d, ino) {
      forall i: nat | i < |ino| ensures Full(d', ino'[i]) {
        assert Full(d, ino[i]);
        forall bn: nat | bn < MAXFILE ensures NoHole(d', ino'[i], bn) {
          assert NoHole(d, ino[i], bn);
          assert Ref(d', ino', Data(i, bn)) == BlockOf(d', ino'[i], bn);
        }
      }
    }
  }

  /** A chunk written inside one block continues what was written before. */
  lemma WriteStep(sb: Super, d0: Disk, ino0: seq<Inode>, d: Disk, ino: seq<Inode>, owner: Owner,
                  i0: nat, off: nat, src: seq<int>, k: nat, m: nat, b: nat)
    requires IsDisk(sb, d) && Refs(sb, d, ino, owner) && AreInodes(ino0) && |ino0| == |ino| && i0 < |ino|
    requires k + m <= |src| && (off + k) % BSIZE + m <= BSIZE && (off + k) / BSIZE < MAXFILE
    requires b == BlockOf(d, ino[i0], (off + k) / BSIZE) != 0 && b < sb.size && |d.bytes[b]| == BSIZE
    requires Wrote(d0, ino0, d, ino, i0, off, src, k)
    ensures var d' := d.(bytes := d.bytes[b := Splice(d.bytes[b], (off + k) % BSIZE, src[k..k + m])]);
            Wrote(d0, ino0, d', ino, i0, off, src, k + m)
  {
    var bn0, o0 := (off + k) / BSIZE, (off + k) % BSIZE;
    assert off + k == bn0 * BSIZE + o0;
    var d' := d.(bytes := d.bytes[b := Splice(d.bytes[b], o0, src[k..k + m])]);
    assert Holds(d, ino, owner, Data(i0, bn0)) && Ref(d, ino, Data(i0, bn0)) == b;
    forall i: nat, bn: nat, o: nat | i < |ino| && bn < MAXFILE && o < BSIZE
      ensures FileByte(d', ino, i, bn, o) == if i == i0
              && off <= bn * BSIZE + o < off + k + m then src[bn * BSIZE + o - off] else FileByte(d0, ino0, i, bn, o)
    {
      assert FileByte(d, ino, i, bn, o) == if i == i0
             && off <= bn * BSIZE + o < off + k then src[bn * BSIZE + o - off] else FileByte(d0, ino0, i, bn, o);
      assert BlockOf(d', ino[i], bn) == BlockOf(d, ino[i], bn);
      if i == i0 && bn == bn0 {
        assert FileByte(d', ino, i, bn, o) == if o0 <= o < o0 + m then src[k + o - o0] else d.bytes[b][o];
      } else {
        assert Holds(d, ino, owner, Data(i, bn)) && Ref(d, ino, Data(i, bn)) == BlockOf(d, ino[i], bn);
        assert FileByte(d', ino, i, bn, o) == FileByte(d, ino, i, bn, o);
      }
    }
  }

  lemma WroteThenSame(d0: Disk, ino0: seq<Inode>, d1: Disk, ino1: seq<Inode>, d2: Disk, ino2: seq<Inode>, i: nat,
                      off: nat, src: seq<int>, k: nat)
    requires AreInodes(ino0) && AreInodes(ino1) && AreInodes(ino2) && |ino0| == |ino1| == |ino2| && k <= |src|
    requires Wrote(d0, ino0, d1, ino1, i, off, src, k) && Wrote(d1, ino1, d2, ino2, 0, 0, [], 0)
    ensures Wrote(d0, ino0, d2, ino2, i, off, src, k)
  {
  }

  /** Writing bytes moves no pointer. */
  lemma BytesKeepRefs(sb: Super, d: Disk, d': Disk, ino: seq<Inode>, owner: Owner)
    requires IsDisk(sb, d) && Refs(sb, d, ino, owner) && AllFull(d, ino)
    requires d'.words == d.words && d'.bits == d.bits && |d'.bytes| == |d.bytes|
             && forall b :: 0 <= b < |d.bytes| ==> |d'.bytes[b]| == |d.bytes[b]|
    ensures IsDisk(sb, d') && Refs(sb, d', ino, owner) && AllFull(d', ino)
    ensures Marked(sb, d, owner.Keys) ==> Marked(sb, d', owner.Keys)
  {
    forall b: nat | b < sb.size ensures IsBlock(d', b) {
      assert IsBlock(d, b);
    }
    forall s: Slot | IsSlot(ino, s) ensures Holds(d', ino, owner, s) {
      assert Holds(d, ino, owner, s);
    }
    forall b: nat | b in owner ensures HeldBy(sb, d', ino, owner, b) {
      assert HeldBy(sb, d, ino, owner, b);
    }
    forall i: nat | i < |ino| ensures Full(d', ino[i]) {
      assert Full(d, ino[i]);
      forall bn: nat | bn < MAXFILE ensures NoHole(d', ino[i], bn) {
        assert NoHole(d, ino[i], bn);
      }
    }
    if Marked(sb, d, owner.Keys) {
      forall b: nat | b < sb.size ensures Bit(sb, d', b) <==> b < sb.datastart || b in owner {
        assert Bit(sb, d, b) <==> b < sb.datastart || b in owner;
      }
    }
  }

  /** The blocks still marked while itrunc is about to free block k of inode i. */
  ghost function Left(owner: Owner, i: nat, k: nat): set<nat> {
    set b | b in owner && !(owner[b].Data? && owner[b].i == i && owner[b].bn < k)
  }

  ghost function Others(owner: Owner, i: nat): Owner {
    map b | b in owner && owner[b].i != i :: owner[b]
  }

  lemma LeftStep(sb: Super, d: Disk, ino: seq<Inode>, owner: Owner, i: nat, k: nat)
    requires 0 < sb.datastart && Refs(sb, d, ino, owner) && i < |ino| && k < MAXFILE
    ensures var b := BlockOf(d, ino[i], k);
            if b == 0 then Left(owner, i, k + 1) == Left(owner, i, k)
            else b in Left(owner, i, k) && sb.datastart <= b < sb.size
                 && Left(owner, i, k + 1) == Left(owner, i, k) - {b}
  {
    var b := BlockOf(d, ino[i], k);
    assert Ref(d, ino, Data(i, k)) == b && Holds(d, ino, owner, Data(i, k));
    if b != 0 {
      assert HeldBy(sb, d, ino, owner, b);
    }
    forall c: nat | c in owner && owner[c] == Data(i, k) ensures c == b != 0 {
      assert HeldBy(sb, d, ino, owner, c);
    }
  }

  /** After the direct blocks: without an indirect block nothing is left of inode i. */
  lemma LeftDirect(sb: Super, d: Disk, ino: seq<Inode>, owner: Owner, i: nat)
    requires 0 < sb.datastart && Refs(sb, d, ino, owner) && i < |ino|
    ensures var x := ino[i].addrs[NDIRECT];
            if x == 0 then Left(owner, i, NDIRECT) == Others(owner, i).Keys
            else x in Left(owner, i, MAXFILE) && sb.datastart <= x < sb.size
                 && Left(owner, i, MAXFILE) - {x} == Others(owner, i).Keys
  {
    var x := ino[i].addrs[NDIRECT];
    assert Ref(d, ino, Ind(i)) == x && Holds(d, ino, owner, Ind(i));
    if x != 0 {
      assert HeldBy(sb, d, ino, owner, x);
    }
    forall c: nat | c in owner && owner[c].i == i ensures IsSlot(ino, owner[c]) && Ref(d, ino, owner[c]) == c > 0 {
      assert HeldBy(sb, d, ino, owner, c);
    }
  }

  function Emptied(): (ip: Inode)
    ensures IsInode(ip)
  {
    Inode([0, 0, 0, 0, 0, 0, 0, 0, 0, 0, 0, 0, 0], 0)
  }

  /** With its pointers and size cleared, inode i is an empty file and the others are as they were. */
  lemma Truncated(sb: Super, d: Disk, d': Disk, ino: seq<Inode>, owner: Owner, i: nat)
    requires IsDisk(sb, d) && Refs(sb, d, ino, owner) && AllFull(d, ino) && i < |ino|
    requires d'.words == d.words && d'.bytes == d.bytes
    ensures Refs(sb, d', ino[i := Emptied()], Others(owner, i)) && AllFull(d', ino[i := Emptied()])
  {
    var ino' := ino[i := Emptied()];
    var owner' := Others(owner, i);
    forall s: Slot | IsSlot(ino', s)
      ensures Holds(d', ino', owner', s) && Ref(d', ino', s) == if s.i == i then 0 else Ref(d, ino, s)
    {
      assert Holds(d, ino, owner, s);
    }
    forall b: nat | b in owner' ensures HeldBy(sb, d', ino', owner', b) {
      assert HeldBy(sb, d, ino, owner, b);
      assert Holds(d', ino', owner', owner[b]);
    }
    forall j: nat | j < |ino'| ensures Full(d', ino'[j]) {
      assert Full(d, ino[j]);
      forall bn: nat | bn < MAXFILE ensures NoHole(d', ino'[j], bn) {
        assert NoHole(d, ino[j], bn);
      }
    }
  }
}
