/** copyout, copyin and copyinstr of kernel/vm.c: bytes moved between the kernel and a user address
    space, page by page. */
module UserCopy {
  import opened Bytes
  import opened PageTree
  import opened Riscv
  import opened Vm

  /** The byte at offset o of page v. */
  ghost function ByteAt(tab: Tables, page: seq<seq<int>>, root: nat, v: nat, o: nat): int
    requires IsMemory(tab) && root < |tab|
  {
    var e := Look(tab, root, v);
    if e.valid && e.ppn < |page| && o < |page[e.ppn]| then page[e.ppn][o] else 0
  }

  /** The byte at virtual address va. */
  ghost function Byte(tab: Tables, page: seq<seq<int>>, root: nat, va: nat): int
    requires IsMemory(tab) && root < |tab|
  {
    ByteAt(tab, page, root, va / PGSIZE, va % PGSIZE)
  }

  ghost predicate Accessible(tab: Tables, root: nat, v: nat)
    requires IsMemory(tab) && root < |tab|
  {
    v < MAXPAGE && UserPage(Look(tab, root, v))
  }

  /** Every page that holds one of the bytes va .. va + n - 1 is a mapped user page. */
  ghost predicate AllAccessible(tab: Tables, root: nat, va: nat, n: nat)
    requires IsMemory(tab) && root < |tab|
  {
    forall v: nat {:trigger Accessible(tab, root, v)} ::
      n > 0 && va < (v + 1) * PGSIZE && v * PGSIZE < va + n ==> Accessible(tab, root, v)
  }

  /** page' is page with the first k bytes of src written at va; every other byte is as it was. */
  ghost predicate Written(tab: Tables, page: seq<seq<int>>, page': seq<seq<int>>, root: nat, va: nat, src: seq<int>,
                          k: nat)
    requires IsMemory(tab) && root < |tab| && k <= |src|
  {
    forall v: nat, o: nat {:trigger ByteAt(tab, page', root, v, o)} :: v < PAGES && o < PGSIZE ==>
      ByteAt(tab, page', root, v, o)
      == if va <= v * PGSIZE + o < va + k then src[v * PGSIZE + o - va] else ByteAt(tab, page, root, v, o)
  }

  /** A write inside one page is seen at that page and nowhere else. */
  lemma WriteStep(tab: Tables, page: seq<seq<int>>, page1: seq<seq<int>>, root: nat, leaf: Leaves,
                  va: nat, src: seq<int>, k: nat, n: nat, at: nat, k': nat)
    requires IsMemory(tab) && root < |tab| == |page1| && Owned(tab, root, leaf) && Accessible(tab, root, at / PGSIZE)
    requires forall f :: 0 <= f < |page1| ==> |page1[f]| == PGSIZE
    requires at == va + k && k' == k + n <= |src| && at % PGSIZE + n <= PGSIZE
    requires Written(tab, page, page1, root, va, src, k)
    ensures Look(tab, root, at / PGSIZE).ppn < |page1|
    ensures var f := Look(tab, root, at / PGSIZE).ppn;
            Written(tab, page, page1[f := Splice(page1[f], at % PGSIZE, src[k..k'])], root, va, src, k')
  {
    var v, o0 := at / PGSIZE, at % PGSIZE;
    var f := Look(tab, root, v).ppn;
    assert Owns(tab, root, leaf, v) && OwnedBy(tab, root, leaf, f);
    assert at == v * PGSIZE + o0;
    var page2 := page1[f := Splice(page1[f], o0, src[k..k'])];
    forall w: nat, o: nat | w < PAGES && o < PGSIZE
      ensures ByteAt(tab, page2, root, w, o)
              == if va <= w * PGSIZE + o < va + k + n then src[w * PGSIZE + o - va] else ByteAt(tab, page, root, w, o)
    {
      assert Owns(tab, root, leaf, w);
      assert ByteAt(tab, page1, root, w, o)
             == if va <= w * PGSIZE + o < va + k then src[w * PGSIZE + o - va] else ByteAt(tab, page, root, w, o);
      if w == v {
        assert ByteAt(tab, page2, root, w, o) == if o0 <= o < o0 + n then src[k + o - o0] else page1[f][o];
      } else {
        assert ByteAt(tab, page2, root, w, o) == ByteAt(tab, page1, root, w, o);
      }
    }
  }

  /** One more chunk, inside one accessible page. */
  lemma AccessStep(tab: Tables, root: nat, va: nat, k: nat, n: nat, at: nat, k': nat)
    requires IsMemory(tab) && root < |tab| && AllAccessible(tab, root, va, k) && at == va + k && k' == k + n
    requires Accessible(tab, root, at / PGSIZE) && at % PGSIZE + n <= PGSIZE
    ensures AllAccessible(tab, root, va, k')
  {
    var q, o := at / PGSIZE, at % PGSIZE;
    forall v: nat | n > 0 && va < (v + 1) * PGSIZE && v * PGSIZE < va + k + n ensures Accessible(tab, root, v) {
      assert v * PGSIZE < q * PGSIZE + PGSIZE;
      if v < q {
        assert v * PGSIZE < va + k;
      }
    }
  }

  lemma AccessFails(tab: Tables, root: nat, va: nat, k: nat, n: nat, at: nat)
    requires IsMemory(tab) && root < |tab| && at == va + k && !Accessible(tab, root, at / PGSIZE) && k < n
    ensures !AllAccessible(tab, root, va, n)
  {
  }

  /** The walkaddr call both loops make: the frame under va, or -1. */
  method FrameOf(mem: Memory, root: nat, va: nat, ghost node: map<nat, Node>, ghost leaf: Leaves)
    returns (va0: nat, f: int)
    requires mem.Valid() && Tree(mem.tab, root, node) && mem.Free() !! node.Keys && Owned(mem.tab, root, leaf)
    modifies mem`tab, mem`free
    ensures mem.Valid() && mem.tab == old(mem.tab) && mem.free == old(mem.free)
    ensures va0 + va % PGSIZE == va
    ensures f < 0 <==> !Accessible(mem.tab, root, va / PGSIZE)
    ensures f >= 0 ==> f == Look(mem.tab, root, va / PGSIZE).ppn && f < mem.nframes && f in leaf
  {
    va0 := va / PGSIZE * PGSIZE;
    f := mem.WalkAddr(root, va0, node);
    if f >= 0 {
      assert va / PGSIZE < MAXPAGE;
      assert Owns(mem.tab, root, leaf, va / PGSIZE) && OwnedBy(mem.tab, root, leaf, f);
    }
  }

  lemma OutsideOne<T>(page: seq<T>, page1: seq<T>, fs: set<nat>, f: nat, x: T)
    requires Outside(page, page1, fs) && f in fs && f < |page1|
    ensures Outside(page, page1[f := x], fs)
  {
  }

  /** What copyout has done after k bytes, from the contents page on. */
  ghost predicate CopiedOut(tab: Tables, page: seq<seq<int>>, page1: seq<seq<int>>, root: nat, va: nat, src: seq<int>,
                            k: nat, frames: set<nat>)
    requires IsMemory(tab) && root < |tab|
  {
    && k <= |src| && Written(tab, page, page1, root, va, src, k) && AllAccessible(tab, root, va, k)
    && Outside(page, page1, frames)
  }

  /** One round of copyout: what is left of src, up to the end of the page under va. */
  method CopyOutPage(mem: Memory, root: nat, dstva: nat, src: seq<int>, k: nat, va: nat, ghost page: seq<seq<int>>,
                     ghost node: map<nat, Node>, ghost leaf: Leaves)
    returns (ok: bool, k': nat, va': nat)
    requires mem.Valid() && Tree(mem.tab, root, node) && mem.Free() !! node.Keys && Owned(mem.tab, root, leaf)
    requires k < |src| && va == dstva + k && CopiedOut(mem.tab, page, mem.page, root, dstva, src, k, leaf.Keys)
    modifies mem`tab, mem`free, mem`page
    ensures mem.Valid() && mem.tab == old(mem.tab) && mem.free == old(mem.free)
    ensures ok <==> Accessible(mem.tab, root, va / PGSIZE)
    ensures if ok then k < k' && (k' < |src| ==> va' == dstva + k') else k' == k
    ensures CopiedOut(mem.tab, page, mem.page, root, dstva, src, k', leaf.Keys)
  {
    var va0, f := FrameOf(mem, root, va, node, leaf);
    if f < 0 {
      return false, k, va;
    }
    var n := PGSIZE - (va - va0);
    if n > |src| - k {
      n := |src| - k;
    }
    ok, k', va' := true, k + n, va0 + PGSIZE;
    AccessStep(mem.tab, root, dstva, k, n, va, k');
    WriteStep(mem.tab, page, mem.page, root, leaf, dstva, src, k, n, va, k');
    OutsideOne(page, mem.page, leaf.Keys, f, Splice(mem.page[f], va - va0, src[k..k']));
    mem.page := mem.page[f := Splice(mem.page[f], va - va0, src[k..k'])];
  }

  /** copyout succeeds exactly when every page is accessible, and then user memory reads back src.  It
      writes k bytes: all of them, or those before the first page that is not accessible, and no frame of any
      other address space. */
  method CopyOut(mem: Memory, root: nat, dstva: nat, src: seq<int>, ghost node: map<nat, Node>, ghost leaf: Leaves)
    returns (ok: bool, k: nat)
    requires mem.Valid() && Tree(mem.tab, root, node) && mem.Free() !! node.Keys && Owned(mem.tab, root, leaf)
    modifies mem`tab, mem`free, mem`page
    ensures mem.Valid() && mem.tab == old(mem.tab) && mem.free == old(mem.free)
    ensures ok <==> AllAccessible(mem.tab, root, dstva, |src|)
    ensures k <= |src| && Written(mem.tab, old(mem.page), mem.page, root, dstva, src, k) && (ok <==> k == |src|)
    ensures AllAccessible(mem.tab, root, dstva, k)
    ensures !ok ==> !Accessible(mem.tab, root, (dstva + k) / PGSIZE)
    ensures Outside(old(mem.page), mem.page, leaf.Keys)
  {
    var va := dstva;
    ok, k := true, 0;
    while k < |src|
      invariant k <= |src| && (k < |src| ==> va == dstva + k)
      invariant mem.Valid() && mem.tab == old(mem.tab) && mem.free == old(mem.free)
      invariant CopiedOut(mem.tab, old(mem.page), mem.page, root, dstva, src, k, leaf.Keys)
    {
      ghost var at := va;
      ok, k, va := CopyOutPage(mem, root, dstva, src, k, va, old(mem.page), node, leaf);
      if !ok {
        AccessFails(mem.tab, root, dstva, k, |src|, at);
        return;
      }
    }
    ok := true;
  }

  /** The n bytes of user memory from va on. */
  ghost predicate Reads(tab: Tables, page: seq<seq<int>>, root: nat, va: nat, bytes: seq<int>)
    requires IsMemory(tab) && root < |tab|
  {
    forall i: nat {:trigger bytes[i]} :: i < |bytes| ==> bytes[i] == Byte(tab, page, root, va + i)
  }

  /** A chunk read inside one page continues what was read before. */
  lemma ReadStep(tab: Tables, page: seq<seq<int>>, root: nat, va: nat, bytes: seq<int>, n: nat, chunk: seq<int>,
                 at: nat)
    requires IsMemory(tab) && root < |tab| && Reads(tab, page, root, va, bytes) && at == va + |bytes|
    requires var e := Look(tab, root, at / PGSIZE);
             e.valid && e.ppn < |page| && |page[e.ppn]| == PGSIZE && at % PGSIZE + n <= PGSIZE
             && chunk == page[e.ppn][at % PGSIZE..at % PGSIZE + n]
    ensures Reads(tab, page, root, va, bytes + chunk)
  {
    var q, o := at / PGSIZE, at % PGSIZE;
    forall i: nat | i < |bytes| + n ensures (bytes + chunk)[i] == Byte(tab, page, root, va + i) {
      if i >= |bytes| {
        var j := i - |bytes|;
        assert va + i == q * PGSIZE + (o + j);
        assert (va + i) / PGSIZE == q && (va + i) % PGSIZE == o + j;
      }
    }
  }

  /** copyin succeeds exactly when every page is accessible, and then returns the bytes of user memory. */
  method CopyIn(mem: Memory, root: nat, srcva: nat, len: nat, ghost node: map<nat, Node>, ghost leaf: Leaves)
    returns (ok: bool, dst: seq<int>)
    requires mem.Valid() && Tree(mem.tab, root, node) && mem.Free() !! node.Keys && Owned(mem.tab, root, leaf)
    modifies mem`tab, mem`free
    ensures mem.Valid() && mem.tab == old(mem.tab) && mem.free == old(mem.free)
    ensures ok <==> AllAccessible(mem.tab, root, srcva, len)
    ensures ok ==> |dst| == len && Reads(mem.tab, mem.page, root, srcva, dst)
  {
    dst := [];
    var va := srcva;
    while |dst| < len
      invariant |dst| <= len && (|dst| < len ==> va == srcva + |dst|)
      invariant mem.Valid() && mem.tab == old(mem.tab) && mem.free == old(mem.free)
      invariant Reads(mem.tab, mem.page, root, srcva, dst)
      invariant AllAccessible(mem.tab, root, srcva, |dst|)
      decreases len - |dst|
    {
      var va0, f := FrameOf(mem, root, va, node, leaf);
      if f < 0 {
        AccessFails(mem.tab, root, srcva, |dst|, len, va);
        return false, dst;
      }
      var n := PGSIZE - (va - va0);
      if n > len - |dst| {
        n := len - |dst|;
      }
      AccessStep(mem.tab, root, srcva, |dst|, n, va, |dst| + n);
      var chunk := mem.page[f][va - va0..va - va0 + n];
      ReadStep(mem.tab, mem.page, root, srcva, dst, n, chunk, va);
      dst := dst + chunk;
      va := va0 + PGSIZE;
    }
    ok := true;
  }

  lemma WrittenReads(tab: Tables, page: seq<seq<int>>, page': seq<seq<int>>, root: nat, va: nat, src: seq<int>)
    requires IsMemory(tab) && root < |tab| && AllAccessible(tab, root, va, |src|)
    requires Written(tab, page, page', root, va, src, |src|)
    ensures Reads(tab, page', root, va, src)
  {
    forall i: nat | i < |src| ensures src[i] == Byte(tab, page', root, va + i) {
      var v, o := (va + i) / PGSIZE, (va + i) % PGSIZE;
      assert v * PGSIZE + o == va + i;
      assert Accessible(tab, root, v);
      assert ByteAt(tab, page', root, v, o) == src[v * PGSIZE + o - va];
    }
  }

  /** copyout then copyin over the same range returns the bytes written, whatever pages it crosses. */
  method CopyRoundTrip(mem: Memory, root: nat, va: nat, src: seq<int>, ghost node: map<nat, Node>, ghost leaf: Leaves)
    returns (ok: bool, dst: seq<int>)
    requires mem.Valid() && Tree(mem.tab, root, node) && mem.Free() !! node.Keys && Owned(mem.tab, root, leaf)
    modifies mem`tab, mem`free, mem`page
    ensures ok <==> AllAccessible(old(mem.tab), root, va, |src|)
    ensures ok ==> dst == src
  {
    dst := [];
    var k;
    ok, k := CopyOut(mem, root, va, src, node, leaf);
    if ok {
      ok, dst := CopyIn(mem, root, va, |src|, node, leaf);
      WrittenReads(mem.tab, old(mem.page), mem.page, root, va, src);
      assert forall i: nat :: i < |src| ==> dst[i] == src[i];
    }
  }

  /** A string with its terminator, and no other. */
  predicate Terminated(s: seq<int>) {
    |s| > 0 && s[|s| - 1] == 0 && 0 !in s[..|s| - 1]
  }

  /** The inner loop of copyinstr over the n bytes of one page from offset o on. */
  method Scan(p: seq<int>, o: nat, n: nat) returns (got: bool, chunk: seq<int>)
    requires o + n <= |p|
    ensures |chunk| <= n && chunk == p[o..o + |chunk|]
    ensures if got then Terminated(chunk) else |chunk| == n && 0 !in chunk
  {
    chunk := [];
    while |chunk| < n
      invariant |chunk| <= n && chunk == p[o..o + |chunk|] && 0 !in chunk
      decreases n - |chunk|
    {
      var b := p[o + |chunk|];
      if b == 0 {
        assert (chunk + [b])[..|chunk|] == chunk;
        return true, chunk + [b];
      }
      chunk := chunk + [b];
    }
    got := false;
  }

  /** copyinstr succeeds exactly when one of the first `max` bytes is NUL and the pages up to it are
      accessible; it then returns the bytes up to the first NUL, terminator included. */
  method CopyInStr(mem: Memory, root: nat, srcva: nat, max: nat, ghost node: map<nat, Node>, ghost leaf: Leaves)
    returns (ok: bool, dst: seq<int>)
    requires mem.Valid() && Tree(mem.tab, root, node) && mem.Free() !! node.Keys && Owned(mem.tab, root, leaf)
    modifies mem`tab, mem`free
    ensures mem.Valid() && mem.tab == old(mem.tab) && mem.free == old(mem.free)
    ensures ok ==> Terminated(dst) && |dst| <= max && Reads(mem.tab, mem.page, root, srcva, dst)
                   && AllAccessible(mem.tab, root, srcva, |dst|)
    ensures !ok ==> !exists s :: Terminated(s) && |s| <= max && Reads(mem.tab, mem.page, root, srcva, s)
                                 && AllAccessible(mem.tab, root, srcva, |s|)
  {
    dst := [];
    var got := false;
    var va := srcva;
    while !got && |dst| < max
      invariant |dst| <= max && (!got && |dst| < max ==> va == srcva + |dst|)
      invariant mem.Valid() && mem.tab == old(mem.tab) && mem.free == old(mem.free)
      invariant Reads(mem.tab, mem.page, root, srcva, dst) && AllAccessible(mem.tab, root, srcva, |dst|)
      invariant if got then Terminated(dst) else 0 !in dst
      decreases !got, max - |dst|
    {
      var va0, f := FrameOf(mem, root, va, node, leaf);
      if f < 0 {
        NoString(mem.tab, mem.page, root, srcva, max, dst);
        return false, dst;
      }
      var n := PGSIZE - (va - va0);
      if n > max - |dst| {
        n := max - |dst|;
      }
      var chunk;
      got, chunk := Scan(mem.page[f], va - va0, n);
      AccessStep(mem.tab, root, srcva, |dst|, |chunk|, va, |dst| + |chunk|);
      ReadStep(mem.tab, mem.page, root, srcva, dst, |chunk|, chunk, va);
      TerminatedConcat(dst, chunk);
      dst := dst + chunk;
      va := va0 + PGSIZE;
    }
    ok := got;
    if !ok {
      NoString(mem.tab, mem.page, root, srcva, max, dst);
    }
  }

  lemma TerminatedConcat(s: seq<int>, t: seq<int>)
    requires 0 !in s
    ensures Terminated(t) ==> Terminated(s + t)
  {
    if Terminated(t) {
      assert (s + t)[..|s + t| - 1] == s + t[..|t| - 1];
    }
  }

  lemma SameReads(tab: Tables, page: seq<seq<int>>, root: nat, va: nat, s: seq<int>, t: seq<int>)
    requires IsMemory(tab) && root < |tab| && Reads(tab, page, root, va, s) && Reads(tab, page, root, va, t)
    ensures forall i: nat :: i < |s| && i < |t| ==> s[i] == t[i]
  {
  }

  /** No terminator among the bytes read, and nothing readable after them. */
  lemma NoString(tab: Tables, page: seq<seq<int>>, root: nat, va: nat, max: nat, dst: seq<int>)
    requires IsMemory(tab) && root < |tab| && Reads(tab, page, root, va, dst) && 0 !in dst
    requires |dst| == max || (|dst| < max && !Accessible(tab, root, (va + |dst|) / PGSIZE))
    ensures !exists s ::
              Terminated(s) && |s| <= max && Reads(tab, page, root, va, s) && AllAccessible(tab, root, va, |s|)
  {
    forall s | Terminated(s) && |s| <= max && Reads(tab, page, root, va, s) ensures !AllAccessible(tab, root, va, |s|) {
      SameReads(tab, page, root, va, s, dst);
      var last := |s| - 1;
      if last < |dst| {
        assert false;
      }
      AccessFails(tab, root, va, |dst|, |s|, va + |dst|);
    }
  }
}
