/** Which pages of a user address space the kernel will copy to and from: uvmclear of kernel/vm.c, which exec
    uses to make a guard page, and the pages uvmalloc makes. */
module UserAccess {
  import opened PageTree
  import opened Riscv
  import opened Vm
  import opened UserSpace
  import opened UserCopy

  /** tab' is tab with PTE_U cleared in the entry of page v. */
  ghost predicate Cleared(tab: Tables, tab': Tables, root: nat, v: nat)
    requires IsMemory(tab) && IsMemory(tab') && root < |tab| == |tab'|
  {
    forall w: nat {:trigger Look(tab', root, w)} :: w < PAGES ==>
      Look(tab', root, w) == if w == v then WithoutU(Look(tab, root, w)) else Look(tab, root, w)
  }

  /** An address and the first one of its page are on one path. */
  lemma SamePath(va: nat)
    ensures PathOf(PageOf(va) * PGSIZE) == PathOf(va)
  {
    var v := PageOf(va);
    assert v * PGSIZE / 0x1000 == v == va / 0x1000;
    assert v * PGSIZE / 0x20_0000 == v / 512 == va / 0x20_0000;
    assert v * PGSIZE / 0x4000_0000 == v / 262144 == va / 0x4000_0000;
  }

  /** uvmclear: a panic exactly when there is no table for the page; else its entry loses PTE_U and nothing else
      changes. */
  method UvmClear(mem: Memory, root: nat, va: nat, ghost node: map<nat, Node>) returns (stuck: bool)
    requires mem.Valid() && Tree(mem.tab, root, node) && mem.Free() !! node.Keys
    modifies mem`tab, mem`free
    ensures mem.Valid() && Tree(mem.tab, root, node) && mem.free == old(mem.free)
    ensures stuck <==> va >= MAXVA || Missing(old(mem.tab), root, PathOf(va))
    ensures if stuck then mem.tab == old(mem.tab) else Cleared(old(mem.tab), mem.tab, root, PageOf(va))
  {
    var at;
    ghost var node';
    at, node' := mem.Walk(root, va, false, node);
    if !at.At? {
      return true;
    }
    ClearEntry(mem.tab, root, node, at.f, va);
    mem.tab := mem.tab[at.f := mem.tab[at.f][at.k := WithoutU(mem.tab[at.f][at.k])]];
    stuck := false;
  }

  /** *pte &= ~PTE_U */
  function WithoutU(e: Pte): Pte {
    e.(perm := e.perm & !PTE_U)
  }

  lemma ClearEntry(tab: Tables, root: nat, node: map<nat, Node>, f: nat, va: nat)
    requires Tree(tab, root, node) && va < MAXVA && f in node && node[f] == Leaf(PathOf(va).i, PathOf(va).j)
    ensures f < |tab| && !Missing(tab, root, PathOf(va))
    ensures var tab' := tab[f := tab[f][PathOf(va).k := WithoutU(tab[f][PathOf(va).k])]];
            Tree(tab', root, node) && Cleared(tab, tab', root, PageOf(va))
  {
    SamePath(va);
    assert Up(tab, root, node, f);
    SetPage(tab, root, node, f, PageOf(va), WithoutU(tab[f][PathOf(va).k]));
  }

  /** Frames stay with their pages. */
  lemma ClearedOwned(tab: Tables, tab': Tables, root: nat, leaf: Leaves, v: nat)
    requires IsMemory(tab) && IsMemory(tab') && root < |tab| == |tab'| && Owned(tab, root, leaf)
    requires Cleared(tab, tab', root, v)
    ensures Owned(tab', root, leaf)
  {
    forall w: nat | w < PAGES ensures Owns(tab', root, leaf, w) {
      assert Owns(tab, root, leaf, w);
    }
    forall f: nat | f in leaf ensures OwnedBy(tab', root, leaf, f) {
      assert OwnedBy(tab, root, leaf, f);
    }
  }

  lemma MaskedBit(perm: bv64)
    ensures perm & !PTE_U & PTE_U == 0
  {
  }

  /** A range with a byte of a cleared page is not accessible, and one without is as accessible as before. */
  lemma ClearedRange(tab: Tables, tab': Tables, root: nat, v: nat, va: nat, n: nat)
    requires IsMemory(tab) && IsMemory(tab') && root < |tab| == |tab'| && Cleared(tab, tab', root, v)
    ensures AllAccessible(tab', root, va, n)
            <==> AllAccessible(tab, root, va, n) && !(n > 0 && va < (v + 1) * PGSIZE && v * PGSIZE < va + n)
  {
    if v < PAGES {
      MaskedBit(Look(tab, root, v).perm);
    }
    assert !Accessible(tab', root, v);
    forall w: nat | w != v ensures Accessible(tab', root, w) <==> Accessible(tab, root, w) {
    }
    if AllAccessible(tab, root, va, n) && !(n > 0 && va < (v + 1) * PGSIZE && v * PGSIZE < va + n) {
      forall w: nat | n > 0 && va < (w + 1) * PGSIZE && w * PGSIZE < va + n ensures Accessible(tab', root, w) {
        assert Accessible(tab, root, w);
      }
    }
    if AllAccessible(tab', root, va, n) {
      forall w: nat | n > 0 && va < (w + 1) * PGSIZE && w * PGSIZE < va + n ensures Accessible(tab, root, w) {
        assert Accessible(tab', root, w);
      }
    }
  }

  /** A page without PTE_U, such as exec's guard page, cannot be copied to or from: of a range that reaches into it
      copyout writes at most the bytes before the page, and copyin fails; copyinstr finds only strings that end
      before the page. */
  method GuardPage(mem: Memory, root: nat, guard: nat, va: nat, src: seq<int>, ghost node: map<nat, Node>,
                   ghost leaf: Leaves)
    returns (stuck: bool, out: bool, k: nat, inn: bool, found: bool, str: seq<int>)
    requires mem.Valid() && Tree(mem.tab, root, node) && mem.Free() !! node.Keys && Owned(mem.tab, root, leaf)
    requires va <= guard < va + |src|
    modifies mem
    ensures !stuck ==> !out && !inn && (k > 0 ==> va + k <= PageOf(guard) * PGSIZE)
    ensures !stuck && found ==> va + |str| <= PageOf(guard) * PGSIZE
  {
    out, k, inn, found, str := false, 0, false, false, [];
    stuck := UvmClear(mem, root, guard, node);
    if stuck {
      return;
    }
    ghost var v := PageOf(guard);
    ClearedOwned(old(mem.tab), mem.tab, root, leaf, v);
    ClearedRange(old(mem.tab), mem.tab, root, v, va, |src|);
    out, k := CopyOut(mem, root, va, src, node, leaf);
    ClearedRange(old(mem.tab), mem.tab, root, v, va, k);
    var bytes;
    inn, bytes := CopyIn(mem, root, va, |src|, node, leaf);
    found, str := CopyInStr(mem, root, va, |src|, node, leaf);
    ClearedRange(old(mem.tab), mem.tab, root, v, va, |str|);
  }

  /** The pages uvmalloc adds are accessible. */
  lemma NewPagesAccessible(tab: Tables, page: seq<seq<int>>, root: nat, n0: nat, n: nat, v: nat)
    requires IsMemory(tab) && root < |tab| == |page| && n <= MAXPAGE
    requires Contiguous(tab, root, n) && Zeroed(tab, page, root, n0, n) && n0 <= v < n
    ensures Accessible(tab, root, v)
  {
  }

  // ---------------------------------------------------------------- the memory of a forked process

  /** The byte at offset o of page v is the same in two address spaces. */
  ghost predicate SameByte(tab: Tables, page: seq<seq<int>>, root: nat, tab': Tables, page': seq<seq<int>>, root': nat,
                           v: nat, o: nat)
    requires IsMemory(tab) && root < |tab| && IsMemory(tab') && root' < |tab'|
  {
    ByteAt(tab', page', root', v, o) == ByteAt(tab, page, root, v, o)
  }

  /** Two address spaces read the same everywhere. */
  ghost predicate SameBytes(tab: Tables, page: seq<seq<int>>, root: nat, tab': Tables, page': seq<seq<int>>, root': nat)
    requires IsMemory(tab) && root < |tab| && IsMemory(tab') && root' < |tab'|
  {
    forall v: nat, o: nat {:trigger SameByte(tab, page, root, tab', page', root', v, o)} ::
      v < PAGES && o < PGSIZE ==> SameByte(tab, page, root, tab', page', root', v, o)
  }

  /** The second address space reads as the first, but for the k bytes of src at va. */
  ghost predicate ReadsBut(tab: Tables, page: seq<seq<int>>, root: nat, tab': Tables, page': seq<seq<int>>, root': nat,
                           va: nat, src: seq<int>, k: nat)
    requires IsMemory(tab) && root < |tab| && IsMemory(tab') && root' < |tab'|
  {
    && k <= |src|
    && forall v: nat, o: nat {:trigger ByteAt(tab', page', root', v, o)} :: v < PAGES && o < PGSIZE ==>
         ByteAt(tab', page', root', v, o)
         == if va <= v * PGSIZE + o < va + k then src[v * PGSIZE + o - va] else ByteAt(tab, page, root, v, o)
  }

  /** A copied address space reads as the original and is as accessible. */
  lemma CopyReadsSame(tab: Tables, page: seq<seq<int>>, root1: nat, root2: nat, n: nat, v: nat, o: nat)
    requires IsMemory(tab) && root1 < |tab| && root2 < |tab| == |page| && n <= MAXPAGE && v < PAGES
    requires Contiguous(tab, root1, n) && Contiguous(tab, root2, n) && Copied(tab, page, root1, root2, n)
    ensures SameByte(tab, page, root1, tab, page, root2, v, o)
    ensures Accessible(tab, root2, v) <==> Accessible(tab, root1, v)
  {
    if v < n {
      assert SamePage(page, Look(tab, root1, v), Look(tab, root2, v));
    }
  }

  /** Changes in frames that an address space does not own are not seen in it. */
  lemma OthersUnseen(tab: Tables, page: seq<seq<int>>, tab': Tables, page': seq<seq<int>>, root: nat,
                     node: map<nat, Node>, leaf: Leaves, n: nat, nodes: set<nat>, frames: set<nat>, v: nat, o: nat)
    requires Tree(tab, root, node) && Owned(tab, root, leaf) && Contiguous(tab, root, n) && IsMemory(tab') && v < PAGES
    requires Outside(tab, tab', nodes) && Outside(page, page', frames) && nodes !! node.Keys && frames !! leaf.Keys
    ensures SameByte(tab, page, root, tab', page', root, v, o)
  {
    SpaceFrame(tab, tab', root, node, leaf, n);
    assert Owns(tab, root, leaf, v) && Look(tab', root, v) == Look(tab, root, v);
    var f := Look(tab, root, v).ppn;
    if f < |page| && f !in frames {
      assert page'[f] == page[f];
    }
  }

  lemma AllUnseen(tab: Tables, page: seq<seq<int>>, tab': Tables, page': seq<seq<int>>, root: nat,
                  node: map<nat, Node>, leaf: Leaves, n: nat, nodes: set<nat>, frames: set<nat>)
    requires Tree(tab, root, node) && Owned(tab, root, leaf) && Contiguous(tab, root, n) && IsMemory(tab')
    requires Outside(tab, tab', nodes) && Outside(page, page', frames) && nodes !! node.Keys && frames !! leaf.Keys
    ensures SameBytes(tab, page, root, tab', page', root)
  {
    forall v: nat, o: nat | v < PAGES && o < PGSIZE ensures SameByte(tab, page, root, tab', page', root, v, o) {
      OthersUnseen(tab, page, tab', page', root, node, leaf, n, nodes, frames, v, o);
    }
  }

  /** From the parent before the copy to the child after its write. */
  lemma ChildReads(tab0: Tables, page0: seq<seq<int>>, root1: nat, tab: Tables, page1: seq<seq<int>>, root2: nat,
                   n: nat, page2: seq<seq<int>>, va: nat, src: seq<int>, k: nat)
    requires IsMemory(tab0) && root1 < |tab0| == |tab| && IsMemory(tab) && root2 < |tab| == |page1| && n <= MAXPAGE
    requires SameBytes(tab0, page0, root1, tab, page1, root1)
    requires Contiguous(tab, root1, n) && Contiguous(tab, root2, n) && Copied(tab, page1, root1, root2, n)
    requires k <= |src| && Written(tab, page1, page2, root2, va, src, k)
    ensures ReadsBut(tab0, page0, root1, tab, page2, root2, va, src, k)
  {
    forall v: nat, o: nat | v < PAGES && o < PGSIZE
      ensures ByteAt(tab, page2, root2, v, o)
              == if va <= v * PGSIZE + o < va + k then src[v * PGSIZE + o - va] else ByteAt(tab0, page0, root1, v, o)
    {
      assert SameByte(tab0, page0, root1, tab, page1, root1, v, o);
      CopyReadsSame(tab, page1, root1, root2, n, v, o);
    }
  }

  lemma SameTwice(tab: Tables, page: seq<seq<int>>, root: nat, tab1: Tables, page1: seq<seq<int>>, page2: seq<seq<int>>)
    requires IsMemory(tab) && root < |tab| && IsMemory(tab1) && root < |tab1|
    requires SameBytes(tab, page, root, tab1, page1, root) && SameBytes(tab1, page1, root, tab1, page2, root)
    ensures SameBytes(tab, page, root, tab1, page2, root)
  {
    forall v: nat, o: nat | v < PAGES && o < PGSIZE ensures SameByte(tab, page, root, tab1, page2, root, v, o) {
      assert SameByte(tab, page, root, tab1, page1, root, v, o) && SameByte(tab1, page1, root, tab1, page2, root, v, o);
    }
  }

  /** fork's copy is a copy: after uvmcopy, whatever the child writes, the parent reads every byte as before, and the
      child reads what it wrote and else what the parent had. */
  method ForkIsolates(mem: Memory, root1: nat, root2: nat, sz: nat, va: nat, src: seq<int>,
                      ghost node1: map<nat, Node>, ghost leaf1: Leaves, ghost node2: map<nat, Node>)
    returns (ok: bool, k: nat)
    requires mem.Space(root1, node1, leaf1, PagesOf(sz)) && mem.Space(root2, node2, map[], 0)
    requires node1.Keys !! node2.Keys && leaf1.Keys !! node2.Keys
    modifies mem
    ensures mem.Valid() && |mem.tab| == |old(mem.tab)|
    ensures SameBytes(old(mem.tab), old(mem.page), root1, mem.tab, mem.page, root1)
    ensures ok ==> ReadsBut(old(mem.tab), old(mem.page), root1, mem.tab, mem.page, root2, va, src, k)
  {
    ghost var n, free0 := PagesOf(sz), mem.Free();
    ghost var node2', leaf2';
    k := 0;
    ok, node2', leaf2' := UvmCopy(mem, root1, root2, sz, node1, leaf1, node2);
    ghost var tab1, page1 := mem.tab, mem.page;
    AllUnseen(old(mem.tab), old(mem.page), tab1, page1, root1, node1, leaf1, n, node2'.Keys, free0);
    if !ok {
      return;
    }
    var done;
    done, k := CopyOut(mem, root2, va, src, node2', leaf2');
    ChildReads(old(mem.tab), old(mem.page), root1, tab1, page1, root2, n, mem.page, va, src, k);
    AllUnseen(tab1, page1, tab1, mem.page, root1, node1, leaf1, n, {}, leaf2'.Keys);
    SameTwice(old(mem.tab), old(mem.page), root1, tab1, page1, mem.page);
  }
}
