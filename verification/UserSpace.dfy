/** The user half of kernel/vm.c: growing, shrinking, freeing and copying an address space, and moving
    bytes in and out of it. */
module UserSpace {
  import opened PageTree
  import opened Riscv
  import opened Vm

  /** TRAPFRAME, the first address user memory may not reach. */
  const TRAPFRAME: nat := MAXVA - 2 * PGSIZE

  ghost predicate Kept(tab: Tables, tab': Tables, root: nat, n: nat)
    requires IsMemory(tab) && IsMemory(tab') && root < |tab| == |tab'|
  {
    forall v: nat {:trigger Look(tab', root, v)} :: v < n ==> Look(tab', root, v) == Look(tab, root, v)
  }

  /** Pages n0 .. n - 1 are readable, writable, executable user pages full of zeros. */
  ghost predicate Zeroed(tab: Tables, page: seq<seq<int>>, root: nat, n0: nat, n: nat)
    requires IsMemory(tab) && root < |tab| == |page|
  {
    forall v: nat {:trigger Look(tab, root, v)} :: n0 <= v < n ==>
      && Look(tab, root, v).perm == PTE_W | PTE_X | PTE_R | PTE_U && Look(tab, root, v).ppn < |page|
      && page[Look(tab, root, v).ppn] == seq(PGSIZE, _ => 0)
  }

  lemma DroppedUnique(leaf: Leaves, a: Leaves, b: Leaves, v0: nat, m: nat)
    requires Dropped(leaf, a, v0, m) && Dropped(leaf, b, v0, m)
    ensures a == b
  {
    assert forall f :: f in a <==> f in b;
  }

  /** One more zeroed page, at page a on frame f. */
  lemma GrowStep(tab: Tables, page: seq<seq<int>>, tab': Tables, page': seq<seq<int>>, root: nat,
                 leaf0: Leaves, leaf: Leaves, free: set<nat>, n0: nat, a: nat, f: nat, k: nat, a': nat, k': nat)
    requires IsMemory(tab) && IsMemory(tab') && root < |tab| == |tab'| == |page| == |page'|
    requires n0 <= a < MAXPAGE && Contiguous(tab, root, a) && Owned(tab, root, leaf) && free !! leaf.Keys && f in free
    requires f < |page'| && Inserted(tab, tab', root, a, 1, f, PTE_W | PTE_X | PTE_R | PTE_U)
    requires Outside(page, page', free)
    requires page'[f] == seq(PGSIZE, _ => 0)
    requires Zeroed(tab, page, root, n0, a) && Dropped(leaf, leaf0, n0, k)
    requires a == n0 + k && a' == a + 1 && k' == k + 1
    ensures Zeroed(tab', page', root, n0, a') && Dropped(leaf[f := a], leaf0, n0, k')
  {
    forall v: nat | n0 <= v < a ensures Look(tab', root, v) == Look(tab, root, v) && Look(tab, root, v).ppn in leaf {
      assert Owns(tab, root, leaf, v);
    }
    LeavesBelow(tab, root, leaf, a);
  }

  /** uvmdealloc: returns the smaller size and gives back exactly the frames of the pages above it. */
  method UvmDealloc(mem: Memory, root: nat, oldsz: nat, newsz: nat, ghost node: map<nat, Node>, ghost leaf: Leaves)
    returns (r: nat, ghost leaf': Leaves)
    requires mem.Space(root, node, leaf, PagesOf(oldsz))
    modifies mem`tab, mem`free
    ensures r == if newsz >= oldsz then oldsz else newsz
    ensures mem.Space(root, node, leaf', PagesOf(r)) && PagesOf(r) <= PagesOf(oldsz)
    ensures Removed(old(mem.tab), mem.tab, root, PagesOf(r), PagesOf(oldsz) - PagesOf(r))
    ensures Dropped(leaf, leaf', PagesOf(r), PagesOf(oldsz) - PagesOf(r))
    ensures mem.Free() + leaf'.Keys == old(mem.Free()) + leaf.Keys
    ensures Outside(old(mem.tab), mem.tab, node.Keys)
  {
    leaf' := leaf;
    if newsz >= oldsz {
      return oldsz, leaf';
    }
    if PagesOf(newsz) < PagesOf(oldsz) {
      var npages := PagesOf(oldsz) - PagesOf(newsz);
      var stuck;
      ghost var m;
      assert PageOf(PagesOf(newsz) * PGSIZE) == PagesOf(newsz) && PagesOf(newsz) * PGSIZE % PGSIZE == 0;
      stuck, m, leaf' := mem.UvmUnmap(root, PagesOf(newsz) * PGSIZE, npages, true, node, leaf);
      assert !stuck;
    }
    r := newsz;
  }

  /** A round of uvmalloc's loop, for page a, after k pages from n0 on. */
  method AllocNext(mem: Memory, root: nat, a: nat, ghost n0: nat, ghost k: nat, ghost a': nat, ghost k': nat,
                   ghost n: nat, ghost node0: map<nat, Node>, ghost leaf0: Leaves, ghost node: map<nat, Node>,
                   ghost leaf: Leaves, ghost all: nat)
    returns (ok: bool, ghost node': map<nat, Node>, ghost leaf': Leaves)
    requires mem.Space(root, node, leaf, a) && a < MAXPAGE && a == n0 + k && a' == a + 1 && k' == k + 1 <= all
    requires Zeroed(mem.tab, mem.page, root, n0, a) && Dropped(leaf, leaf0, n0, k)
    requires Spent(n, |mem.free|, k, Places(node0), Places(node), ForPages(n0, k))
    modifies mem
    ensures mem.Space(root, node', leaf', if ok then a' else a)
    ensures Kept(old(mem.tab), mem.tab, root, a) && Outside(old(mem.page), mem.page, old(mem.Free()))
    ensures mem.Free() + node'.Keys + leaf'.Keys == old(mem.Free()) + node.Keys + leaf.Keys
    ensures !ok ==> leaf' == leaf && n < Cost(Places(node0), n0, all)
    ensures ok ==>
              && mem.Free() <= old(mem.Free())
              && Zeroed(mem.tab, mem.page, root, n0, a') && Dropped(leaf', leaf0, n0, k')
              && Spent(n, |mem.free|, k', Places(node0), Places(node'), ForPages(n0, k'))
  {
    ghost var tab1, page1, free1, n1 := mem.tab, mem.page, mem.Free(), |mem.free|;
    ghost var f;
    ok, f, node', leaf' := mem.AllocPage(root, a, seq(PGSIZE, _ => 0), PTE_W | PTE_X | PTE_R | PTE_U, node, leaf);
    if ok {
      SpentMore(n, n1, |mem.free|, k, Places(node0), Places(node), Places(node'), n0, a, k');
      GrowStep(tab1, page1, mem.tab, mem.page, root, leaf0, leaf, free1, n0, a, f, k, a', k');
    } else {
      CostsMore(n, n1, k, Places(node0), Places(node), n0, a, all);
    }
  }

  /** uvmalloc's loop: page after page, k of them, until newsz is reached or a frame is missing. */
  method AllocPages(mem: Memory, root: nat, n0: nat, newsz: nat, ghost all: nat, ghost node: map<nat, Node>,
                    ghost leaf: Leaves)
    returns (ok: bool, a: nat, ghost k: nat, ghost node': map<nat, Node>, ghost leaf': Leaves)
    requires mem.Space(root, node, leaf, n0) && newsz <= TRAPFRAME && PagesOf(newsz) == n0 + all
    modifies mem
    ensures a == n0 + k && mem.Space(root, node', leaf', a)
    ensures if ok then k == all else k < all
    ensures Kept(old(mem.tab), mem.tab, root, n0) && Outside(old(mem.page), mem.page, old(mem.Free()))
    ensures (ok ==> Zeroed(mem.tab, mem.page, root, n0, a)) && Dropped(leaf', leaf, n0, k)
    ensures mem.Free() + node'.Keys + leaf'.Keys == old(mem.Free()) + node.Keys + leaf.Keys
    ensures ok <==> |old(mem.free)| >= Cost(Places(node), n0, all)
  {
    node', leaf', a, k := node, leaf, n0, 0;
    NoneUsed(|mem.free|, Places(node));
    while a * PGSIZE < newsz
      invariant a == n0 + k && k <= all && mem.Space(root, node', leaf', a)
      invariant Kept(old(mem.tab), mem.tab, root, n0) && Outside(old(mem.page), mem.page, old(mem.Free()))
      invariant Zeroed(mem.tab, mem.page, root, n0, a) && Dropped(leaf', leaf, n0, k)
      invariant mem.Free() <= old(mem.Free())
      invariant mem.Free() + node'.Keys + leaf'.Keys == old(mem.Free()) + node.Keys + leaf.Keys
      invariant Spent(|old(mem.free)|, |mem.free|, k, Places(node), Places(node'), ForPages(n0, k))
      decreases newsz - a * PGSIZE
    {
      ghost var a', k' := a + 1, k + 1;
      ok, node', leaf' := AllocNext(mem, root, a, n0, k, a', k', |old(mem.free)|, node, leaf, node', leaf', all);
      if !ok {
        return false, a, k, node', leaf';
      }
      k, a := k', a + 1;
    }
    ok := true;
  }

  /** uvmalloc: all new pages zeroed and mapped, or the old mappings back; no frame is lost either way. */
  method UvmAlloc(mem: Memory, root: nat, oldsz: nat, newsz: nat, ghost node: map<nat, Node>, ghost leaf: Leaves)
    returns (r: nat, ghost ok: bool, ghost node': map<nat, Node>, ghost leaf': Leaves)
    requires mem.Space(root, node, leaf, PagesOf(oldsz)) && newsz <= TRAPFRAME
    modifies mem
    ensures r == if newsz < oldsz then oldsz else if ok then newsz else 0
    ensures mem.Space(root, node', leaf', if ok && newsz >= oldsz then PagesOf(newsz) else PagesOf(oldsz))
    ensures Kept(old(mem.tab), mem.tab, root, PagesOf(oldsz)) && Outside(old(mem.page), mem.page, old(mem.Free()))
    ensures ok ==> Zeroed(mem.tab, mem.page, root, PagesOf(oldsz), PagesOf(newsz))
    ensures if ok && newsz >= oldsz then Dropped(leaf', leaf, PagesOf(oldsz), PagesOf(newsz) - PagesOf(oldsz))
            else leaf' == leaf
    ensures mem.Free() + node'.Keys + leaf'.Keys == old(mem.Free()) + node.Keys + leaf.Keys
    ensures ok <==> newsz < oldsz
                    || |old(mem.free)| >= Cost(Places(node), PagesOf(oldsz), PagesOf(newsz) - PagesOf(oldsz))
  {
    node', leaf', ok := node, leaf, true;
    if newsz < oldsz {
      return oldsz, ok, node', leaf';
    }
    var n0 := PagesOf(oldsz);
    var good, a;
    ghost var k;
    good, a, k, node', leaf' := AllocPages(mem, root, n0, newsz, PagesOf(newsz) - n0, node, leaf);
    if !good {
      ok := false;
      ghost var leafk := leaf';
      assert PagesOf(a * PGSIZE) == a && PagesOf(n0 * PGSIZE) == n0;
      r, leaf' := UvmDealloc(mem, root, a * PGSIZE, n0 * PGSIZE, node', leaf');
      DroppedUnique(leafk, leaf, leaf', n0, k);
      return 0, ok, node', leaf';
    }
    r := newsz;
  }

  /** uvmfree gives back exactly the frames the address space holds. */
  method UvmFree(mem: Memory, root: nat, sz: nat, ghost node: map<nat, Node>, ghost leaf: Leaves)
    requires mem.Space(root, node, leaf, PagesOf(sz))
    modifies mem`tab, mem`free
    ensures mem.Valid() && mem.Free() == old(mem.Free()) + node.Keys + leaf.Keys
    ensures Outside(old(mem.tab), mem.tab, node.Keys)
  {
    ghost var leaf' := leaf;
    if sz > 0 {
      var stuck;
      ghost var m;
      stuck, m, leaf' := mem.UvmUnmap(root, 0, PagesOf(sz), true, node, leaf);
      assert !stuck;
    }
    assert Contiguous(mem.tab, root, 0);
    LeavesBelow(mem.tab, root, leaf', 0);
    assert leaf'.Keys == {};
    NoPagesNoLeaves(mem.tab, root, node);
    NoLeavesAnywhere(mem.tab, node);
    var stuck := mem.FreeWalk(root, root, node);
  }

  lemma NoLeavesAnywhere(tab: Tables, node: map<nat, Node>)
    requires IsMemory(tab) && NoLeaves(tab, node)
    ensures Rwx(tab, node) && forall fs :: EmptyIn(tab, node, fs)
  {
    forall g: nat | g in node && node[g].Leaf? ensures RwxAt(tab, g) {
      assert NoEntries(tab, g);
    }
  }

  lemma LeavesBelow(tab: Tables, root: nat, leaf: Leaves, n: nat)
    requires IsMemory(tab) && root < |tab| && Owned(tab, root, leaf) && Contiguous(tab, root, n)
    ensures forall f :: f in leaf ==> leaf[f] < n
  {
    forall f: nat | f in leaf ensures leaf[f] < n {
      assert OwnedBy(tab, root, leaf, f);
    }
  }

  datatype Resize = Grow(to: nat) | Shrink(to: nat)

  /** Frame conservation over the life of an address space: created, grown and shrunk in any order,
      failed growth included, and freed, it returns exactly the frames it took, each once. */
  method Lifetime(mem: Memory, ops: seq<Resize>)
    requires mem.Valid()
    requires forall i :: 0 <= i < |ops| ==> ops[i].to <= TRAPFRAME
    modifies mem
    ensures mem.Valid() && mem.Free() == old(mem.Free())
  {
    var root;
    ghost var node: map<nat, Node>, leaf: Leaves := map[], map[];
    root, node := mem.UvmCreate();
    if root < 0 {
      return;
    }
    var sz := 0;
    var i := 0;
    while i < |ops|
      invariant 0 <= i <= |ops| && mem.Space(root, node, leaf, PagesOf(sz))
      invariant mem.Free() + node.Keys + leaf.Keys == old(mem.Free())
    {
      match ops[i] {
        case Grow(to) =>
          var r;
          ghost var ok;
          r, ok, node, leaf := UvmAlloc(mem, root, sz, to, node, leaf);
          if r != 0 {
            sz := r;
          }
        case Shrink(to) =>
          sz, leaf := UvmDealloc(mem, root, sz, to, node, leaf);
      }
      i := i + 1;
    }
    UvmFree(mem, root, sz, node, leaf);
  }

  /** An address space none of whose frames was touched is still there, unchanged. */
  lemma SpaceFrame(tab: Tables, tab': Tables, root: nat, node: map<nat, Node>, leaf: Leaves, n: nat)
    requires Tree(tab, root, node) && Owned(tab, root, leaf) && Contiguous(tab, root, n)
    requires IsMemory(tab') && |tab'| == |tab| && forall f :: f in node && f < |tab| ==> tab'[f] == tab[f]
    ensures Tree(tab', root, node) && Owned(tab', root, leaf) && Contiguous(tab', root, n)
    ensures forall v: nat {:trigger Look(tab', root, v)} :: Look(tab', root, v) == Look(tab, root, v)
  {
    TreeFrame(tab, tab', root, node);
    forall v: nat ensures Look(tab', root, v) == Look(tab, root, v) {
      SameLook(tab, tab', root, v);
    }
    OwnedAfterSame(tab, tab', root, leaf);
  }

  /** Two entries with the same permissions, for pages with the same contents. */
  predicate SamePage(page: seq<seq<int>>, e1: Pte, e2: Pte) {
    e1.ppn < |page| && e2.ppn < |page| && e2.perm == e1.perm && page[e2.ppn] == page[e1.ppn]
  }

  /** Pages below n agree in permissions and in contents. */
  ghost predicate Copied(tab: Tables, page: seq<seq<int>>, root1: nat, root2: nat, n: nat)
    requires IsMemory(tab) && root1 < |tab| && root2 < |tab| == |page|
  {
    forall v: nat {:trigger Look(tab, root2, v)} :: v < n ==> SamePage(page, Look(tab, root1, v), Look(tab, root2, v))
  }

  lemma SamePageKept(page: seq<seq<int>>, page': seq<seq<int>>, free: set<nat>, e1: Pte, e2: Pte)
    requires SamePage(page, e1, e2) && Outside(page, page', free) && e1.ppn !in free && e2.ppn !in free
    ensures SamePage(page', e1, e2)
  {
  }

  lemma OwnFrame(tab: Tables, root: nat, leaf: Leaves, n: nat, free: set<nat>, v: nat)
    requires IsMemory(tab) && root < |tab| && Contiguous(tab, root, n) && Owned(tab, root, leaf) && free !! leaf.Keys
    requires v < n <= MAXPAGE
    ensures Look(tab, root, v).ppn !in free
  {
    assert Owns(tab, root, leaf, v);
  }

  /** The page copied last. */
  lemma CopiedLast(tab: Tables, page: seq<seq<int>>, tab': Tables, page': seq<seq<int>>, root1: nat, leaf1: Leaves,
                   root2: nat, free: set<nat>, n: nat, a: nat, f: nat)
    requires IsMemory(tab) && IsMemory(tab') && root1 < |tab| && root2 < |tab| == |tab'| == |page| == |page'|
    requires a < n <= MAXPAGE && Contiguous(tab, root1, n) && Owned(tab, root1, leaf1) && free !! leaf1.Keys
    requires f < |page| && Outside(page, page', free) && Look(tab', root1, a) == Look(tab, root1, a)
    requires Inserted(tab, tab', root2, a, 1, f, Look(tab, root1, a).perm)
    requires Look(tab, root1, a).ppn < |page| && page'[f] == page[Look(tab, root1, a).ppn]
    ensures SamePage(page', Look(tab', root1, a), Look(tab', root2, a))
  {
    OwnFrame(tab, root1, leaf1, n, free, a);
    assert Look(tab', root2, a) == Pte(f, true, Look(tab, root1, a).perm);
  }

  /** One more page copied, from page a of root1 to frame f. */
  lemma CopyStep(tab: Tables, page: seq<seq<int>>, tab': Tables, page': seq<seq<int>>,
                 root1: nat, leaf1: Leaves, root2: nat, leaf2: Leaves, free: set<nat>, n: nat, a: nat, f: nat)
    requires IsMemory(tab) && IsMemory(tab') && root1 < |tab| && root2 < |tab| == |tab'| == |page| == |page'|
    requires a < n <= MAXPAGE && Contiguous(tab, root1, n) && Owned(tab, root1, leaf1)
    requires Contiguous(tab, root2, a) && Owned(tab, root2, leaf2)
    requires free !! leaf1.Keys && free !! leaf2.Keys && f in free && f < |page| && Outside(page, page', free)
    requires forall v: nat {:trigger Look(tab', root1, v)} :: Look(tab', root1, v) == Look(tab, root1, v)
    requires Inserted(tab, tab', root2, a, 1, f, Look(tab, root1, a).perm)
    requires Look(tab, root1, a).ppn < |page| && page'[f] == page[Look(tab, root1, a).ppn]
    requires Copied(tab, page, root1, root2, a)
    ensures Copied(tab', page', root1, root2, a + 1)
  {
    CopiedLast(tab, page, tab', page', root1, leaf1, root2, free, n, a, f);
    forall v: nat | v < a ensures SamePage(page', Look(tab', root1, v), Look(tab', root2, v)) {
      OwnFrame(tab, root1, leaf1, n, free, v);
      OwnFrame(tab, root2, leaf2, a, free, v);
      SamePageKept(page, page', free, Look(tab, root1, v), Look(tab, root2, v));
      assert Look(tab', root2, v) == Look(tab, root2, v);
    }
  }

  /** The entry of a mapped page, found through walk(alloc = 0). */
  method PteOf(mem: Memory, root: nat, v: nat, ghost node: map<nat, Node>) returns (e: Pte)
    requires mem.Valid() && Tree(mem.tab, root, node) && mem.Free() !! node.Keys
    requires v < MAXPAGE && Look(mem.tab, root, v).valid
    modifies mem`tab, mem`free
    ensures mem.Valid() && mem.tab == old(mem.tab) && mem.free == old(mem.free) && e == Look(mem.tab, root, v)
  {
    var at;
    ghost var node';
    at, node' := mem.Walk(root, v * PGSIZE, false, node);
    LookupEnds(mem.tab, root, node, PathOf(v * PGSIZE));
    assert at.At?;  // "uvmcopy: pte should exist"
    assert Up(mem.tab, root, node, at.f);
    e := mem.tab[at.f][at.k];
  }

  /** The body of uvmcopy's loop. */
  method CopyPage(mem: Memory, root1: nat, root2: nat, v: nat, ghost v': nat, ghost n: nat, ghost frames: nat,
                  ghost node1: map<nat, Node>, ghost leaf1: Leaves, ghost node0: map<nat, Node>,
                  ghost node2: map<nat, Node>, ghost leaf2: Leaves)
    returns (ok: bool, ghost node2': map<nat, Node>, ghost leaf2': Leaves)
    requires mem.Space(root1, node1, leaf1, n) && mem.Space(root2, node2, leaf2, v) && v < n && v' == v + 1
    requires Spent(frames, |mem.free|, v, Places(node0), Places(node2), ForPages(0, v))
    requires node1.Keys !! node2.Keys && node1.Keys !! leaf2.Keys && leaf1.Keys !! node2.Keys
    requires Copied(mem.tab, mem.page, root1, root2, v)
    modifies mem
    ensures mem.Space(root1, node1, leaf1, n) && mem.Space(root2, node2', leaf2', if ok then v' else v)
    ensures node1.Keys !! node2'.Keys && node1.Keys !! leaf2'.Keys && leaf1.Keys !! node2'.Keys
    ensures node2.Keys <= node2'.Keys
    ensures Outside(old(mem.tab), mem.tab, node2'.Keys) && Outside(old(mem.page), mem.page, old(mem.Free()))
    ensures mem.Free() + node2'.Keys + leaf2'.Keys == old(mem.Free()) + node2.Keys + leaf2.Keys
    ensures ok ==> Spent(frames, |mem.free|, v', Places(node0), Places(node2'), ForPages(0, v'))
    ensures !ok ==> frames < Cost(Places(node0), 0, n)
    ensures ok ==> Copied(mem.tab, mem.page, root1, root2, v')
    ensures ok ==> exists f :: f in old(mem.Free()) && leaf2' == leaf2[f := v]
    ensures !ok ==> leaf2' == leaf2
  {
    var e := PteOf(mem, root1, v, node1);
    assert Owns(mem.tab, root1, leaf1, v) && OwnedBy(mem.tab, root1, leaf1, e.ppn);
    ghost var tab, page, free, n1 := mem.tab, mem.page, mem.Free(), |mem.free|;
    ghost var f;
    ok, f, node2', leaf2' := mem.AllocPage(root2, v, mem.page[e.ppn], e.perm, node2, leaf2);
    SpaceFrame(tab, mem.tab, root1, node1, leaf1, n);
    if !ok {
      CostsMore(frames, n1, v, Places(node0), Places(node2), 0, v, n);
    } else {
      SpentMore(frames, n1, |mem.free|, v, Places(node0), Places(node2), Places(node2'), 0, v, v');
      CopyStep(tab, page, mem.tab, mem.page, root1, leaf1, root2, leaf2, free, n, v, f);
    }
  }

  /** uvmcopy's error exit: unmap and free the pages copied so far. */
  method UndoCopy(mem: Memory, root1: nat, root2: nat, i: nat, ghost n: nat,
                  ghost node1: map<nat, Node>, ghost leaf1: Leaves, ghost node2: map<nat, Node>, ghost leaf2: Leaves)
    requires mem.Space(root1, node1, leaf1, n) && mem.Space(root2, node2, leaf2, i)
    requires node2.Keys + leaf2.Keys !! node1.Keys + leaf1.Keys
    modifies mem`tab, mem`free
    ensures mem.Space(root1, node1, leaf1, n) && mem.Space(root2, node2, map[], 0)
    ensures Outside(old(mem.tab), mem.tab, node2.Keys)
    ensures mem.Free() == old(mem.Free()) + leaf2.Keys
  {
    var stuck;
    ghost var m, leaf, tab := 0, leaf2, mem.tab;
    stuck, m, leaf := mem.UvmUnmap(root2, 0, i, true, node2, leaf2);
    assert !stuck;
    LeavesBelow(mem.tab, root2, leaf, 0);
    assert leaf.Keys == {};
    SpaceFrame(tab, mem.tab, root1, node1, leaf1, n);
  }

  /** uvmcopy's loop: i pages are copied, all of them or up to one that a frame is missing for. */
  method CopyPages(mem: Memory, root1: nat, root2: nat, sz: nat,
                   ghost node1: map<nat, Node>, ghost leaf1: Leaves, ghost node2: map<nat, Node>)
    returns (ok: bool, i: nat, ghost node2': map<nat, Node>, ghost leaf2': Leaves)
    requires mem.Space(root1, node1, leaf1, PagesOf(sz)) && mem.Space(root2, node2, map[], 0)
    requires node1.Keys !! node2.Keys && leaf1.Keys !! node2.Keys
    modifies mem
    ensures mem.Space(root1, node1, leaf1, PagesOf(sz)) && mem.Space(root2, node2', leaf2', i)
    ensures node2'.Keys + leaf2'.Keys !! node1.Keys + leaf1.Keys
    ensures Outside(old(mem.tab), mem.tab, node2'.Keys) && Outside(old(mem.page), mem.page, old(mem.Free()))
    ensures ok ==> i == PagesOf(sz) && Copied(mem.tab, mem.page, root1, root2, i)
    ensures mem.Free() + node2'.Keys + leaf2'.Keys == old(mem.Free()) + node2.Keys
    ensures ok <==> |old(mem.free)| >= Cost(Places(node2), 0, PagesOf(sz))
  {
    node2', leaf2', i := node2, map[], 0;
    ghost var n := PagesOf(sz);
    NoneUsed(|mem.free|, Places(node2));
    while i * PGSIZE < sz
      invariant 0 <= i <= n
      invariant mem.Space(root1, node1, leaf1, n) && mem.Space(root2, node2', leaf2', i)
      invariant node2'.Keys + leaf2'.Keys !! node1.Keys + leaf1.Keys
      invariant Outside(old(mem.tab), mem.tab, node2'.Keys) && Outside(old(mem.page), mem.page, old(mem.Free()))
      invariant Copied(mem.tab, mem.page, root1, root2, i)
      invariant mem.Free() + node2'.Keys + leaf2'.Keys == old(mem.Free()) + node2.Keys
      invariant mem.Free() <= old(mem.Free())
      invariant Spent(|old(mem.free)|, |mem.free|, i, Places(node2), Places(node2'), ForPages(0, i))
      decreases sz - i * PGSIZE
    {
      var i' := i + 1;
      ok, node2', leaf2' := CopyPage(mem, root1, root2, i, i', n, |old(mem.free)|, node1, leaf1, node2, node2', leaf2');
      if !ok {
        return;
      }
      i := i';
    }
    ok := true;
  }

  /** uvmcopy into a fresh address space: equal permissions and contents in frames of its own, or
      nothing mapped at all; the parent is untouched and no frame is lost. */
  method UvmCopy(mem: Memory, root1: nat, root2: nat, sz: nat,
                 ghost node1: map<nat, Node>, ghost leaf1: Leaves, ghost node2: map<nat, Node>)
    returns (ok: bool, ghost node2': map<nat, Node>, ghost leaf2': Leaves)
    requires mem.Space(root1, node1, leaf1, PagesOf(sz)) && mem.Space(root2, node2, map[], 0)
    requires node1.Keys !! node2.Keys && leaf1.Keys !! node2.Keys
    modifies mem
    ensures mem.Space(root1, node1, leaf1, PagesOf(sz))
    ensures mem.Space(root2, node2', leaf2', if ok then PagesOf(sz) else 0) && (!ok ==> leaf2' == map[])
    ensures node2'.Keys + leaf2'.Keys !! node1.Keys + leaf1.Keys
    ensures Outside(old(mem.tab), mem.tab, node2'.Keys) && Outside(old(mem.page), mem.page, old(mem.Free()))
    ensures ok ==> Copied(mem.tab, mem.page, root1, root2, PagesOf(sz))
    ensures mem.Free() + node2'.Keys + leaf2'.Keys == old(mem.Free()) + node2.Keys
    ensures ok <==> |old(mem.free)| >= Cost(Places(node2), 0, PagesOf(sz))
  {
    var i;
    ok, i, node2', leaf2' := CopyPages(mem, root1, root2, sz, node1, leaf1, node2);
    if !ok {
      UndoCopy(mem, root1, root2, i, PagesOf(sz), node1, leaf1, node2', leaf2');
      leaf2' := map[];
    }
  }
}
