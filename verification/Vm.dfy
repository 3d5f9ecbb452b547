/** kernel/vm.c over the frame allocator of kernel/kalloc.c.  Physical memory is two views of the
    frames: `tab` for frames used as page tables, `page` for frames holding bytes. */
module Vm {
  import opened Counting
  import opened PageTree
  import opened Riscv

  const MAXVA: nat := 0x40_0000_0000

  function PathOf(va: nat): (p: Path)
    ensures IsPath(p)
  {
    Path(Index(2, va), Index(1, va), Index(0, va))
  }

  /** MAXVA in pages, half of what three 9-bit indices can name. */
  const MAXPAGE: nat := 0x400_0000
  const PAGES: nat := 0x800_0000

  /** The entry for virtual page v. */
  ghost function Look(tab: Tables, root: nat, v: nat): Pte
    requires IsMemory(tab) && root < |tab|
  {
    Lookup(tab, root, PathOf(v * PGSIZE))
  }

  /** The three indices are the digits of the page number to base 512. */
  lemma PathDigits(v: nat)
    requires v < PAGES
    ensures PathOf(v * PGSIZE).i * 262144 + PathOf(v * PGSIZE).j * 512 + PathOf(v * PGSIZE).k == v
  {
    DigitsRebuild(v * PGSIZE);
  }

  lemma PathInjective(v: nat, w: nat)
    requires v < PAGES && w < PAGES && PathOf(v * PGSIZE) == PathOf(w * PGSIZE)
    ensures v == w
  {
    PathDigits(v);
    PathDigits(w);
  }

  /** Every path is the path of a page. */
  function PageAt(p: Path): (v: nat)
    requires IsPath(p)
    ensures v < PAGES && PathOf(v * PGSIZE) == p
  {
    var v := p.i * 262144 + p.j * 512 + p.k;
    assert v / 512 == p.i * 512 + p.j && v % 512 == p.k;
    assert v / 512 / 512 == p.i && v / 512 % 512 == p.j;
    assert v * PGSIZE / 0x20_0000 == v / 512 && v * PGSIZE / 0x4000_0000 == v / 512 / 512;
    v
  }

  /** Without mapped pages the bottom tables are empty. */
  lemma NoPagesNoLeaves(tab: Tables, root: nat, node: map<nat, Node>)
    requires Tree(tab, root, node) && Contiguous(tab, root, 0)
    ensures NoLeaves(tab, node)
  {
    forall g: nat | g in node && node[g].Leaf? ensures NoEntries(tab, g) {
      assert Up(tab, root, node, g);
      forall e: nat | e < ENTRIES ensures !tab[g][e].valid {
        var p := Path(node[g].i, node[g].j, e);
        LookupEnds(tab, root, node, p);
        assert Look(tab, root, PageAt(p)) == Lookup(tab, root, p);
      }
    }
  }

  /** tab' is tab with m pages from v0 on mapped to consecutive frames from ppn on. */
  ghost predicate Inserted(tab: Tables, tab': Tables, root: nat, v0: nat, m: nat, ppn: nat, perm: bv64)
    requires IsMemory(tab) && IsMemory(tab') && root < |tab| == |tab'|
  {
    forall v: nat {:trigger Look(tab', root, v)} :: v < PAGES ==>
      Look(tab', root, v) == if v0 <= v < v0 + m then Pte(ppn + (v - v0), true, perm) else Look(tab, root, v)
  }

  /** tab' is tab with m pages from v0 on unmapped. */
  ghost predicate Removed(tab: Tables, tab': Tables, root: nat, v0: nat, m: nat)
    requires IsMemory(tab) && IsMemory(tab') && root < |tab| == |tab'|
  {
    forall v: nat {:trigger Look(tab', root, v)} :: v < PAGES ==>
      Look(tab', root, v) == if v0 <= v < v0 + m then NONE else Look(tab, root, v)
  }

  ghost predicate Unmapped(tab: Tables, root: nat, v0: nat, m: nat)
    requires IsMemory(tab) && root < |tab|
  {
    forall v: nat {:trigger Look(tab, root, v)} :: v0 <= v < v0 + m ==> v < MAXPAGE && !Look(tab, root, v).valid
  }

  lemma SameLook(tab: Tables, tab': Tables, root: nat, v: nat)
    requires IsMemory(tab) && IsMemory(tab') && root < |tab| == |tab'| && SameLookup(tab, tab', root)
    ensures Look(tab', root, v) == Look(tab, root, v)
  {
    assert IsPath(PathOf(v * PGSIZE));
  }

  /** Writing one entry changes one page. */
  lemma SetPage(tab: Tables, root: nat, node: map<nat, Node>, f: nat, v: nat, e: Pte)
    requires Tree(tab, root, node) && v < MAXPAGE && f in node && f < |tab|
    requires node[f] == Leaf(PathOf(v * PGSIZE).i, PathOf(v * PGSIZE).j)
    ensures var tab' := tab[f := tab[f][PathOf(v * PGSIZE).k := e]];
            && Tree(tab', root, node) && Look(tab, root, v) == tab[f][PathOf(v * PGSIZE).k]
            && forall w: nat {:trigger Look(tab', root, w)} :: w < PAGES ==>
                 Look(tab', root, w) == if w == v then e else Look(tab, root, w)
  {
    var p := PathOf(v * PGSIZE);
    SetEntry(tab, root, node, f, p, e);
    var tab' := tab[f := tab[f][p.k := e]];
    forall w: nat | w < PAGES ensures Look(tab', root, w) == if w == v then e else Look(tab, root, w) {
      if w != v && PathOf(w * PGSIZE) == p {
        PathInjective(v, w);
      }
    }
  }

  /** walk's result: a pointer to an entry, a null pointer, or a panic. */
  datatype WalkResult = Panic | Null | At(f: nat, k: nat)

  /** Frames moved from the free ones to the tree, none lost. */
  ghost predicate Taken(free: set<nat>, free': set<nat>, node: map<nat, Node>, node': map<nat, Node>) {
    && free' <= free && node.Keys <= node'.Keys
    && free' + node'.Keys == free + node.Keys
    && free' !! node'.Keys
    && forall f :: f in node ==> node'[f] == node[f]
  }

  /** The places in the tree that have a table. */
  ghost function Places(node: map<nat, Node>): set<Node> {
    set f | f in node :: node[f]
  }

  /** The places of the tables, below the root, that a walk down to a level goes through. */
  function OnPath(p: Path, level: nat): set<Node> {
    if level >= 2 then {} else if level == 1 then {Mid(p.i)} else {Mid(p.i), Leaf(p.i, p.j)}
  }

  lemma OnPathNext(p: Path, level: nat, x: Node)
    requires (level == 2 && x == Mid(p.i)) || (level == 1 && x == Leaf(p.i, p.j))
    ensures OnPath(p, level - 1) == OnPath(p, level) + {x} && OnPath(p, level) <= OnPath(p, 0) && {x} <= OnPath(p, 0)
  {
  }

  /** The tables for page v: a table of the lowest level is for 512 pages, one above it for 512 of these. */
  function ForPage(v: nat): set<Node> {
    {Mid(v / 262144), Leaf(v / 262144, v / 512 % 512)}
  }

  /** The tables for the pages v0, v0 + 1, ..., m of them. */
  function ForPages(v0: nat, m: nat): set<Node> {
    if m == 0 then {} else ForPages(v0, m - 1) + ForPage(v0 + m - 1)
  }

  /** The tables for page v0 and the m pages after it. */
  function Through(v0: nat, m: nat): set<Node> {
    ForPages(v0, m + 1)
  }

  lemma OnePageOnly(v: nat, w: nat, m: nat)
    requires w == v
    ensures (m == 0 ==> Through(w, m) == ForPage(v)) && (m == 1 ==> ForPages(w, m) == ForPage(v))
  {
    assert ForPages(v, 1) == ForPages(v, 0) + ForPage(v);
  }

  lemma ForPagesNext(v0: nat, m: nat, v: nat, m': nat)
    requires v == v0 + m && m' == m + 1
    ensures ForPages(v0, m') == ForPages(v0, m) + ForPage(v)
  {
  }

  lemma PathForPage(v: nat)
    requires v < PAGES
    ensures OnPath(PathOf(v * PGSIZE), 0) == ForPage(v)
  {
    assert v * PGSIZE / 0x20_0000 == v / 512 && v * PGSIZE / 0x4000_0000 == v / 262144;
  }

  /** With tables at the places a, those of t that have none. */
  ghost function Absent(a: set<Node>, t: set<Node>): nat {
    |set x | x in t && x !in a|
  }

  lemma AbsentIs(a: set<Node>, t: set<Node>)
    ensures Absent(a, t) == |t - a|
  {
    assert (set x | x in t && x !in a) == t - a;
  }

  ghost predicate GrownAt(a: set<Node>, a': set<Node>, t: set<Node>, x: Node) {
    x in a' <==> x in a || x in t
  }

  /** Of n free frames n' are left; the others became tables, and with the tables in a those of t are there. */
  ghost predicate Used(n: nat, n': nat, a: set<Node>, a': set<Node>, t: set<Node>) {
    (forall x: Node {:trigger GrownAt(a, a', t, x)} :: GrownAt(a, a', t, x)) && n == n' + Absent(a, t)
  }

  lemma UsedIs(n: nat, n': nat, a: set<Node>, a': set<Node>, t: set<Node>)
    requires Used(n, n', a, a', t)
    ensures a' == a + t
  {
    forall x: Node ensures x in a' <==> x in a + t {
      assert GrownAt(a, a', t, x);
    }
  }

  lemma NoneUsed(n: nat, a: set<Node>)
    ensures Used(n, n, a, a, {})
  {
    AbsentIs(a, {});
    assert {} - a == {};
  }

  /** A place that has its table already, and one that got it. */
  lemma UsedKnown(n: nat, a: set<Node>, x: Node)
    requires x in a
    ensures Used(n, n, a, a, {x})
  {
    AbsentIs(a, {x});
    assert {x} - a == {};
  }

  lemma UsedNew(n: nat, n': nat, a: set<Node>, a': set<Node>, x: Node)
    requires x !in a && a' == a + {x} && n == n' + 1
    ensures Used(n, n', a, a', {x})
  {
    AbsentIs(a, {x});
    assert {x} - a == {x};
  }

  lemma AbsentAdd(a: set<Node>, t: set<Node>, u: set<Node>)
    ensures Absent(a, t + u) == Absent(a, t) + Absent(a + t, u)
  {
    AbsentIs(a, t);
    AbsentIs(a, t + u);
    AbsentIs(a + t, u);
    var x, y := t - a, u - (a + t);
    assert t + u - a == x + y && x !! y;
  }

  lemma UsedTwice(n: nat, n1: nat, n2: nat, a: set<Node>, a1: set<Node>, a2: set<Node>, t: set<Node>, u: set<Node>,
                  all: set<Node>)
    requires Used(n, n1, a, a1, t) && Used(n1, n2, a1, a2, u) && all == t + u
    ensures Used(n, n2, a, a2, all)
  {
    UsedIs(n, n1, a, a1, t);
    UsedIs(n1, n2, a1, a2, u);
    AbsentAdd(a, t, u);
  }

  /** After the tables of t there are too few frames left for those of u. */
  lemma TooFew(n: nat, n1: nat, a: set<Node>, a1: set<Node>, t: set<Node>, u: set<Node>, all: set<Node>)
    requires Used(n, n1, a, a1, t) && n1 < Absent(a1, u) && t <= all && u <= all
    ensures n < Absent(a, all)
  {
    UsedIs(n, n1, a, a1, t);
    AbsentAdd(a, t, u);
    AbsentLess(a, t + u, all);
  }

  lemma AbsentLess(a: set<Node>, t: set<Node>, all: set<Node>)
    requires t <= all
    ensures Absent(a, t) <= Absent(a, all)
  {
    AbsentIs(a, t);
    AbsentIs(a, all);
    SubsetCard(t - a, all - a);
  }

  lemma AbsentOne(a: set<Node>, x: Node)
    requires x !in a
    ensures Absent(a, {x}) == 1
  {
    AbsentIs(a, {x});
    assert {x} - a == {x};
  }

  /** Of n free frames n' are left; k of the others hold pages and the rest are tables, as in Used. */
  ghost predicate Spent(n: nat, n': nat, k: nat, a: set<Node>, a': set<Node>, t: set<Node>) {
    n >= k && Used(n - k, n', a, a', t)
  }

  lemma SpentMore(n: nat, n1: nat, n2: nat, k: nat, a: set<Node>, a1: set<Node>, a2: set<Node>, v0: nat, v: nat,
                  k': nat)
    requires Spent(n, n1, k, a, a1, ForPages(v0, k)) && Spent(n1, n2, 1, a1, a2, ForPage(v))
    requires v == v0 + k && k' == k + 1
    ensures Spent(n, n2, k', a, a2, ForPages(v0, k'))
  {
    var t, u := ForPages(v0, k), ForPage(v);
    UsedIs(n - k, n1, a, a1, t);
    UsedIs(n1 - 1, n2, a1, a2, u);
    AbsentAdd(a, t, u);
    ForPagesNext(v0, k, v, k');
  }

  /** The frames that k new pages from page v0 on take, with the tables that are missing for them. */
  ghost function Cost(a: set<Node>, v0: nat, k: nat): nat {
    k + Absent(a, ForPages(v0, k))
  }

  /** One page too many. */
  lemma CostsMore(n: nat, n1: nat, k: nat, a: set<Node>, a1: set<Node>, v0: nat, v: nat, all: nat)
    requires Spent(n, n1, k, a, a1, ForPages(v0, k)) && n1 < 1 + Absent(a1, ForPage(v)) && v == v0 + k && k < all
    ensures n < Cost(a, v0, all)
  {
    var t, u := ForPages(v0, k), ForPage(v);
    UsedIs(n - k, n1, a, a1, t);
    AbsentAdd(a, t, u);
    ForPagesNext(v0, k, v, k + 1);
    ForPagesGrow(v0, k + 1, all);
    AbsentLess(a, ForPages(v0, k + 1), ForPages(v0, all));
  }

  lemma {:induction false} ForPagesGrow(v0: nat, k: nat, n: nat)
    requires k <= n
    ensures ForPages(v0, k) <= ForPages(v0, n)
  {
    if k < n {
      ForPagesGrow(v0, k, n - 1);
    }
  }

  lemma NewPlace(node: map<nat, Node>, g: nat, x: Node)
    requires g !in node
    ensures Places(node[g := x]) == Places(node) + {x}
  {
    forall y ensures y in Places(node[g := x]) <==> y in Places(node) || y == x {
      if y in Places(node) {
        var f :| f in node && node[f] == y;
        assert node[g := x][f] == y;
      }
      assert node[g := x][g] == x;
    }
  }

  /** An invalid entry belongs to a place without a table. */
  lemma NoTable(tab: Tables, root: nat, node: map<nat, Node>, f: nat, e: nat)
    requires Tree(tab, root, node) && f in node && f < |tab| && !node[f].Leaf? && e < ENTRIES && !tab[f][e].valid
    ensures Child(node[f], e) !in Places(node)
  {
    forall g | g in node ensures node[g] != Child(node[f], e) {
      NotThere(tab, root, node, f, e, g);
    }
  }

  lemma NotThere(tab: Tables, root: nat, node: map<nat, Node>, f: nat, e: nat, g: nat)
    requires Tree(tab, root, node) && f in node && f < |tab| && !node[f].Leaf? && e < ENTRIES && g in node
    ensures node[g] == Child(node[f], e) ==> tab[f][e].valid
  {
    assert Up(tab, root, node, f) && Up(tab, root, node, g);
    if node[f].Mid? {
      assert node[g].Leaf? ==> tab[root][node[g].i].ppn < |tab|;
    }
  }

  /** From tab0 with n0 free frames to tab with n: m pages were mapped that were not, and the frames not free any
      more are their tables. */
  ghost predicate Mapping(tab0: Tables, n0: nat, node0: map<nat, Node>, tab: Tables, n: nat, node: map<nat, Node>,
                          root: nat, v0: nat, m: nat, ppn: nat, perm: bv64)
  {
    && IsMemory(tab0) && IsMemory(tab) && root < |tab0| == |tab|
    && Inserted(tab0, tab, root, v0, m, ppn, perm) && Unmapped(tab0, root, v0, m)
    && Used(n0, n, Places(node0), Places(node), ForPages(v0, m))
  }

  /** The page after m pages from v0 on is out of range or mapped already. */
  ghost predicate Blocked(tab: Tables, root: nat, v0: nat, m: nat)
    requires IsMemory(tab) && root < |tab|
  {
    v0 + m >= MAXPAGE || Look(tab, root, v0 + m).valid
  }

  /** Pages v0, v0 + 1, ..., n of them, can be mapped: they are not, and there are frames for the tables
      missing for them. */
  ghost predicate CanMap(tab: Tables, free: nat, node: map<nat, Node>, root: nat, v0: nat, n: nat)
    requires IsMemory(tab) && root < |tab|
  {
    Unmapped(tab, root, v0, n) && free >= Absent(Places(node), ForPages(v0, n))
  }

  /** The pages under size bytes at va. */
  function PagesIn(va: nat, size: nat): nat {
    if size == 0 then 0 else PageOf(va + size - 1) + 1 - PageOf(va)
  }

  lemma CanDo(tab: Tables, free: nat, node: map<nat, Node>, root: nat, v0: nat, m: nat, n: nat, free': nat,
              a': set<Node>)
    requires IsMemory(tab) && root < |tab| && m == n && Unmapped(tab, root, v0, m)
    requires Used(free, free', Places(node), a', ForPages(v0, m))
    ensures CanMap(tab, free, node, root, v0, n)
  {
  }

  lemma CannotDo(tab: Tables, free: nat, node: map<nat, Node>, root: nat, v0: nat, m: nat, n: nat, short: bool)
    requires IsMemory(tab) && root < |tab| && m < n
    requires if short then free < Absent(Places(node), Through(v0, m)) else Blocked(tab, root, v0, m)
    ensures !CanMap(tab, free, node, root, v0, n)
  {
    if short {
      ForPagesGrow(v0, m + 1, n);
      AbsentLess(Places(node), Through(v0, m), ForPages(v0, n));
    }
  }

  lemma BlockedAt(tab0: Tables, tab: Tables, root: nat, v0: nat, m: nat, v: nat, ppn: nat, perm: bv64)
    requires IsMemory(tab0) && IsMemory(tab) && root < |tab0| == |tab| && Inserted(tab0, tab, root, v0, m, ppn, perm)
    requires v == v0 + m && (v >= MAXPAGE || Look(tab, root, v).valid)
    ensures Blocked(tab0, root, v0, m)
  {
    assert v < MAXPAGE ==> Look(tab, root, v) == Look(tab0, root, v);
  }

  lemma MappingStarts(tab: Tables, n: nat, node: map<nat, Node>, root: nat, v0: nat, ppn: nat, perm: bv64)
    requires IsMemory(tab) && root < |tab|
    ensures Mapping(tab, n, node, tab, n, node, root, v0, 0, ppn, perm)
  {
    NoneUsed(n, Places(node));
  }

  lemma MappingGoesOn(tab0: Tables, n0: nat, node0: map<nat, Node>, tab1: Tables, n1: nat, node1: map<nat, Node>,
                      tab2: Tables, n2: nat, node2: map<nat, Node>, root: nat, v0: nat, m: nat, ppn: nat, perm: bv64,
                      v: nat, m': nat)
    requires Mapping(tab0, n0, node0, tab1, n1, node1, root, v0, m, ppn, perm) && v == v0 + m && m' == m + 1
    requires IsMemory(tab2) && |tab2| == |tab1| && v < MAXPAGE && !Look(tab1, root, v).valid
    requires forall w: nat {:trigger Look(tab2, root, w)} :: w < PAGES ==>
               Look(tab2, root, w) == if w == v then Pte(ppn + m, true, perm) else Look(tab1, root, w)
    requires Used(n1, n2, Places(node1), Places(node2), ForPage(v))
    ensures Mapping(tab0, n0, node0, tab2, n2, node2, root, v0, m', ppn, perm)
  {
    assert Look(tab1, root, v) == Look(tab0, root, v);
    UnmappedOne(tab0, root, v0, m);
    InsertOne(tab0, tab1, tab2, root, v0, m, ppn, perm);
    ForPagesNext(v0, m, v, m');
    UsedTwice(n0, n1, n2, Places(node0), Places(node1), Places(node2), ForPages(v0, m), ForPage(v), ForPages(v0, m'));
  }

  lemma MappingEnds(n0: nat, node0: map<nat, Node>, n1: nat, node1: map<nat, Node>, v0: nat, m: nat, v: nat)
    requires Used(n0, n1, Places(node0), Places(node1), ForPages(v0, m)) && v == v0 + m
    requires n1 < Absent(Places(node1), ForPage(v))
    ensures n0 < Absent(Places(node0), Through(v0, m))
  {
    ForPagesNext(v0, m, v, m + 1);
    TooFew(n0, n1, Places(node0), Places(node1), ForPages(v0, m), ForPage(v), Through(v0, m));
  }

  /** The tables at f and below for path p are missing. */
  ghost predicate Missing(tab: Tables, root: nat, p: Path)
    requires IsMemory(tab) && root < |tab| && IsPath(p)
  {
    var e2 := tab[root][p.i];
    !e2.valid || (e2.ppn < |tab| && !tab[e2.ppn][p.j].valid)
  }

  /** Only the frames fs may have changed. */
  ghost predicate Outside<T>(tab: seq<T>, tab': seq<T>, fs: set<nat>) {
    |tab| == |tab'| && forall f: nat {:trigger tab'[f]} :: f < |tab| && f !in fs ==> tab'[f] == tab[f]
  }

  /** The data frames of an address space and the one page each is mapped at. */
  type Leaves = map<nat, nat>

  ghost predicate Owns(tab: Tables, root: nat, leaf: Leaves, v: nat)
    requires IsMemory(tab) && root < |tab|
  {
    var e := Look(tab, root, v);
    e.valid ==> e.ppn in leaf && leaf[e.ppn] == v
  }

  ghost predicate OwnedBy(tab: Tables, root: nat, leaf: Leaves, f: nat)
    requires IsMemory(tab) && root < |tab| && f in leaf
  {
    && f < |tab| && leaf[f] < PAGES
    && Look(tab, root, leaf[f]).valid && Look(tab, root, leaf[f]).ppn == f
  }

  /** Every mapped page has a frame of its own. */
  ghost predicate Owned(tab: Tables, root: nat, leaf: Leaves)
    requires IsMemory(tab) && root < |tab|
  {
    && (forall v: nat {:trigger Owns(tab, root, leaf, v)} :: v < PAGES ==> Owns(tab, root, leaf, v))
    && (forall f: nat {:trigger OwnedBy(tab, root, leaf, f)} :: f in leaf ==> OwnedBy(tab, root, leaf, f))
  }

  /** leaf' is leaf without the pages v0 .. v0 + m - 1. */
  ghost predicate Dropped(leaf: Leaves, leaf': Leaves, v0: nat, m: nat) {
    && (forall f :: f in leaf' <==> f in leaf && !(v0 <= leaf[f] < v0 + m))
    && (forall f :: f in leaf' ==> leaf'[f] == leaf[f])
  }

  lemma OwnedAfterRemove(tab: Tables, tab': Tables, root: nat, leaf: Leaves, v: nat)
    requires IsMemory(tab) && IsMemory(tab') && root < |tab| == |tab'| && Owned(tab, root, leaf)
    requires v < MAXPAGE && Look(tab, root, v).valid && Removed(tab, tab', root, v, 1)
    ensures Look(tab, root, v).ppn in leaf && leaf[Look(tab, root, v).ppn] == v && Look(tab, root, v).ppn < |tab|
    ensures Owned(tab', root, leaf - {Look(tab, root, v).ppn})
    ensures Dropped(leaf, leaf - {Look(tab, root, v).ppn}, v, 1)
  {
    var f := Look(tab, root, v).ppn;
    var leaf' := leaf - {f};
    assert Owns(tab, root, leaf, v) && OwnedBy(tab, root, leaf, f);
    forall w: nat | w < PAGES ensures Owns(tab', root, leaf', w) {
      assert Owns(tab, root, leaf, w);
    }
    forall g: nat | g in leaf' ensures OwnedBy(tab', root, leaf', g) {
      assert OwnedBy(tab, root, leaf, g);
    }
  }

  lemma OwnedAfterInsert(tab: Tables, tab': Tables, root: nat, leaf: Leaves, v: nat, f: nat, perm: bv64)
    requires IsMemory(tab) && IsMemory(tab') && root < |tab| == |tab'| && Owned(tab, root, leaf)
    requires v < MAXPAGE && !Look(tab, root, v).valid && f < |tab| && f !in leaf
    requires Inserted(tab, tab', root, v, 1, f, perm)
    ensures Owned(tab', root, leaf[f := v])
  {
    var leaf' := leaf[f := v];
    forall w: nat | w < PAGES ensures Owns(tab', root, leaf', w) {
      assert Owns(tab, root, leaf, w);
    }
    forall g: nat | g in leaf' ensures OwnedBy(tab', root, leaf', g) {
      if g != f { assert OwnedBy(tab, root, leaf, g); }
    }
  }

  lemma OwnedAfterSame(tab: Tables, tab': Tables, root: nat, leaf: Leaves)
    requires IsMemory(tab) && IsMemory(tab') && root < |tab| == |tab'| && Owned(tab, root, leaf)
    requires forall v: nat {:trigger Look(tab', root, v)} :: v < PAGES ==> Look(tab', root, v) == Look(tab, root, v)
    ensures Owned(tab', root, leaf)
  {
    forall w: nat | w < PAGES ensures Owns(tab', root, leaf, w) {
      assert Owns(tab, root, leaf, w);
    }
    forall g: nat | g in leaf ensures OwnedBy(tab', root, leaf, g) {
      assert OwnedBy(tab, root, leaf, g);
    }
  }

  /** PTE_V and PTE_U */
  predicate UserPage(e: Pte) {
    e.valid && e.perm & PTE_U != 0
  }

  /** Exactly the pages below n are mapped, by entries uvmunmap takes for leaves. */
  ghost predicate Contiguous(tab: Tables, root: nat, n: nat)
    requires IsMemory(tab) && root < |tab|
  {
    forall v: nat {:trigger Look(tab, root, v)} :: v < PAGES ==>
      (Look(tab, root, v).valid <==> v < n) && (v < n ==> Look(tab, root, v).perm != 0)
  }

  /** A page uvmunmap can unmap: mapped, and not by a bare PTE_V. */
  ghost predicate Removable(tab: Tables, root: nat, v: nat)
    requires IsMemory(tab) && root < |tab|
  {
    v < MAXPAGE && Look(tab, root, v).valid && Look(tab, root, v).perm != 0
  }

  /** Success, out of frames, or a panic. */
  datatype Outcome = Ok | Fail | Stuck

  lemma InsertOne(tab0: Tables, tab1: Tables, tab2: Tables, root: nat, v0: nat, m: nat, ppn: nat, perm: bv64)
    requires IsMemory(tab0) && IsMemory(tab1) && IsMemory(tab2) && root < |tab0| == |tab1| == |tab2|
    requires Inserted(tab0, tab1, root, v0, m, ppn, perm)
    requires forall w: nat {:trigger Look(tab2, root, w)} :: w < PAGES ==>
               Look(tab2, root, w) == if w == v0 + m then Pte(ppn + m, true, perm) else Look(tab1, root, w)
    ensures Inserted(tab0, tab2, root, v0, m + 1, ppn, perm)
  {
  }

  lemma InsertNone(tab0: Tables, tab1: Tables, tab2: Tables, root: nat, v0: nat, m: nat, ppn: nat, perm: bv64)
    requires IsMemory(tab0) && IsMemory(tab1) && IsMemory(tab2) && root < |tab0| == |tab1| == |tab2|
    requires Inserted(tab0, tab1, root, v0, m, ppn, perm) && SameLookup(tab1, tab2, root)
    ensures Inserted(tab0, tab2, root, v0, m, ppn, perm)
  {
    forall v: nat ensures Look(tab2, root, v) == Look(tab1, root, v) {
      SameLook(tab1, tab2, root, v);
    }
  }

  lemma RemoveOne(tab0: Tables, tab1: Tables, tab2: Tables, root: nat, v0: nat, m: nat)
    requires IsMemory(tab0) && IsMemory(tab1) && IsMemory(tab2) && root < |tab0| == |tab1| == |tab2|
    requires Removed(tab0, tab1, root, v0, m) && Removed(tab1, tab2, root, v0 + m, 1)
    ensures Removed(tab0, tab2, root, v0, m + 1)
  {
  }

  lemma UnmappedOne(tab: Tables, root: nat, v0: nat, m: nat)
    requires IsMemory(tab) && root < |tab| && Unmapped(tab, root, v0, m)
    requires v0 + m < MAXPAGE && !Look(tab, root, v0 + m).valid
    ensures Unmapped(tab, root, v0, m + 1)
  {
  }

  lemma ChildBelow(node: map<nat, Node>, f: nat, e: nat, g: nat)
    requires f in node && g in node && !node[f].Leaf? && node[g] == Child(node[f], e)
    ensures Below(node, g) <= Below(node, f) && g != f && f !in Below(node, g)
  {
  }

  /** Entries of a bottom table are readable, writable or executable pages. */
  ghost predicate RwxAt(tab: Tables, g: nat)
    requires IsMemory(tab)
  {
    g < |tab| ==> forall e :: 0 <= e < ENTRIES && tab[g][e].valid ==> tab[g][e].perm & (PTE_R | PTE_W | PTE_X) != 0
  }

  ghost predicate Rwx(tab: Tables, node: map<nat, Node>)
    requires IsMemory(tab)
  {
    forall g: nat {:trigger RwxAt(tab, g)} :: g in node && node[g].Leaf? ==> RwxAt(tab, g)
  }

  lemma RwxKept(tab: Tables, tab': Tables, node: map<nat, Node>, node': map<nat, Node>, f: nat)
    requires IsMemory(tab) && IsMemory(tab') && Rwx(tab, node) && f in node && !node[f].Leaf?
    requires node'.Keys <= node.Keys && (forall g :: g in node' ==> node'[g] == node[g])
    requires Outside(tab, tab', (node.Keys - node'.Keys) + {f})
    ensures Rwx(tab', node')
  {
    forall g: nat | g in node' && node'[g].Leaf? ensures RwxAt(tab', g) {
      assert RwxAt(tab, g);
    }
  }

  /** The bottom tables in fs are empty. */
  ghost predicate EmptyIn(tab: Tables, node: map<nat, Node>, fs: set<nat>)
    requires IsMemory(tab)
  {
    forall g: nat {:trigger NoEntries(tab, g)} :: g in fs && g in node && node[g].Leaf? ==> NoEntries(tab, g)
  }

  /** From tab0 to tab1 only tables that are cut off, and f, have changed. */
  ghost predicate Pruning(tab0: Tables, tab1: Tables, node: map<nat, Node>, cur: map<nat, Node>, f: nat) {
    && IsMemory(tab0) && IsMemory(tab1) && f in node && f in cur && !node[f].Leaf?
    && cur.Keys <= node.Keys && (forall g :: g in cur ==> cur[g] == node[g])
    && Outside(tab0, tab1, (node.Keys - cur.Keys) + {f})
  }

  lemma StillMapped(tab0: Tables, tab1: Tables, node: map<nat, Node>, cur: map<nat, Node>, f: nat)
    requires Pruning(tab0, tab1, node, cur, f) && !EmptyIn(tab1, cur, Below(cur, f))
    ensures !EmptyIn(tab0, node, Below(node, f))
  {
    var g: nat :| g in Below(cur, f) && g in cur && cur[g].Leaf? && !NoEntries(tab1, g);
    assert !NoEntries(tab0, g);
  }

  lemma EmptyMore(tab0: Tables, tab1: Tables, node: map<nat, Node>, cur: map<nat, Node>, cur': map<nat, Node>, f: nat)
    requires Pruning(tab0, tab1, node, cur, f) && EmptyIn(tab0, node, node.Keys - cur.Keys)
    requires cur'.Keys <= cur.Keys && f in cur' && EmptyIn(tab1, cur, cur.Keys - cur'.Keys)
    ensures EmptyIn(tab0, node, node.Keys - cur'.Keys)
  {
    forall g: nat | g in node.Keys - cur'.Keys && node[g].Leaf? ensures NoEntries(tab0, g) {
      if g in cur {
        assert NoEntries(tab1, g) && tab1[g] == tab0[g];
      } else {
        assert NoEntries(tab0, g);
      }
    }
  }

  lemma AllEmpty(tab0: Tables, tab: Tables, node: map<nat, Node>, cur: map<nat, Node>, f: nat)
    requires IsMemory(tab0) && IsMemory(tab) && f in node && f in cur && Below(cur, f) == {f} && cur[f] == node[f]
    requires cur.Keys <= node.Keys && (forall g :: g in cur ==> cur[g] == node[g])
    requires node.Keys - cur.Keys <= Below(node, f) && EmptyIn(tab0, node, node.Keys - cur.Keys)
    requires node[f].Leaf? ==> NoEntries(tab0, f)
    ensures EmptyIn(tab0, node, Below(node, f)) && Below(node, f) == node.Keys - cur.Keys + {f}
  {
    forall g | g in Below(node, f) && g in cur ensures g == f {
      assert g in Below(cur, f);
    }
  }

  class Memory {
    const nframes: nat
    var free: seq<nat>            // kmem.freelist
    var tab: Tables
    var page: seq<seq<int>>

    ghost predicate Valid()
      reads this
    {
      && |tab| == |page| == nframes && IsMemory(tab)
      && (forall f :: 0 <= f < nframes ==> |page[f]| == PGSIZE)
      && NoDup(free) && (forall i :: 0 <= i < |free| ==> free[i] < nframes)
    }

    ghost function Free(): set<nat>
      reads this`free
    {
      Elems(free)
    }

    /** A user address space with pages 0 .. n - 1 mapped; its frames are its own. */
    ghost predicate Space(root: nat, node: map<nat, Node>, leaf: Leaves, n: nat)
      reads this
    {
      && Valid() && Tree(tab, root, node) && Owned(tab, root, leaf) && Contiguous(tab, root, n) && n <= MAXPAGE
      && Free() !! node.Keys && Free() !! leaf.Keys && node.Keys !! leaf.Keys
    }

    /** kalloc: the head of the free list, or -1. */
    method Kalloc() returns (f: int)
      requires Valid()
      modifies this`free
      ensures Valid()
      ensures if old(free) == [] then f == -1 && free == [] else f == old(free)[0] && free == old(free)[1..]
      ensures if old(Free()) == {} then f == -1 && Free() == {} else f in old(Free()) && Free() == old(Free()) - {f}
    {
      if free == [] {
        return -1;
      }
      assert free[0] in Free();
      f := free[0];
      free := free[1..];
    }

    method Kfree(f: nat)
      requires Valid() && f < nframes && f !in Free()
      modifies this`free
      ensures Valid() && free == [f] + old(free) && Free() == old(Free()) + {f}
    {
      free := [f] + free;
    }

    /** Hangs a fresh empty table below entry e of `table`; -1 if no frame is left. */
    method NewTable(root: nat, table: nat, e: nat, ghost node: map<nat, Node>) returns (g: int)
      requires Valid() && Tree(tab, root, node) && Free() !! node.Keys
      requires table in node && table < nframes && !node[table].Leaf? && e < ENTRIES && !tab[table][e].valid
      modifies this`tab, this`free
      ensures Valid()
      ensures old(Free()) == {} ==> g == -1 && tab == old(tab) && free == old(free) == []
      ensures old(Free()) != {} ==>
                && g in old(Free()) && Free() == old(Free()) - {g} && |free| == |old(free)| - 1
                && Tree(tab, root, node[g := Child(node[table], e)]) && SameLookup(old(tab), tab, root)
                && (forall f :: 0 <= f < nframes && f != g && f != table ==> tab[f] == old(tab)[f])
    {
      g := Kalloc();
      if g >= 0 {
        HangKeepsTree(tab, root, node, table, e, g);
        HangKeepsLookup(tab, root, node, table, e, g);
        tab := tab[g := EmptyTable()];
        tab := tab[table := tab[table][e := Pte(g, true, 0)]];
      }
    }

    /** One level of walk: the table that entry e leads to, a new one if need be, or -1. */
    method Descend(root: nat, table: nat, e: nat, alloc: bool, ghost node: map<nat, Node>)
      returns (f: int, ghost node': map<nat, Node>)
      requires Valid() && Tree(tab, root, node) && Free() !! node.Keys
      requires table in node && table < nframes && !node[table].Leaf? && e < ENTRIES
      modifies this`tab, this`free
      ensures Valid() && Tree(tab, root, node') && Taken(old(Free()), Free(), node, node')
      ensures SameLookup(old(tab), tab, root) && Outside(old(tab), tab, node'.Keys)
      ensures !alloc || f < 0 ==> tab == old(tab) && free == old(free) && node' == node
      ensures f < 0 ==> if alloc then free == [] && Absent(Places(node), {Child(node[table], e)}) == 1
                        else !tab[table][e].valid
      ensures f >= 0 ==>
                && f in node' && node'[f] == Child(node[table], e)
                && Used(|old(free)|, |free|, Places(node), Places(node'), {Child(node[table], e)})
    {
      node' := node;
      ghost var n := Child(node[table], e);
      assert Down(tab, node, table, e);
      if tab[table][e].valid {
        UsedKnown(|free|, Places(node), n);
        return tab[table][e].ppn, node';
      }
      if !alloc {
        return -1, node';
      }
      NoTable(tab, root, node, table, e);
      f := NewTable(root, table, e, node);
      if f < 0 {
        AbsentOne(Places(node), n);
        return;
      }
      NewPlace(node, f, n);
      node' := node[f as nat := n];
      UsedNew(|old(free)|, |free|, Places(node), Places(node'), n);
    }

    /** The address of the entry for va, making missing tables if asked to. */
    method Walk(root: nat, va: nat, alloc: bool, ghost node: map<nat, Node>)
      returns (r: WalkResult, ghost node': map<nat, Node>)
      requires Valid() && Tree(tab, root, node) && Free() !! node.Keys
      modifies this`tab, this`free
      ensures Valid() && Tree(tab, root, node')
      ensures Taken(old(Free()), Free(), node, node') && SameLookup(old(tab), tab, root)
      ensures Outside(old(tab), tab, node'.Keys)
      ensures !alloc ==> tab == old(tab) && free == old(free) && node' == node
      ensures r.Panic? <==> va >= MAXVA
      ensures r.At? ==> r.f in node' && node'[r.f] == Leaf(PathOf(va).i, PathOf(va).j) && r.k == PathOf(va).k
      ensures r.At? ==> Used(|old(free)|, |free|, Places(node), Places(node'), OnPath(PathOf(va), 0))
      ensures r.Null? ==> if alloc then Free() == {} && |old(free)| < Absent(Places(node), OnPath(PathOf(va), 0))
                          else Missing(old(tab), root, PathOf(va))
    {
      node' := node;
      if va >= MAXVA {
        return Panic, node';
      }
      ghost var p := PathOf(va);
      var table := root;
      var level := 2;
      NoneUsed(|free|, Places(node));
      while level > 0
        invariant 0 <= level <= 2
        invariant Valid() && Tree(tab, root, node')
        invariant Taken(old(Free()), Free(), node, node') && SameLookup(old(tab), tab, root)
        invariant Used(|old(free)|, |free|, Places(node), Places(node'), OnPath(p, level))
        invariant Outside(old(tab), tab, node'.Keys)
        invariant !alloc ==> tab == old(tab) && free == old(free) && node' == node
        invariant table in node'
                  && node'[table] == if level == 2 then Root else if level == 1 then Mid(p.i) else Leaf(p.i, p.j)
      {
        var e := Index(level, va);
        assert Up(tab, root, node', table);
        ghost var n, left, a := Child(node'[table], e), |free|, Places(node');
        OnPathNext(p, level, n);
        var f;
        f, node' := Descend(root, table, e, alloc, node');
        if f < 0 {
          if alloc {
            TooFew(|old(free)|, left, Places(node), a, OnPath(p, level), {n}, OnPath(p, 0));
          }
          return Null, node';
        }
        UsedTwice(|old(free)|, left, |free|, Places(node), a, Places(node'), OnPath(p, level), {n},
                  OnPath(p, level - 1));
        table := f;
        level := level - 1;
      }
      r := At(table, Index(0, va));
    }

    /** Writes the entry of page v through walk(alloc = 1). */
    method MapOne(root: nat, v: nat, e: Pte, ghost node: map<nat, Node>) returns (r: Outcome,
                  ghost node': map<nat, Node>)
      requires Valid() && Tree(tab, root, node) && Free() !! node.Keys
      modifies this`tab, this`free
      ensures Valid() && Tree(tab, root, node')
      ensures Taken(old(Free()), Free(), node, node')
      ensures Outside(old(tab), tab, node'.Keys)
      ensures r.Stuck? <==> v >= MAXPAGE || (!r.Fail? && Look(old(tab), root, v).valid)
      ensures r.Fail? ==> Free() == {} && |old(free)| < Absent(Places(node), ForPage(v))
      ensures r.Ok? ==> Used(|old(free)|, |free|, Places(node), Places(node'), ForPage(v))
      ensures !r.Ok? ==> SameLookup(old(tab), tab, root)
      ensures r.Ok? ==> forall w: nat {:trigger Look(tab, root, w)} :: w < PAGES ==>
                          Look(tab, root, w) == if w == v then e else Look(old(tab), root, w)
    {
      var at;
      at, node' := Walk(root, v * PGSIZE, true, node);
      if at.Panic? {
        return Stuck, node';
      }
      PathForPage(v);
      if at.Null? {
        return Fail, node';
      }
      assert Up(tab, root, node', at.f);
      SetPage(tab, root, node', at.f, v, e);
      forall w: nat ensures Look(tab, root, w) == Look(old(tab), root, w) {
        SameLook(old(tab), tab, root, w);
      }
      if tab[at.f][at.k].valid {
        return Stuck, node';
      }
      tab := tab[at.f := tab[at.f][at.k := e]];
      r := Ok;
    }

    /** A round of mappages' loop: page v is the next one, after m pages from v0 on. */
    method MapNext(root: nat, v: nat, p: nat, perm: bv64, ghost tab0: Tables, ghost n0: nat, ghost free0: set<nat>,
                   ghost node0: map<nat, Node>, ghost node: map<nat, Node>, ghost v0: nat, ghost m: nat, ghost p0: nat,
                   ghost m': nat)
      returns (r: Outcome, ghost node': map<nat, Node>)
      requires Valid() && Tree(tab, root, node) && Taken(free0, Free(), node0, node) && Outside(tab0, tab, node.Keys)
      requires Mapping(tab0, n0, node0, tab, |free|, node, root, v0, m, p0, perm)
      requires v == v0 + m && p == p0 + m && m' == m + 1
      modifies this`tab, this`free
      ensures Valid() && Tree(tab, root, node') && Taken(free0, Free(), node0, node') && Outside(tab0, tab, node'.Keys)
      ensures r.Ok? ==> Mapping(tab0, n0, node0, tab, |free|, node', root, v0, m', p0, perm)
      ensures !r.Ok? ==> Inserted(tab0, tab, root, v0, m, p0, perm)
      ensures r.Stuck? ==> Blocked(tab0, root, v0, m)
      ensures r.Fail? ==> Free() == {} && v < MAXPAGE && n0 < Absent(Places(node0), Through(v0, m))
    {
      ghost var tab1, n1 := tab, |free|;
      r, node' := MapOne(root, v, Pte(p, true, perm), node);
      if r.Ok? {
        MappingGoesOn(tab0, n0, node0, tab1, n1, node, tab, |free|, node', root, v0, m, p0, perm, v, m');
      } else {
        InsertNone(tab0, tab1, tab, root, v0, m, p0, perm);
        if r.Fail? {
          MappingEnds(n0, node0, n1, node, v0, m, v);
        } else {
          BlockedAt(tab0, tab1, root, v0, m, v, p0, perm);
        }
      }
    }

    /** mappages' loop, from page `first` to page `last`. */
    method MapRun(root: nat, first: nat, last: nat, ppn: nat, perm: bv64, ghost node: map<nat, Node>)
      returns (r: Outcome, ghost m: nat, ghost node': map<nat, Node>)
      requires Valid() && Tree(tab, root, node) && Free() !! node.Keys && first <= last
      modifies this`tab, this`free
      ensures Valid() && Tree(tab, root, node') && Taken(old(Free()), Free(), node, node')
      ensures Outside(old(tab), tab, node'.Keys)
      ensures if r.Ok? then first + m == last + 1 else first + m <= last
      ensures r.Ok? ==> Mapping(old(tab), |old(free)|, node, tab, |free|, node', root, first, m, ppn, perm)
      ensures !r.Ok? ==> Inserted(old(tab), tab, root, first, m, ppn, perm)
      ensures r.Fail? ==> Free() == {} && first + m < MAXPAGE && |old(free)| < Absent(Places(node), Through(first, m))
      ensures r.Stuck? ==> Blocked(old(tab), root, first, m)
    {
      node', m := node, 0;
      var a, p := first, ppn;
      MappingStarts(tab, |free|, node, root, first, ppn, perm);
      while true
        invariant a == first + m <= last && p == ppn + m
        invariant Valid() && Tree(tab, root, node') && Taken(old(Free()), Free(), node, node')
        invariant Outside(old(tab), tab, node'.Keys)
        invariant Mapping(old(tab), |old(free)|, node, tab, |free|, node', root, first, m, ppn, perm)
        decreases last - a
      {
        ghost var m' := m + 1;
        r, node' := MapNext(root, a, p, perm, old(tab), |old(free)|, old(Free()), node, node', first, m, ppn, m');
        if !r.Ok? {
          return r, m, node';
        }
        m := m';
        if a == last {
          break;
        }
        a, p := a + 1, p + 1;
      }
      r := Ok;
    }

    /** mappages: insertion of a run of pages into the finite map from pages to entries.  `m` pages
        were mapped; all of them unless a frame for a table is missing or a page is mapped already. */
    method MapPages(root: nat, va: nat, size: nat, pa: nat, perm: bv64, ghost node: map<nat, Node>)
      returns (r: Outcome, ghost m: nat, ghost node': map<nat, Node>)
      requires Valid() && Tree(tab, root, node) && Free() !! node.Keys
      modifies this`tab, this`free
      ensures Valid() && Tree(tab, root, node') && Taken(old(Free()), Free(), node, node')
      ensures Outside(old(tab), tab, node'.Keys)
      ensures Inserted(old(tab), tab, root, PageOf(va), m, PageOf(pa), perm)
      ensures size > 0 ==>
                if r.Ok? then PageOf(va) + m == PageOf(va + size - 1) + 1
                else PageOf(va) + m <= PageOf(va + size - 1)
      ensures r.Fail? ==> Free() == {} && PageOf(va) + m < MAXPAGE
                          && |old(free)| < Absent(Places(node), Through(PageOf(va), m))
      ensures r.Ok? ==> Used(|old(free)|, |free|, Places(node), Places(node'), ForPages(PageOf(va), m))
      ensures r.Ok? <==> size > 0 && CanMap(old(tab), |old(free)|, node, root, PageOf(va), PagesIn(va, size))
      ensures r.Stuck? ==> size == 0 || Blocked(old(tab), root, PageOf(va), m)
    {
      if size == 0 {
        return Stuck, 0, node;
      }
      r, m, node' := MapRun(root, PageOf(va), PageOf(va + size - 1), PageOf(pa), perm, node);
      if r.Ok? {
        CanDo(old(tab), |old(free)|, node, root, PageOf(va), m, PagesIn(va, size), |free|, Places(node'));
      } else {
        CannotDo(old(tab), |old(free)|, node, root, PageOf(va), m, PagesIn(va, size), r.Fail?);
      }
    }

    /** walkaddr: the frame of a user page, or -1 for a null result. */
    method WalkAddr(root: nat, va: nat, ghost node: map<nat, Node>) returns (f: int)
      requires Valid() && Tree(tab, root, node) && Free() !! node.Keys
      modifies this`tab, this`free
      ensures Valid() && tab == old(tab) && free == old(free)
      ensures f == if va < MAXVA
              && UserPage(Lookup(tab, root, PathOf(va))) then Lookup(tab, root, PathOf(va)).ppn else -1
    {
      if va >= MAXVA {
        return -1;
      }
      var at;
      ghost var node';
      at, node' := Walk(root, va, false, node);
      LookupEnds(tab, root, node, PathOf(va));
      if at.Null? {
        return -1;
      }
      assert Up(tab, root, node, at.f);
      if !tab[at.f][at.k].valid {
        return -1;
      }
      if tab[at.f][at.k].perm & PTE_U == 0 {
        return -1;
      }
      f := tab[at.f][at.k].ppn;
    }

    /** The body of uvmunmap's loop. */
    method UnmapOne(root: nat, v: nat, doFree: bool, ghost node: map<nat, Node>, ghost leaf: Leaves)
      returns (stuck: bool, ghost leaf': Leaves)
      requires Valid() && Tree(tab, root, node) && Free() !! node.Keys
      requires doFree ==> Owned(tab, root, leaf) && Free() !! leaf.Keys && leaf.Keys !! node.Keys
      modifies this`tab, this`free
      ensures Valid() && Tree(tab, root, node) && Free() !! node.Keys && Outside(old(tab), tab, node.Keys)
      ensures stuck <==> !Removable(old(tab), root, v)
      ensures stuck ==> tab == old(tab) && free == old(free) && leaf' == leaf
      ensures !stuck ==> Removed(old(tab), tab, root, v, 1)
      ensures !doFree ==> free == old(free) && leaf' == leaf
      ensures doFree ==> Owned(tab, root, leaf') && Dropped(leaf, leaf', v, if stuck then 0 else 1)
                         && Free() !! leaf'.Keys && Free() + leaf'.Keys == old(Free()) + leaf.Keys
    {
      leaf' := leaf;
      ghost var node';
      var at;
      at, node' := Walk(root, v * PGSIZE, false, node);
      LookupEnds(tab, root, node, PathOf(v * PGSIZE));
      if !at.At? {
        return true, leaf';
      }
      assert Up(tab, root, node, at.f);
      var e := tab[at.f][at.k];
      if !e.valid || e.perm == 0 {
        return true, leaf';
      }
      SetPage(tab, root, node, at.f, v, NONE);
      ghost var tab' := tab[at.f := tab[at.f][at.k := NONE]];
      if doFree {
        OwnedAfterRemove(tab, tab', root, leaf, v);
        Kfree(e.ppn);
        leaf' := leaf - {e.ppn};
      }
      tab := tab[at.f := tab[at.f][at.k := NONE]];
      stuck := false;
    }

    /** uvmunmap: deletion of a run of pages; `m` pages were unmapped before it ended or panicked. */
    method UvmUnmap(root: nat, va: nat, npages: nat, doFree: bool, ghost node: map<nat, Node>, ghost leaf: Leaves)
      returns (stuck: bool, ghost m: nat, ghost leaf': Leaves)
      requires Valid() && Tree(tab, root, node) && Free() !! node.Keys
      requires doFree ==> Owned(tab, root, leaf) && Free() !! leaf.Keys && leaf.Keys !! node.Keys
      modifies this`tab, this`free
      ensures Valid() && Tree(tab, root, node) && Free() !! node.Keys && Outside(old(tab), tab, node.Keys)
      ensures Removed(old(tab), tab, root, PageOf(va), m)
      ensures if stuck then va % PGSIZE != 0 || (m < npages && !Removable(old(tab), root, PageOf(va) + m))
              else va % PGSIZE == 0 && m == npages
      ensures forall v :: PageOf(va) <= v < PageOf(va) + m ==> Removable(old(tab), root, v)
      ensures !doFree ==> free == old(free) && leaf' == leaf
      ensures doFree ==> Owned(tab, root, leaf') && Dropped(leaf, leaf', PageOf(va), m)
                         && Free() !! leaf'.Keys && Free() + leaf'.Keys == old(Free()) + leaf.Keys
    {
      leaf', m := leaf, 0;
      if va % PGSIZE != 0 {
        return true, m, leaf';
      }
      ghost var v0 := PageOf(va);
      var a := PageOf(va);
      var end := a + npages;
      while a < end
        invariant a == v0 + m && m <= npages
        invariant Valid() && Tree(tab, root, node) && Free() !! node.Keys && Outside(old(tab), tab, node.Keys)
        invariant Removed(old(tab), tab, root, v0, m)
        invariant forall v :: v0 <= v < a ==> Removable(old(tab), root, v)
        invariant !doFree ==> free == old(free) && leaf' == leaf
        invariant doFree ==> Owned(tab, root, leaf') && Dropped(leaf, leaf', v0, m)
                             && Free() !! leaf'.Keys && Free() + leaf'.Keys == old(Free()) + leaf.Keys
      {
        ghost var tab1 := tab;
        assert a < MAXPAGE ==> Look(tab, root, a) == Look(old(tab), root, a);
        stuck, leaf' := UnmapOne(root, a, doFree, node, leaf');
        if stuck {
          return true, m, leaf';
        }
        RemoveOne(old(tab), tab1, tab, root, v0, m);
        m := m + 1;
        a := a + 1;
      }
      stuck := false;
    }

    /** The body of freewalk's loop for an entry that points to a lower table. */
    method FreeChild(f: nat, i: nat, ghost root: nat, ghost node: map<nat, Node>)
      returns (stuck: bool, ghost node': map<nat, Node>)
      requires Valid() && Tree(tab, root, node) && Free() !! node.Keys && f in node && Rwx(tab, node)
      requires !node[f].Leaf? && f < nframes && i < ENTRIES && tab[f][i].valid
      modifies this`tab, this`free
      ensures stuck ==> !EmptyIn(old(tab), node, Below(node, f))
      ensures !stuck ==>
                && Valid() && Tree(tab, root, node') && f in node' && Rwx(tab, node')
                && node'.Keys <= node.Keys && (forall g :: g in node' ==> node'[g] == node[g])
                && Free() == old(Free()) + (node.Keys - node'.Keys) && Free() !! node'.Keys
                && node.Keys - node'.Keys <= Below(node, f) && EmptyIn(old(tab), node, node.Keys - node'.Keys)
                && Outside(old(tab), tab, (node.Keys - node'.Keys) + {f}) && tab[f] == old(tab[f])[i := NONE]
      decreases Height(node[f]), 0
    {
      assert Down(tab, node, f, i);
      var child := tab[f][i].ppn;
      ghost var tab0 := tab;
      ChildBelow(node, f, i, child);
      node' := node - Below(node, child);
      stuck := FreeWalk(child, root, node);
      if !stuck {
        tab := tab[f := tab[f][i := NONE]];
        PruneKeepsTree(tab0, tab, root, node, f, i);
        RwxKept(tab0, tab, node, node', f);
      }
    }

    /** In freewalk of f the subtrees that are no longer in cur have been given back; they were empty. */
    ghost predicate Freeing(tab0: Tables, root: nat, node: map<nat, Node>, cur: map<nat, Node>, f: nat, i: nat)
      reads this
    {
      && Valid() && Tree(tab, root, cur) && Rwx(tab, cur) && f in cur && f in node && f < nframes && IsMemory(tab0)
      && cur.Keys <= node.Keys && (forall g :: g in cur ==> cur[g] == node[g]) && Free() !! cur.Keys
      && node.Keys - cur.Keys <= Below(node, f) && EmptyIn(tab0, node, node.Keys - cur.Keys)
      && Outside(tab0, tab, (node.Keys - cur.Keys) + {f}) && (node[f].Leaf? ==> cur == node && tab == tab0)
      && forall e :: 0 <= e < i && e < ENTRIES ==> !tab[f][e].valid
    }

    /** The body of freewalk's loop. */
    method FreeEntry(f: nat, i: nat, ghost tab0: Tables, ghost root: nat, ghost node: map<nat, Node>,
                     ghost cur: map<nat, Node>)
      returns (stuck: bool, ghost cur': map<nat, Node>)
      requires Freeing(tab0, root, node, cur, f, i) && i < ENTRIES
      modifies this`tab, this`free
      ensures stuck ==> !EmptyIn(tab0, node, Below(node, f))
      ensures !stuck ==>
                && Freeing(tab0, root, node, cur', f, i + 1) && cur'.Keys <= cur.Keys
                && Free() == old(Free()) + (cur.Keys - cur'.Keys)
      decreases if f in node then Height(node[f]) else 0, 1
    {
      cur', stuck := cur, false;
      assert Down(tab, cur, f, i) && (node[f].Leaf? ==> RwxAt(tab, f));
      var pte := tab[f][i];
      if pte.valid && pte.perm & (PTE_R | PTE_W | PTE_X) == 0 {
        ghost var tab1 := tab;
        stuck, cur' := FreeChild(f, i, root, cur);
        if stuck {
          StillMapped(tab0, tab1, node, cur, f);
        } else {
          EmptyMore(tab0, tab1, node, cur, cur', f);
        }
      } else if pte.valid {
        assert !NoEntries(tab0, f);
        stuck := true;
      }
    }

    /** freewalk: gives back exactly the table frames of the subtree at f; a panic exactly when a page is
        still mapped there. */
    method FreeWalk(f: nat, ghost root: nat, ghost node: map<nat, Node>) returns (stuck: bool)
      requires Valid() && Tree(tab, root, node) && Free() !! node.Keys && f in node && Rwx(tab, node)
      modifies this`tab, this`free
      ensures stuck <==> !EmptyIn(old(tab), node, Below(node, f))
      ensures !stuck ==>
                && Valid() && Free() == old(Free()) + Below(node, f)
                && Outside(old(tab), tab, Below(node, f))
      decreases Height(node[f]), 2
    {
      assert Up(tab, root, node, f);
      ghost var cur, tab0 := node, tab;
      var i := 0;
      while i < ENTRIES
        invariant 0 <= i <= ENTRIES && Freeing(tab0, root, node, cur, f, i)
        invariant Free() == old(Free()) + (node.Keys - cur.Keys)
      {
        stuck, cur := FreeEntry(f, i, tab0, root, node, cur);
        if stuck {
          return;
        }
        i := i + 1;
      }
      NothingBelow(tab, root, cur, f);
      AllEmpty(tab0, tab, node, cur, f);
      Kfree(f);
      stuck := false;
    }

    method UvmCreate() returns (root: int, ghost node: map<nat, Node>)
      requires Valid()
      modifies this`tab, this`free
      ensures Valid()
      ensures old(Free()) == {} ==> root == -1 && free == old(free) && tab == old(tab)
      ensures old(Free()) != {} ==>
                && root in old(Free()) && Free() == old(Free()) - {root} && node == map[root as nat := Root]
                && Space(root, node, map[], 0) && Outside(old(tab), tab, {root})
    {
      node := map[];
      root := Kalloc();
      if root >= 0 {
        tab := tab[root := EmptyTable()];
        node := map[root as nat := Root];
        assert Up(tab, root, node, root);
      }
    }

    /** mappages for one page. */
    method MapPage(root: nat, v: nat, mem: nat, perm: bv64, ghost node: map<nat, Node>)
      returns (ok: bool, ghost node': map<nat, Node>)
      requires Valid() && Tree(tab, root, node) && Free() !! node.Keys && v < MAXPAGE && !Look(tab, root, v).valid
      modifies this`tab, this`free
      ensures Valid() && Tree(tab, root, node') && Taken(old(Free()), Free(), node, node')
      ensures Outside(old(tab), tab, node'.Keys)
      ensures ok <==> |old(free)| >= Absent(Places(node), ForPage(v))
      ensures ok ==> Used(|old(free)|, |free|, Places(node), Places(node'), ForPage(v))
      ensures if ok then Inserted(old(tab), tab, root, v, 1, mem, perm) else Inserted(old(tab), tab, root, v, 0, 0, 0)
    {
      var r;
      ghost var m;
      assert PageOf(v * PGSIZE) == v && PageOf(v * PGSIZE + PGSIZE - 1) == v && PageOf(mem * PGSIZE) == mem;
      r, m, node' := MapPages(root, v * PGSIZE, PGSIZE, mem * PGSIZE, perm, node);
      OnePageOnly(v, PageOf(v * PGSIZE), m);
      ok := r.Ok?;
    }

    /** Maps the frame mem, which is on no list, at page v, or gives it back. */
    method MapFrame(root: nat, v: nat, mem: nat, perm: bv64, ghost node: map<nat, Node>, ghost leaf: Leaves)
      returns (ok: bool, ghost node': map<nat, Node>, ghost leaf': Leaves)
      requires Space(root, node, leaf, v) && v < MAXPAGE && perm != 0
      requires mem < nframes && mem !in Free() && mem !in node && mem !in leaf
      modifies this`tab, this`free
      ensures Space(root, node', leaf', if ok then v + 1 else v)
      ensures Free() + node'.Keys + leaf'.Keys == old(Free()) + {mem} + node.Keys + leaf.Keys && node.Keys <= node'.Keys
      ensures Outside(old(tab), tab, node'.Keys)
      ensures ok <==> |old(free)| >= Absent(Places(node), ForPage(v))
      ensures ok ==> Used(|old(free)|, |free|, Places(node), Places(node'), ForPage(v))
      ensures !ok ==> leaf' == leaf && Inserted(old(tab), tab, root, v, 0, 0, 0)
      ensures ok ==> leaf' == leaf[mem := v] && Inserted(old(tab), tab, root, v, 1, mem, perm)
    {
      leaf' := leaf;
      ok, node' := MapPage(root, v, mem, perm, node);
      if !ok {
        OwnedAfterSame(old(tab), tab, root, leaf);
        Kfree(mem);
        return false, node', leaf';
      }
      OwnedAfterInsert(old(tab), tab, root, leaf, v, mem, perm);
      leaf' := leaf[mem := v];
      ok := true;
    }

    /** The body of uvmalloc's and uvmcopy's loops for page v: a new frame filled with `data` and
        mapped there, or nothing changed but for tables that stay in the tree. */
    method AllocPage(root: nat, v: nat, data: seq<int>, perm: bv64, ghost node: map<nat, Node>, ghost leaf: Leaves)
      returns (ok: bool, ghost f: nat, ghost node': map<nat, Node>, ghost leaf': Leaves)
      requires Space(root, node, leaf, v) && v < MAXPAGE && |data| == PGSIZE && perm != 0
      modifies this`tab, this`free, this`page
      ensures Space(root, node', leaf', if ok then v + 1 else v)
      ensures Free() + node'.Keys + leaf'.Keys == old(Free()) + node.Keys + leaf.Keys && node.Keys <= node'.Keys
      ensures Outside(old(tab), tab, node'.Keys) && Outside(old(page), page, old(Free()))
      ensures ok <==> |old(free)| >= 1 + Absent(Places(node), ForPage(v))
      ensures ok ==> Spent(|old(free)|, |free|, 1, Places(node), Places(node'), ForPage(v))
      ensures !ok ==> leaf' == leaf && Inserted(old(tab), tab, root, v, 0, 0, 0)
      ensures ok ==> f in old(Free()) && f < nframes && leaf' == leaf[f := v]
                     && Inserted(old(tab), tab, root, v, 1, f, perm) && page[f] == data
    {
      node', leaf', f := node, leaf, 0;
      var mem := Kalloc();
      if mem < 0 {
        return false, f, node', leaf';
      }
      f := mem;
      page := page[mem := data];
      ok, node', leaf' := MapFrame(root, v, mem, perm, node, leaf);
    }
  }
}
