/** The three-level page tables of kernel/vm.c as a tree spread over physical frames.  A frame used as
    a table holds 512 entries; `node` says which place in the tree each table frame has, so two
    places can never share a frame. */
module PageTree {

  /** A page-table entry: PTE2PA(pte) / PGSIZE, PTE_V, and the other flag bits. */
  datatype Pte = Pte(ppn: nat, valid: bool, perm: bv64)

  type Table = seq<Pte>
  type Tables = seq<Table>

  datatype Node = Root | Mid(i: nat) | Leaf(i: nat, j: nat)

  /** The three 9-bit indices PX(2, va), PX(1, va), PX(0, va). */
  datatype Path = Path(i: nat, j: nat, k: nat)

  const ENTRIES: nat := 512
  const NONE: Pte := Pte(0, false, 0)

  /** memset(pagetable, 0, PGSIZE) */
  function EmptyTable(): (t: Table)
    ensures |t| == ENTRIES && forall e :: 0 <= e < ENTRIES ==> t[e] == NONE
  {
    seq(ENTRIES, _ => NONE)
  }

  ghost predicate IsPath(p: Path) {
    p.i < ENTRIES && p.j < ENTRIES && p.k < ENTRIES
  }

  ghost predicate IsMemory(tab: Tables) {
    forall f :: 0 <= f < |tab| ==> |tab[f]| == ENTRIES
  }

  function Child(n: Node, e: nat): Node {
    match n
    case Root => Mid(e)
    case Mid(i) => Leaf(i, e)
    case Leaf(i, j) => n
  }

  /** A valid entry of an inner table leads to the table that belongs there. */
  ghost predicate Down(tab: Tables, node: map<nat, Node>, f: nat, e: nat)
    requires IsMemory(tab) && f in node && f < |tab| && e < ENTRIES
  {
    !node[f].Leaf? && tab[f][e].valid ==>
      var g := tab[f][e].ppn;
      tab[f][e].perm == 0 && g in node && node[g] == Child(node[f], e)
  }

  /** Entry e of f leads to g. */
  ghost predicate Points(tab: Tables, f: nat, e: nat, g: nat)
    requires IsMemory(tab)
  {
    f < |tab| && e < ENTRIES && tab[f][e].valid && tab[f][e].ppn == g
  }

  /** Every table but the root is led to from its place in the tree. */
  ghost predicate Up(tab: Tables, root: nat, node: map<nat, Node>, g: nat)
    requires IsMemory(tab) && root < |tab| && g in node
  {
    && g < |tab|
    && match node[g]
       case Root => g == root
       case Mid(i) => Points(tab, root, i, g)
       case Leaf(i, j) =>
         && i < ENTRIES
         && var f := tab[root][i].ppn;
            Points(tab, root, i, f) && f in node && node[f] == Mid(i) && Points(tab, f, j, g)
  }

  ghost predicate Tree(tab: Tables, root: nat, node: map<nat, Node>) {
    && IsMemory(tab) && root < |tab|
    && root in node && node[root] == Root
    && (forall g: nat {:trigger Up(tab, root, node, g)} :: g in node ==> Up(tab, root, node, g))
    && (forall f: nat, e: nat {:trigger Down(tab, node, f, e)} ::
          f in node && f < |tab| && e < ENTRIES ==> Down(tab, node, f, e))
  }

  /** The entry at the end of a path, invalid where a table is missing. */
  ghost function Lookup(tab: Tables, root: nat, p: Path): Pte
    requires IsMemory(tab) && root < |tab| && IsPath(p)
  {
    var e2 := tab[root][p.i];
    if !e2.valid || e2.ppn >= |tab| then NONE else
    var e1 := tab[e2.ppn][p.j];
    if !e1.valid || e1.ppn >= |tab| then NONE else
    tab[e1.ppn][p.k]
  }

  /** Same translations for every path. */
  ghost predicate SameLookup(tab: Tables, tab': Tables, root: nat)
    requires IsMemory(tab) && IsMemory(tab') && root < |tab| == |tab'|
  {
    forall p {:trigger Lookup(tab', root, p)} :: IsPath(p) ==> Lookup(tab', root, p) == Lookup(tab, root, p)
  }

  /** Hanging an empty table g below entry e of f. */
  function Hang(tab: Tables, f: nat, e: nat, g: nat): (r: Tables)
    requires f < |tab| && g < |tab| && f != g && e < |tab[f]|
    ensures |r| == |tab| && r[g] == EmptyTable() && r[f] == tab[f][e := Pte(g, true, 0)]
    ensures forall h :: 0 <= h < |tab| && h != f && h != g ==> r[h] == tab[h]
  {
    tab[g := EmptyTable()][f := tab[f][e := Pte(g, true, 0)]]
  }

  lemma HangKeepsTree(tab: Tables, root: nat, node: map<nat, Node>, f: nat, e: nat, g: nat)
    requires Tree(tab, root, node) && f in node && f < |tab| && !node[f].Leaf? && e < ENTRIES && !tab[f][e].valid
    requires g < |tab| && g !in node
    ensures Tree(Hang(tab, f, e, g), root, node[g := Child(node[f], e)])
  {
    var tab' := Hang(tab, f, e, g);
    var node' := node[g := Child(node[f], e)];
    assert Up(tab, root, node, f);
    forall h | h in node' ensures Up(tab', root, node', h) {
      if h != g {
        assert Up(tab, root, node, h);
      }
    }
    forall h, d | h in node' && h < |tab'| && 0 <= d < ENTRIES ensures Down(tab', node', h, d) {
      if h != g {
        assert Down(tab, node, h, d);
      }
    }
  }

  lemma HangKeepsLookup(tab: Tables, root: nat, node: map<nat, Node>, f: nat, e: nat, g: nat)
    requires Tree(tab, root, node) && f in node && f < |tab| && !node[f].Leaf? && e < ENTRIES && !tab[f][e].valid
    requires g < |tab| && g !in node
    ensures SameLookup(tab, Hang(tab, f, e, g), root)
  {
    var tab' := Hang(tab, f, e, g);
    assert Up(tab, root, node, f);
    forall p | IsPath(p) ensures Lookup(tab', root, p) == Lookup(tab, root, p) {
      assert Down(tab, node, root, p.i);
      var f1 := tab[root][p.i].ppn;
      if tab[root][p.i].valid {
        assert Up(tab, root, node, f1);
        assert Down(tab, node, f1, p.j);
        if tab[f1][p.j].valid {
          assert Up(tab, root, node, tab[f1][p.j].ppn);
        }
      }
    }
  }

  /** Writing entry k of the bottom table f. */
  lemma SetEntry(tab: Tables, root: nat, node: map<nat, Node>, f: nat, p: Path, e: Pte)
    requires Tree(tab, root, node) && IsPath(p) && f in node && f < |tab| && node[f] == Leaf(p.i, p.j)
    ensures Tree(tab[f := tab[f][p.k := e]], root, node)
    ensures Lookup(tab, root, p) == tab[f][p.k]
    ensures Lookup(tab[f := tab[f][p.k := e]], root, p) == e
    ensures forall q :: IsPath(q) && q != p ==> Lookup(tab[f := tab[f][p.k := e]], root, q) == Lookup(tab, root, q)
  {
    var tab' := tab[f := tab[f][p.k := e]];
    assert Up(tab, root, node, f);
    forall h | h in node ensures Up(tab', root, node, h) {
      assert Up(tab, root, node, h);
    }
    forall h, d | h in node && h < |tab'| && 0 <= d < ENTRIES ensures Down(tab', node, h, d) {
      assert Down(tab, node, h, d);
    }
    forall q | IsPath(q) && q != p ensures Lookup(tab', root, q) == Lookup(tab, root, q) {
      LookupEnds(tab, root, node, q);
    }
  }

  /** A path either meets a missing table or ends in the table node Leaf(i, j). */
  lemma LookupEnds(tab: Tables, root: nat, node: map<nat, Node>, p: Path)
    requires Tree(tab, root, node) && IsPath(p)
    ensures var f1 := tab[root][p.i].ppn;
            if !tab[root][p.i].valid then Lookup(tab, root, p) == NONE
            else
              && f1 in node && f1 < |tab| && node[f1] == Mid(p.i)
              && var f0 := tab[f1][p.j].ppn;
                 if !tab[f1][p.j].valid then Lookup(tab, root, p) == NONE
                 else f0 in node && f0 < |tab| && node[f0] == Leaf(p.i, p.j) && Lookup(tab, root, p) == tab[f0][p.k]
  {
    assert Down(tab, node, root, p.i);
    if tab[root][p.i].valid {
      var f1 := tab[root][p.i].ppn;
      assert Up(tab, root, node, f1);
      assert Down(tab, node, f1, p.j);
      if tab[f1][p.j].valid {
        assert Up(tab, root, node, tab[f1][p.j].ppn);
      }
    }
  }

  /** What happens in frames outside a tree does not change it. */
  lemma TreeFrame(tab: Tables, tab': Tables, root: nat, node: map<nat, Node>)
    requires Tree(tab, root, node) && IsMemory(tab') && |tab'| == |tab|
    requires forall f :: f in node && f < |tab| ==> tab'[f] == tab[f]
    ensures Tree(tab', root, node) && SameLookup(tab, tab', root)
  {
    forall g: nat | g in node ensures Up(tab', root, node, g) {
      assert Up(tab, root, node, g);
    }
    forall f: nat, e: nat | f in node && f < |tab| && e < ENTRIES ensures Down(tab', node, f, e) {
      assert Down(tab, node, f, e);
    }
    forall p | IsPath(p) ensures Lookup(tab', root, p) == Lookup(tab, root, p) {
      LookupEnds(tab, root, node, p);
    }
  }

  // ---------------------------------------------------------------- tearing a tree down

  /** The table frames of the subtree at f. */
  ghost function Below(node: map<nat, Node>, f: nat): set<nat>
    requires f in node
  {
    match node[f]
    case Root => node.Keys
    case Mid(i) => {f} + set g | g in node && node[g].Leaf? && node[g].i == i
    case Leaf(_, _) => {f}
  }

  ghost predicate NoEntries(tab: Tables, f: nat)
    requires IsMemory(tab)
  {
    f < |tab| && forall e :: 0 <= e < ENTRIES ==> !tab[f][e].valid
  }

  /** All leaf mappings have been removed. */
  ghost predicate NoLeaves(tab: Tables, node: map<nat, Node>)
    requires IsMemory(tab)
  {
    forall g: nat {:trigger NoEntries(tab, g)} :: g in node && node[g].Leaf? ==> NoEntries(tab, g)
  }

  function Height(n: Node): nat {
    if n.Root? then 2 else if n.Mid? then 1 else 0
  }

  /** Clearing the entry that leads to g cuts g's subtree off; what its frames hold no longer matters. */
  lemma PruneKeepsTree(tab: Tables, tab': Tables, root: nat, node: map<nat, Node>, f: nat, e: nat)
    requires Tree(tab, root, node) && f in node && f < |tab| && !node[f].Leaf? && e < ENTRIES && tab[f][e].valid
    requires tab[f][e].ppn in node
    requires var cut := Below(node, tab[f][e].ppn);
             && IsMemory(tab') && |tab'| == |tab| && tab'[f] == tab[f][e := NONE]
             && forall h :: 0 <= h < |tab| && h != f && h !in cut ==> tab'[h] == tab[h]
    ensures Tree(tab', root, node - Below(node, tab[f][e].ppn))
  {
    var g := tab[f][e].ppn;
    var node' := node - Below(node, g);
    assert Up(tab, root, node, f) && Up(tab, root, node, g) && Down(tab, node, f, e);
    forall h: nat | h in node' ensures Up(tab', root, node', h) {
      assert Up(tab, root, node, h);
      if node[h].Leaf? {
        assert Up(tab, root, node, tab[root][node[h].i].ppn);
      }
    }
    forall h: nat, d: nat | h in node' && h < |tab'| && d < ENTRIES ensures Down(tab', node', h, d) {
      assert Down(tab, node, h, d) && Up(tab, root, node, h);
    }
  }

  /** A table without valid entries has nothing below it. */
  lemma NothingBelow(tab: Tables, root: nat, node: map<nat, Node>, f: nat)
    requires Tree(tab, root, node) && f in node && f < |tab|
    requires !node[f].Leaf? ==> forall e :: 0 <= e < ENTRIES ==> !tab[f][e].valid
    ensures Below(node, f) == {f}
  {
    forall g | g in Below(node, f) ensures g == f {
      assert Up(tab, root, node, g) && Up(tab, root, node, f);
    }
  }
}
