/** The free list of user/umalloc.c as a value: headers, their order, and who owns which unit of
    memory.  Addresses and sizes are in units of one header. */
module FreeList {
  /** The address of the static header `base`, below the heap. */
  const BASE: nat := 0

  type Field = map<nat, nat>

  /** The index after i in a circular list of n. */
  function Succ(i: nat, n: nat): nat {
    if i + 1 < n then i + 1 else 0
  }

  /** Steps from index i forward to index j in a circular list of n. */
  function Steps(n: nat, i: nat, j: nat): int {
    if i <= j then j - i else j - i + n
  }

  ghost predicate NodeOk(ptr: Field, size: Field, nodes: seq<nat>, i: nat)
    requires i < |nodes|
  {
    && nodes[i] in ptr && nodes[i] in size && ptr[nodes[i]] == nodes[Succ(i, |nodes|)]
    && (i + 1 < |nodes| ==> nodes[i] + size[nodes[i]] < nodes[i + 1])
    && (if i == 0 then nodes[i] == BASE && size[nodes[i]] == 0 else size[nodes[i]] > 0)
  }

  /** The free list is circular from base on, in address order, and no two free blocks touch. */
  ghost predicate Listed(ptr: Field, size: Field, nodes: seq<nat>) {
    && |nodes| > 0
    && forall i: nat {:trigger NodeOk(ptr, size, nodes, i)} :: i < |nodes| ==> NodeOk(ptr, size, nodes, i)
  }

  lemma {:induction false} Ordered(ptr: Field, size: Field, nodes: seq<nat>, i: nat, j: nat)
    requires Listed(ptr, size, nodes) && i < j < |nodes|
    ensures nodes[i] in size && nodes[i] + size[nodes[i]] < nodes[j]
    decreases j - i
  {
    assert NodeOk(ptr, size, nodes, i);
    if i + 1 < j {
      Ordered(ptr, size, nodes, i + 1, j);
    }
  }

  lemma Distinct(ptr: Field, size: Field, nodes: seq<nat>)
    requires Listed(ptr, size, nodes)
    ensures forall i: nat, j: nat :: i < j < |nodes| ==> nodes[i] < nodes[j]
  {
    forall i: nat, j: nat | i < j < |nodes| ensures nodes[i] < nodes[j] {
      Ordered(ptr, size, nodes, i, j);
    }
  }

  /** The last node below address b. */
  ghost function Below(nodes: seq<nat>, b: nat): (t: nat)
    requires |nodes| > 0 && nodes[0] < b
    ensures t < |nodes| && nodes[t] < b && (t + 1 < |nodes| ==> b <= nodes[t + 1])
  {
    BelowFrom(nodes, b, 0)
  }

  ghost function BelowFrom(nodes: seq<nat>, b: nat, i: nat): (t: nat)
    requires i < |nodes| && nodes[i] < b
    ensures t < |nodes| && nodes[t] < b && (t + 1 < |nodes| ==> b <= nodes[t + 1])
    decreases |nodes| - i
  {
    if i + 1 < |nodes| && nodes[i + 1] < b then BelowFrom(nodes, b, i + 1) else i
  }

  function At(nodes: seq<nat>, r: nat): nat {
    if r < |nodes| then nodes[r] else BASE
  }

  /** nodes with the stretch between t and r replaced by mid. */
  function Spliced(nodes: seq<nat>, t: nat, mid: seq<nat>, r: nat): seq<nat>
    requires t < r <= |nodes|
  {
    nodes[..t + 1] + mid + nodes[r..]
  }

  /** Header x is unchanged. */
  ghost predicate SameHeader(ptr: Field, size: Field, ptr': Field, size': Field, x: nat) {
    x in ptr && x in size && x in ptr' && x in size' && ptr'[x] == ptr[x] && size'[x] == size[x]
  }

  /** Block b linked in after node t, in place of what lies between t and r. */
  lemma LinkIn(ptr: Field, size: Field, ptr': Field, size': Field, nodes: seq<nat>, t: nat, r: nat, b: nat)
    requires Listed(ptr, size, nodes) && t < r <= |nodes| && nodes[t] in size && nodes[t] + size[nodes[t]] < b
    requires b in ptr' && b in size' && size'[b] > 0 && ptr'[b] == At(nodes, r)
             && (r < |nodes| ==> b + size'[b] < nodes[r])
    requires nodes[t] in ptr' && ptr'[nodes[t]] == b && nodes[t] in size' && size'[nodes[t]] == size[nodes[t]]
    requires forall i: nat :: i < |nodes| && (i < t || i >= r) ==> SameHeader(ptr, size, ptr', size', nodes[i])
    ensures Listed(ptr', size', Spliced(nodes, t, [b], r))
  {
    var nodes' := Spliced(nodes, t, [b], r);
    assert NodeOk(ptr, size, nodes, 0);
    forall i: nat | i < |nodes'| ensures NodeOk(ptr', size', nodes', i) {
      assert i <= t ==> NodeOk(ptr, size, nodes, i);
      assert i > t + 1 ==> NodeOk(ptr, size, nodes, i - t - 2 + r);
    }
  }

  /** Node t takes over what lies between t and r. */
  lemma LinkOver(ptr: Field, size: Field, ptr': Field, size': Field, nodes: seq<nat>, t: nat, r: nat)
    requires Listed(ptr, size, nodes) && t < r <= |nodes|
    requires nodes[t] in ptr' && ptr'[nodes[t]] == At(nodes, r) && nodes[t] in size'
             && (r < |nodes| ==> nodes[t] + size'[nodes[t]] < nodes[r])
    requires if t == 0 then size'[nodes[t]] == 0 else size'[nodes[t]] > 0
    requires forall i: nat :: i < |nodes| && (i < t || i >= r) ==> SameHeader(ptr, size, ptr', size', nodes[i])
    ensures Listed(ptr', size', Spliced(nodes, t, [], r))
  {
    var nodes' := Spliced(nodes, t, [], r);
    assert NodeOk(ptr, size, nodes, t) && NodeOk(ptr, size, nodes, 0);
    forall i: nat | i < |nodes'| ensures NodeOk(ptr', size', nodes', i) {
      assert i <= t ==> NodeOk(ptr, size, nodes, i);
      assert i > t ==> NodeOk(ptr, size, nodes, i - t - 1 + r);
    }
  }

  /** Units b .. b + n - 1 belong to the block at b. */
  ghost predicate Units(own: Field, b: nat, n: nat) {
    forall u: nat {:trigger u in own} :: b <= u < b + n ==> u in own && own[u] == b
  }

  ghost predicate LiveOk(size: Field, nodes: seq<nat>, live: Field, own: Field, b: nat) {
    b in live ==> b > BASE && b in size && size[b] == live[b] > 0 && b !in nodes && Units(own, b, live[b])
  }

  ghost predicate FreeOk(size: Field, nodes: seq<nat>, own: Field, b: nat) {
    b in nodes && b != BASE ==> b in size && size[b] > 0 && Units(own, b, size[b])
  }

  ghost predicate OwnOk(size: Field, nodes: seq<nat>, live: Field, own: Field, u: nat) {
    u in own ==>
      && own[u] != BASE && own[u] in size && (own[u] in live || own[u] in nodes)
      && own[u] <= u < own[u] + size[own[u]]
  }

  /** Free blocks and live blocks partition the memory: every unit obtained is in exactly one. */
  ghost predicate Parts(size: Field, nodes: seq<nat>, live: Field, own: Field) {
    && (forall b: nat {:trigger LiveOk(size, nodes, live, own, b)} :: LiveOk(size, nodes, live, own, b))
    && (forall b: nat {:trigger FreeOk(size, nodes, own, b)} :: FreeOk(size, nodes, own, b))
    && (forall u: nat {:trigger OwnOk(size, nodes, live, own, u)} :: OwnOk(size, nodes, live, own, u))
  }

  lemma LiveIsOwned(size: Field, nodes: seq<nat>, live: Field, own: Field, b: nat)
    requires LiveOk(size, nodes, live, own, b)
    ensures b in live ==> b in own && own[b] == b
  {
    if b in live {
      assert b in own;
    }
  }

  /** A live block lies between its neighbours in the free list. */
  lemma Between(ptr: Field, size: Field, nodes: seq<nat>, live: Field, own: Field, b: nat, t: nat)
    requires Listed(ptr, size, nodes) && Parts(size, nodes, live, own) && b in live && t < |nodes|
    requires nodes[t] < b && (t + 1 < |nodes| ==> b <= nodes[t + 1])
    ensures nodes[t] in size && nodes[t] + size[nodes[t]] <= b && (t + 1 < |nodes| ==> b + live[b] <= nodes[t + 1])
  {
    assert LiveOk(size, nodes, live, own, b) && NodeOk(ptr, size, nodes, t) && NodeOk(ptr, size, nodes, 0);
    if t > 0 {
      Ordered(ptr, size, nodes, 0, t);
    }
    assert FreeOk(size, nodes, own, nodes[t]);
    assert b in own && own[b] == b;
    if t + 1 < |nodes| {
      Ordered(ptr, size, nodes, 0, t + 1);
      assert NodeOk(ptr, size, nodes, t + 1) && FreeOk(size, nodes, own, nodes[t + 1]);
      assert nodes[t + 1] in own && own[nodes[t + 1]] == nodes[t + 1];
    }
  }

  /** The units h .. h + n - 1 now belong to the block at h. */
  ghost function Reown(own: Field, h: nat, n: nat): (own': Field)
    ensures own'.Keys == own.Keys
  {
    map u | u in own :: if h <= u < h + n then h else own[u]
  }

  /** The live block b is freed: it and the free blocks next to it become one free block at h. */
  lemma FreedParts(size: Field, nodes: seq<nat>, live: Field, own: Field, size': Field, nodes': seq<nat>, b: nat,
                   h: nat, n: nat, gone: set<nat>)
    requires Parts(size, nodes, live, own) && b in live && b in gone && h in gone && h != BASE && n > 0
    requires forall g :: g in gone ==>
               g in size && h <= g && g + size[g] <= h + n && (g == b || (g in nodes && g != BASE))
    requires forall u: nat :: h <= u < h + n ==> u in own && own[u] in gone
    requires h in size' && size'[h] == n && forall x :: x in size && x !in gone ==> x in size' && size'[x] == size[x]
    requires forall x :: x in nodes' <==> x == h || (x in nodes && x !in gone)
    ensures Parts(size', nodes', live - {b}, Reown(own, h, n))
  {
    var live', own' := live - {b}, Reown(own, h, n);
    forall c: nat ensures LiveOk(size', nodes', live', own', c) {
      assert LiveOk(size, nodes, live, own, c);
    }
    forall c: nat ensures FreeOk(size', nodes', own', c) {
      assert FreeOk(size, nodes, own, c) && LiveOk(size, nodes, live, own, b);
    }
    forall u: nat ensures OwnOk(size', nodes', live', own', u) {
      assert OwnOk(size, nodes, live, own, u);
    }
  }

  /** A free block of the right size becomes live. */
  lemma WholeParts(size: Field, nodes: seq<nat>, live: Field, own: Field, nodes': seq<nat>, p: nat)
    requires Parts(size, nodes, live, own) && p in nodes && p != BASE && p in size && size[p] > 0
    requires forall x :: x in nodes' <==> x in nodes && x != p
    ensures p !in live && Parts(size, nodes', live[p := size[p]], own)
  {
    var live' := live[p := size[p]];
    assert LiveOk(size, nodes, live, own, p) && FreeOk(size, nodes, own, p);
    forall c: nat ensures LiveOk(size, nodes', live', own, c) {
      assert LiveOk(size, nodes, live, own, c);
    }
    forall c: nat ensures FreeOk(size, nodes', own, c) {
      assert FreeOk(size, nodes, own, c);
    }
    forall u: nat ensures OwnOk(size, nodes', live', own, u) {
      assert OwnOk(size, nodes, live, own, u);
    }
  }

  /** Splitting off the last n of the m units of block p leaves another block its units. */
  lemma TailOwns(own: Field, p: nat, m: nat, n: nat, c: nat, k: nat)
    requires 0 < n < m && Units(own, p, m) && Units(own, c, k) && c != p
    ensures Units(Reown(own, p + m - n, n), c, k)
  {
    var own' := Reown(own, p + m - n, n);
    forall u: nat | c <= u < c + k ensures u in own' && own'[u] == c {
      assert u in own;
    }
  }

  /** The last n units of a free block start no block yet. */
  lemma TailIsInside(size: Field, nodes: seq<nat>, live: Field, own: Field, p: nat, n: nat)
    requires Parts(size, nodes, live, own) && p in nodes && p != BASE && p in size && 0 < n < size[p]
    ensures var q := p + size[p] - n;
            && q !in live && q !in nodes && q != BASE && p !in live
            && Units(own, p, size[p]) && Units(Reown(own, q, n), q, n) && Units(Reown(own, q, n), p, size[p] - n)
  {
    var q := p + size[p] - n;
    assert FreeOk(size, nodes, own, p) && FreeOk(size, nodes, own, q) && LiveOk(size, nodes, live, own, q)
           && LiveOk(size, nodes, live, own, p);
    assert q in own && own[q] == p;
  }

  /** The last n units of a free block become a live block. */
  lemma TailParts(size: Field, nodes: seq<nat>, live: Field, own: Field, p: nat, n: nat)
    requires Parts(size, nodes, live, own) && p in nodes && p != BASE && p in size && 0 < n < size[p]
    ensures var q := p + size[p] - n;
            && q !in live && q !in nodes && q != BASE
            && Parts(size[p := size[p] - n][q := n], nodes, live[q := n], Reown(own, q, n))
  {
    var q := p + size[p] - n;
    var size', live', own' := size[p := size[p] - n][q := n], live[q := n], Reown(own, q, n);
    TailIsInside(size, nodes, live, own, p, n);
    forall c: nat ensures LiveOk(size', nodes, live', own', c) {
      assert LiveOk(size, nodes, live, own, c);
      if c in live {
        TailOwns(own, p, size[p], n, c, live[c]);
      }
    }
    forall c: nat ensures FreeOk(size', nodes, own', c) {
      assert FreeOk(size, nodes, own, c);
      if c in nodes && c != BASE && c != p {
        TailOwns(own, p, size[p], n, c, size[c]);
      }
    }
    forall u: nat ensures OwnOk(size', nodes, live', own', u) {
      assert OwnOk(size, nodes, live, own, u);
      TailOwnOk(size, nodes, live, own, p, n, u);
    }
  }

  lemma TailOwnOk(size: Field, nodes: seq<nat>, live: Field, own: Field, p: nat, n: nat, u: nat)
    requires p in nodes && p != BASE && p in size && 0 < n < size[p] && p + size[p] - n !in nodes
    requires p + size[p] - n !in live && Units(own, p, size[p]) && OwnOk(size, nodes, live, own, u)
    ensures var q := p + size[p] - n;
            OwnOk(size[p := size[p] - n][q := n], nodes, live[q := n], Reown(own, q, n), u)
  {
  }

  ghost function Interval(r: nat, n: nat): (s: set<nat>)
    ensures forall u: nat :: u in s <==> r <= u < r + n
  {
    if n == 0 then {} else Interval(r, n - 1) + {r + n - 1}
  }

  ghost function Grown(own: Field, r: nat, n: nat): Field {
    own + map u | u in Interval(r, n) :: r
  }

  /** A fresh region counts as one live block. */
  lemma GrownParts(size: Field, nodes: seq<nat>, live: Field, own: Field, r: nat, n: nat)
    requires Parts(size, nodes, live, own) && n > 0 && r > BASE && r !in nodes
             && forall u: nat :: r <= u < r + n ==> u !in own
    ensures r !in live && Parts(size[r := n], nodes, live[r := n], Grown(own, r, n))
  {
    var size', live', own' := size[r := n], live[r := n], Grown(own, r, n);
    assert LiveOk(size, nodes, live, own, r);
    LiveIsOwned(size, nodes, live, own, r);
    forall c: nat ensures LiveOk(size', nodes, live', own', c) {
      assert LiveOk(size, nodes, live, own, c);
    }
    forall c: nat ensures FreeOk(size', nodes, own', c) {
      assert FreeOk(size, nodes, own, c);
    }
    forall u: nat ensures OwnOk(size', nodes, live', own', u) {
      assert OwnOk(size, nodes, live, own, u);
    }
  }
}
