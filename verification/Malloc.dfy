/** malloc, free and morecore of user/umalloc.c: a circular, address-ordered, coalescing, next-fit
    free list. */
module Malloc {
  import opened FreeList
  import opened Words

  const HEADER: nat := 16

  /** The value an int parameter takes for an unsigned long argument. */
  function AsInt(x: nat): int {
    if x % U32 < 0x8000_0000 then x % U32 else x % U32 - U32
  }

  /** sbrk(nu * sizeof(Header)): sbrk takes an int, and gets the right number exactly for fewer than
      2^27 units. */
  lemma NarrowingIsExact(nu: nat)
    ensures AsInt(nu * HEADER) == nu * HEADER <==> nu < 0x800_0000
  {
  }

  /** A request of 2^31 - 31 bytes asks sbrk to shrink the process. */
  lemma NarrowingFails()
    ensures UnitsFor(0x7FFF_FFE1) == 0x800_0000 && AsInt(UnitsFor(0x7FFF_FFE1) * HEADER) < 0
  {
  }

  /** Units for nbytes of payload and a header. */
  function UnitsFor(nbytes: nat): (n: nat)
    ensures n >= 1 && nbytes <= (n - 1) * HEADER < nbytes + HEADER
  {
    (nbytes + HEADER - 1) / HEADER + 1
  }

  /** What morecore asks for: never less than 4096 units. */
  function AtLeastPage(nu: nat): (r: nat)
    ensures r >= 4096 && r >= nu && (r == 4096 || r == nu)
  {
    if nu < 4096 then 4096 else nu
  }

  datatype Core = Got | NoCore | BadCall

  /** malloc's outcome; Narrowed is an sbrk call with an argument the int parameter cannot hold. */
  datatype Result = Block(p: nat) | Null | Narrowed

  lemma SplicedHas(nodes: seq<nat>, t: nat, mid: seq<nat>, r: nat, x: nat)
    requires t < r <= t + 2 && r <= |nodes| && (forall i: nat, j: nat :: i < j < |nodes| ==> nodes[i] < nodes[j])
    ensures x in Spliced(nodes, t, mid, r) <==> x in mid || (x in nodes && (r == t + 2 ==> x != nodes[t + 1]))
  {
    if x in nodes {
      var i :| 0 <= i < |nodes| && nodes[i] == x;
      assert i <= t ==> nodes[..t + 1][i] == x;
      assert i >= r ==> nodes[r..][i - r] == x;
    }
  }

  /** The memory of the blocks free joins. */
  lemma Freed(ptr: Field, size: Field, nodes: seq<nat>, live: Field, own: Field, size': Field, b: nat, t: nat, r: nat,
              joined: bool)
    requires Listed(ptr, size, nodes) && Parts(size, nodes, live, own) && b in live && b in size && t < r <= t + 2
             && r <= |nodes|
    requires nodes[t] in size && nodes[t] < b && (joined <==> nodes[t] + size[nodes[t]] == b) && (joined ==> t > 0)
    requires r == t + 2 ==> nodes[t + 1] in size && b + size[b] == nodes[t + 1]
    requires var n := size[b] + (if r == t + 2 then size[nodes[t + 1]] else 0);
             size' == if joined then size[b := n][nodes[t] := size[nodes[t]] + n] else size[b := n]
    ensures var h := if joined then nodes[t] else b;
            h in size' && Parts(size', Spliced(nodes, t, if joined then [] else [b], r), live - {b},
                                Reown(own, h, size'[h]))
  {
    var p := nodes[t];
    var h := if joined then p else b;
    var nodes' := Spliced(nodes, t, if joined then [] else [b], r);
    var gone := {b} + (if joined then {p} else {}) + (if r == t + 2 then {nodes[t + 1]} else {});
    Distinct(ptr, size, nodes);
    assert NodeOk(ptr, size, nodes, 0);
    assert LiveOk(size, nodes, live, own, b) && p in nodes;
    FreedUnits(size, nodes, live, own, b, t, r, joined);
    forall x ensures x in nodes' <==> x == h || (x in nodes && x !in gone) {
      SplicedHas(nodes, t, if joined then [] else [b], r, x);
      assert x in gone <==> x == b || (joined && x == p) || (r == t + 2 && x == nodes[t + 1]);
    }
    FreedParts(size, nodes, live, own, size', nodes', b, h, size'[h], gone);
  }

  lemma FreedUnits(size: Field, nodes: seq<nat>, live: Field, own: Field, b: nat, t: nat, r: nat, joined: bool)
    requires Parts(size, nodes, live, own) && b in live && b in size && t < r <= t + 2 && r <= |nodes|
             && nodes[t] in size
    requires joined ==> nodes[t] + size[nodes[t]] == b && nodes[t] != BASE
    requires r == t + 2 ==> nodes[t + 1] in size && b + size[b] == nodes[t + 1] && nodes[t + 1] != BASE
    ensures var h := if joined then nodes[t] else b;
            var top := b + size[b] + if r == t + 2 then size[nodes[t + 1]] else 0;
            var gone := {b} + (if joined then {nodes[t]} else {}) + (if r == t + 2 then {nodes[t + 1]} else {});
            forall u: nat :: h <= u < top ==> u in own && own[u] in gone
  {
    var h := if joined then nodes[t] else b;
    var top := b + size[b] + if r == t + 2 then size[nodes[t + 1]] else 0;
    assert LiveOk(size, nodes, live, own, b) && FreeOk(size, nodes, own, nodes[t]);
    if r == t + 2 {
      assert FreeOk(size, nodes, own, nodes[t + 1]);
    }
    forall u: nat | h <= u < top
      ensures u in own && (own[u] == b || (joined && own[u] == nodes[t]) || (r == t + 2 && own[u] == nodes[t + 1]))
    {
    }
  }

  /** Unlinking node j. */
  lemma SameButOne(ptr: Field, size: Field, nodes: seq<nat>, j: nat)
    requires Listed(ptr, size, nodes) && 0 < j < |nodes| && nodes[j] in ptr
    ensures Listed(ptr[nodes[j - 1] := ptr[nodes[j]]], size, Spliced(nodes, j - 1, [], j + 1))
    ensures forall x :: x in Spliced(nodes, j - 1, [], j + 1) <==> x in nodes && x != nodes[j]
  {
    var ptr' := ptr[nodes[j - 1] := ptr[nodes[j]]];
    Distinct(ptr, size, nodes);
    assert NodeOk(ptr, size, nodes, j - 1) && NodeOk(ptr, size, nodes, j) && NodeOk(ptr, size, nodes, 0);
    forall i: nat | i < |nodes| && (i < j - 1 || i >= j + 1) ensures SameHeader(ptr, size, ptr', size, nodes[i]) {
      assert NodeOk(ptr, size, nodes, i);
    }
    LinkOver(ptr, size, ptr', size, nodes, j - 1, j + 1);
    forall x ensures x in Spliced(nodes, j - 1, [], j + 1) <==> x in nodes && x != nodes[j] {
      SplicedHas(nodes, j - 1, [], j + 1, x);
    }
  }

  lemma SameIndex(ptr: Field, size: Field, nodes: seq<nat>, i: nat, j: nat)
    requires Listed(ptr, size, nodes) && i < |nodes| && j < |nodes|
    ensures nodes[i] == nodes[j] <==> i == j
  {
    Distinct(ptr, size, nodes);
  }

  lemma OtherSize(ptr: Field, size: Field, nodes: seq<nat>, x: nat, n: nat)
    requires Listed(ptr, size, nodes) && x !in nodes
    ensures Listed(ptr, size[x := n], nodes)
  {
    var size' := size[x := n];
    forall i: nat | i < |nodes| ensures NodeOk(ptr, size', nodes, i) {
      assert NodeOk(ptr, size, nodes, i);
    }
  }

  lemma TailListed(ptr: Field, size: Field, nodes: seq<nat>, j: nat, n: nat)
    requires Listed(ptr, size, nodes) && 0 < j < |nodes| && nodes[j] in size && 0 < n < size[nodes[j]]
             && nodes[j] + size[nodes[j]] - n !in nodes
    ensures Listed(ptr, size[nodes[j] := size[nodes[j]] - n][nodes[j] + size[nodes[j]] - n := n], nodes)
  {
    var size' := size[nodes[j] := size[nodes[j]] - n];
    Distinct(ptr, size, nodes);
    forall i: nat | i < |nodes| ensures NodeOk(ptr, size', nodes, i) {
      assert NodeOk(ptr, size, nodes, i);
    }
    OtherSize(ptr, size', nodes, nodes[j] + size[nodes[j]] - n, n);
  }

  /** Some free block has n units. */
  ghost predicate Roomy(size: Field, nodes: seq<nat>, n: nat) {
    exists i :: 0 <= i < |nodes| && nodes[i] in size && size[nodes[i]] >= n
  }

  ghost predicate PassedBy(size: Field, nodes: seq<nat>, n: nat, f: nat, j: nat, i: nat) {
    i < |nodes| && Steps(|nodes|, i, f) > Steps(|nodes|, j, f) ==> nodes[i] !in size || size[nodes[i]] < n
  }

  /** The nodes behind a search for n units, from the one after node f up to node j, are too small. */
  ghost predicate Passed(size: Field, nodes: seq<nat>, n: nat, f: nat, j: nat) {
    forall i: nat {:trigger PassedBy(size, nodes, n, f, j, i)} :: PassedBy(size, nodes, n, f, j, i)
  }

  /** p is the last of the nodes below b. */
  ghost predicate JustBelow(nodes: seq<nat>, p: int, b: nat) {
    p in nodes && p < b && forall x :: x in nodes && x < b ==> x <= p
  }

  lemma BelowIs(ptr: Field, size: Field, nodes: seq<nat>, t: nat, b: nat)
    requires Listed(ptr, size, nodes) && t < |nodes| && nodes[t] < b && (t + 1 < |nodes| ==> b < nodes[t + 1])
    ensures JustBelow(nodes, nodes[t], b)
  {
    Distinct(ptr, size, nodes);
    forall x | x in nodes && x < b ensures x <= nodes[t] {
      var i :| 0 <= i < |nodes| && nodes[i] == x;
    }
  }

  /** Next fit: b is the tail of the first block with room behind freep, and the search resumes before that block. */
  ghost predicate NextFit(size: Field, nodes: seq<nat>, freep: int, n: nat, b: nat, freep': int) {
    exists f: nat, j: nat {:trigger Passed(size, nodes, n, f, j)} ::
      && f < |nodes| && nodes[f] == freep && 0 < j < |nodes| && Passed(size, nodes, n, f, j) && freep' == nodes[j - 1]
      && nodes[j] in size && size[nodes[j]] >= n && b == nodes[j] + size[nodes[j]] - n
  }

  lemma FoundNext(size: Field, nodes: seq<nat>, freep: int, n: nat, f: nat, j: nat)
    requires f < |nodes| && nodes[f] == freep && 0 < j < |nodes| && Passed(size, nodes, n, f, j)
    requires nodes[j] in size && size[nodes[j]] >= n
    ensures NextFit(size, nodes, freep, n, nodes[j] + size[nodes[j]] - n, nodes[j - 1])
  {
  }

  lemma PassedNone(size: Field, nodes: seq<nat>, n: nat, f: nat)
    requires f < |nodes|
    ensures Passed(size, nodes, n, f, Succ(f, |nodes|))
  {
  }

  lemma PassedOne(size: Field, nodes: seq<nat>, n: nat, f: nat, j: nat)
    requires f < |nodes| && j < |nodes| && j != f && Passed(size, nodes, n, f, j)
    requires nodes[j] in size && size[nodes[j]] < n
    ensures Passed(size, nodes, n, f, Succ(j, |nodes|))
  {
    forall i: nat ensures PassedBy(size, nodes, n, f, Succ(j, |nodes|), i) {
      assert PassedBy(size, nodes, n, f, j, i);
    }
  }

  /** When the search is back at node f, and that is too small too, nothing has room. */
  lemma PassedAll(size: Field, nodes: seq<nat>, n: nat, f: nat)
    requires f < |nodes| && Passed(size, nodes, n, f, f) && nodes[f] in size && size[nodes[f]] < n
    ensures !Roomy(size, nodes, n)
  {
    forall i: nat | i < |nodes| ensures nodes[i] !in size || size[nodes[i]] < n {
      assert PassedBy(size, nodes, n, f, f, i);
    }
  }

  class Heap {
    var ptr: Field
    var size: Field
    var freep: int                  // -1 for a null pointer
    var brk: nat                    // the process's break, above everything obtained
    ghost var nodes: seq<nat>       // the free list from base on
    ghost var live: Field           // blocks handed out, with their sizes
    ghost var own: Field            // every unit obtained, and the block it is in

    ghost predicate Inside()
      reads this
    {
      brk > BASE && forall u :: u in own ==> BASE < u < brk
    }

    ghost predicate Valid()
      reads this
    {
      if freep < 0 then live == map[] && own == map[] && brk > BASE
      else Listed(ptr, size, nodes) && Parts(size, nodes, live, own) && freep in nodes && Inside()
    }

    constructor (start: nat)
      requires start > BASE
      ensures Valid() && live == map[] && own == map[] && brk == start
    {
      ptr, size, freep, brk, nodes, live, own := map[], map[], -1, start, [], map[], map[];
    }

    /** free's search: the node after which the block at b belongs. */
    method Find(b: nat) returns (p: nat, ghost t: nat)
      requires Listed(ptr, size, nodes) && freep in nodes && b > BASE && b !in nodes
      ensures t < |nodes| && p == nodes[t] < b && (t + 1 < |nodes| ==> b < nodes[t + 1]) && p in ptr && p in size
      ensures JustBelow(nodes, p, b)
    {
      Distinct(ptr, size, nodes);
      assert NodeOk(ptr, size, nodes, 0);
      t := FreeList.Below(nodes, b);
      p := freep;
      ghost var i: nat :| i < |nodes| && nodes[i] == p;
      assert NodeOk(ptr, size, nodes, i);
      while !(b > p && b < ptr[p])
        invariant i < |nodes| && p == nodes[i] && NodeOk(ptr, size, nodes, i)
        decreases Steps(|nodes|, i, t)
      {
        if p >= ptr[p] && (b > p || b < ptr[p]) {
          break;
        }
        p := ptr[p];
        i := Succ(i, |nodes|);
        assert NodeOk(ptr, size, nodes, i);
      }
      assert i == t;
      BelowIs(ptr, size, nodes, t, b);
    }

    /** Joins block b with the free block above it if they touch; r is the node that now follows b. */
    method JoinUpper(b: nat, p: nat, ghost t: nat) returns (ghost r: nat)
      requires Listed(ptr, size, nodes) && t < |nodes| && p == nodes[t] < b && b !in nodes && b in size && size[b] > 0
               && p in ptr
      requires t + 1 < |nodes| ==> b + size[b] <= nodes[t + 1]
      modifies this`ptr, this`size
      ensures t < r <= t + 2 && r <= |nodes| && b in size && ptr == old(ptr)[b := At(nodes, r)]
              && size == old(size)[b := size[b]]
      ensures r == t + 1 ==> size[b] == old(size)[b]
      ensures r == t + 2 ==> nodes[t + 1] in old(size) && b + old(size)[b] == nodes[t + 1]
                             && size[b] == old(size)[b] + old(size)[nodes[t + 1]]
      ensures r < |nodes| ==> b + size[b] < nodes[r]
    {
      assert NodeOk(ptr, size, nodes, t) && NodeOk(ptr, size, nodes, 0);
      var next := ptr[p];
      if b + size[b] == next {
        assert NodeOk(ptr, size, nodes, t + 1);
        size := size[b := size[b] + size[next]];
        ptr := ptr[b := ptr[next]];
        r := t + 2;
      } else {
        ptr := ptr[b := next];
        r := t + 1;
      }
    }

    /** Joins block b with the free block p below it if they touch, or links it in after p. */
    method JoinLower(b: nat, p: nat, ghost t: nat, ghost r: nat, ghost ptr0: Field,
                     ghost size0: Field) returns (ghost joined: bool)
      requires Listed(ptr0, size0, nodes) && t < r <= |nodes| && p == nodes[t] && p in size0 && p + size0[p] <= b
               && b !in nodes && b > BASE
      requires b in size && size[b] > 0 && ptr == ptr0[b := At(nodes, r)] && size == size0[b := size[b]]
               && (r < |nodes| ==> b + size[b] < nodes[r])
      modifies this`ptr, this`size
      ensures joined <==> p + size0[p] == b
      ensures Listed(ptr, size, Spliced(nodes, t, if joined then [] else [b], r))
      ensures size == if joined then old(size)[p := size0[p] + old(size)[b]] else old(size)
    {
      assert NodeOk(ptr0, size0, nodes, t);
      forall i: nat | i < |nodes| ensures nodes[i] in ptr && nodes[i] in size && nodes[i] in ptr0 && nodes[i] in size0 {
        assert NodeOk(ptr0, size0, nodes, i);
      }
      Distinct(ptr0, size0, nodes);
      joined := p + size0[p] == b;
      if p + size[p] == b {
        size := size[p := size[p] + size[b]];
        ptr := ptr[p := ptr[b]];
        LinkOver(ptr0, size0, ptr, size, nodes, t, r);
      } else {
        ptr := ptr[p := b];
        LinkIn(ptr0, size0, ptr, size, nodes, t, r, b);
      }
    }

    /** free: the block at b is free, joined with the free blocks it touches; the list stays in order and
        without touching blocks, and no unit of memory is lost or owned twice. */
    method Free(b: nat)
      requires Valid() && freep >= 0 && b in live
      modifies this`ptr, this`size, this`freep, this`nodes, this`live, this`own
      ensures Valid() && freep >= 0 && live == old(live) - {b} && own.Keys == old(own).Keys
      ensures exists x :: x in nodes && x in size && x <= b && b + old(live)[b] <= x + size[x]
      ensures JustBelow(old(nodes), freep, b)
    {
      assert LiveOk(size, nodes, live, own, b) && NodeOk(ptr, size, nodes, 0);
      ghost var t, r, joined;
      var p;
      p, t := Find(b);
      Between(ptr, size, nodes, live, own, b, t);
      r := JoinUpper(b, p, t);
      joined := JoinLower(b, p, t, r, old(ptr), old(size));
      freep := p;
      ghost var h := if joined then p else b;
      Freed(old(ptr), old(size), nodes, live, own, size, b, t, r, joined);
      nodes := Spliced(nodes, t, if joined then [] else [b], r);
      live, own := live - {b}, Reown(own, h, size[h]);
      assert nodes[t] == p;
      assert h in nodes;
    }

    /** morecore: at least nu units above everything else, put on the free list.  sbrk fails if `fail` says
        so; `gap` units lie between the old break and the new region. */
    method MoreCore(nu: nat, fail: bool, gap: nat) returns (r: Core)
      requires Valid() && freep >= 0
      modifies this`ptr, this`size, this`freep, this`brk, this`nodes, this`live, this`own
      ensures Valid() && freep >= 0 && live == old(live) && old(own).Keys <= own.Keys
      ensures r.BadCall? <==> nu >= 0x800_0000
      ensures r.NoCore? <==> nu < 0x800_0000 && fail
      ensures !r.Got? ==> own == old(own) && brk == old(brk)
      ensures r.Got? ==> own.Keys == old(own).Keys + Interval(old(brk) + gap, AtLeastPage(nu))
                         && brk == old(brk) + gap + AtLeastPage(nu) && Roomy(size, nodes, nu)
    {
      var n := AtLeastPage(nu);
      NarrowingIsExact(n);
      if AsInt(n * HEADER) != n * HEADER {
        return BadCall;
      }
      if fail {
        return NoCore;
      }
      var hp := brk + gap;
      assert NodeOk(ptr, size, nodes, 0);
      assert FreeOk(size, nodes, own, hp) && hp !in own;
      GrownParts(size, nodes, live, own, hp, n);
      OtherSize(ptr, size, nodes, hp, n);
      brk := hp + n;
      size := size[hp := n];
      live, own := live[hp := n], Grown(own, hp, n);
      Free(hp);
      r := Got;
    }

    /** Hands out the whole free block p, the node after prevp. */
    method CarveWhole(prevp: nat, p: nat, ghost j: nat)
      requires Valid() && freep >= 0 && 0 < j < |nodes| && p == nodes[j] && prevp == nodes[j - 1] && p in size
               && p in ptr
      modifies this`ptr, this`freep, this`nodes, this`live
      ensures Valid() && freep == prevp && p !in old(live) && live == old(live)[p := size[p]]
    {
      Distinct(ptr, size, nodes);
      assert NodeOk(ptr, size, nodes, 0) && NodeOk(ptr, size, nodes, j);
      SameButOne(ptr, size, nodes, j);
      WholeParts(size, nodes, live, own, Spliced(nodes, j - 1, [], j + 1), p);
      freep := prevp;
      ptr := ptr[prevp := ptr[p]];
      live, nodes := live[p := size[p]], Spliced(nodes, j - 1, [], j + 1);
      assert nodes[j - 1] == prevp;
    }

    /** Hands out the last n units of the free block p, the node after prevp. */
    method CarveTail(prevp: nat, p: nat, n: nat, ghost j: nat) returns (q: nat)
      requires Valid() && freep >= 0 && 0 < j < |nodes| && p == nodes[j] && prevp == nodes[j - 1] && p in size
               && 0 < n < size[p]
      modifies this`size, this`freep, this`live, this`own
      ensures Valid() && freep == prevp && q !in old(live) && live == old(live)[q := n] && own.Keys == old(own).Keys
      ensures q == p + old(size)[p] - n
    {
      Distinct(ptr, size, nodes);
      assert NodeOk(ptr, size, nodes, 0);
      TailParts(size, nodes, live, own, p, n);
      TailListed(ptr, size, nodes, j, n);
      size := size[p := size[p] - n];
      q := p + size[p];
      size := size[q := n];
      freep := prevp;
      live, own := live[q := n], Reown(own, q, n);
    }

    /** The first call makes base a list of its own. */
    method Start()
      requires Valid() && freep < 0
      modifies this`ptr, this`size, this`freep, this`nodes
      ensures Valid() && freep == BASE && live == old(live) && nodes == [BASE]
    {
      ptr := ptr[BASE := BASE];
      size := size[BASE := 0];
      freep := BASE;
      nodes := [BASE];
      assert NodeOk(ptr, size, nodes, 0);
    }

    /** Hands out n units of the free block p, the node after prevp: all of it or its tail. */
    method Carve(prevp: nat, p: nat, n: nat, ghost j: nat) returns (q: nat)
      requires Valid() && freep >= 0 && 0 < j < |nodes| && p == nodes[j] && prevp == nodes[j - 1] && p in size
               && p in ptr && 0 < n <= size[p]
      modifies this`ptr, this`size, this`freep, this`nodes, this`live, this`own
      ensures Valid() && freep == prevp && q !in old(live) && live == old(live)[q := n] && own.Keys == old(own).Keys
      ensures q == p + old(size)[p] - n
    {
      if size[p] == n {
        CarveWhole(prevp, p, j);
        q := p;
      } else {
        q := CarveTail(prevp, p, n, j);
      }
    }

    /** Some free block has n units. */
    ghost predicate HasRoom(n: nat)
      reads this
    {
      freep >= 0 && Roomy(size, nodes, n)
    }

    /** The body of malloc's loop up to the test p == freep: from the node after freep round to freep. */
    method Search(n: nat) returns (found: bool, prevp: nat, p: nat, ghost j: nat)
      requires Listed(ptr, size, nodes) && freep >= 0 && freep in nodes && n > 0
      ensures found <==> Roomy(size, nodes, n)
      ensures found ==>
                && 0 < j < |nodes| && p == nodes[j] && prevp == nodes[j - 1] && p in size && p in ptr && size[p] >= n
                && NextFit(size, nodes, freep, n, p + size[p] - n, prevp)
    {
      ghost var f: nat :| f < |nodes| && nodes[f] == freep;
      assert NodeOk(ptr, size, nodes, f);
      prevp := freep;
      p := ptr[prevp];
      j := Succ(f, |nodes|);
      PassedNone(size, nodes, n, f);
      while true
        invariant j < |nodes| && p == nodes[j] && (j > 0 ==> prevp == nodes[j - 1]) && Passed(size, nodes, n, f, j)
        decreases Steps(|nodes|, j, f)
      {
        assert NodeOk(ptr, size, nodes, j);
        if size[p] >= n {
          FoundNext(size, nodes, freep, n, f, j);
          return true, prevp, p, j;
        }
        SameIndex(ptr, size, nodes, f, j);
        if p == freep {
          PassedAll(size, nodes, n, f);
          return false, prevp, p, j;
        }
        PassedOne(size, nodes, n, f, j);
        prevp := p;
        p := ptr[p];
        j := Succ(j, |nodes|);
      }
    }

    /** What malloc does when the search comes round to freep: morecore, and once more round the list, which now
        has room. */
    method Refill(n: nat, fail: bool, gap: nat) returns (c: Core, prevp: nat, p: nat, ghost j: nat)
      requires Valid() && freep >= 0 && n > 0
      modifies this
      ensures Valid() && freep >= 0 && live == old(live)
      ensures c.BadCall? <==> n >= 0x800_0000
      ensures c.NoCore? <==> n < 0x800_0000 && fail
      ensures !c.Got? ==> own == old(own) && brk == old(brk)
      ensures c.Got? ==>
                && own.Keys == old(own).Keys + Interval(old(brk) + gap, AtLeastPage(n))
                && brk == old(brk) + gap + AtLeastPage(n)
                && 0 < j < |nodes| && p == nodes[j] && prevp == nodes[j - 1] && p in size && p in ptr && size[p] >= n
    {
      prevp, p, j := 0, 0, 0;
      c := MoreCore(n, fail, gap);
      if c.Got? {
        var found;
        found, prevp, p, j := Search(n);
      }
    }

    /** malloc: a block of UnitsFor(nbytes) units, none of them in use before.  It comes from the memory at
        hand if some free block has room, and only otherwise from a new region; null if sbrk fails. */
    method Malloc(nbytes: nat, fail: bool, gap: nat) returns (r: Result)
      requires Valid() && nbytes < U32
      modifies this
      ensures Valid()
      ensures r.Block? ==> r.p > 0 && r.p - 1 !in old(live) && live == old(live)[r.p - 1 := UnitsFor(nbytes)]
      ensures r.Null? <==> !old(HasRoom(UnitsFor(nbytes))) && UnitsFor(nbytes) < 0x800_0000 && fail
      ensures r.Narrowed? <==> !old(HasRoom(UnitsFor(nbytes))) && UnitsFor(nbytes) >= 0x800_0000
      ensures r.Block? && old(HasRoom(UnitsFor(nbytes))) ==>
                NextFit(old(size), old(nodes), old(freep), UnitsFor(nbytes), r.p - 1, freep)
      ensures !r.Block? ==> live == old(live)
      ensures !r.Block? || old(HasRoom(UnitsFor(nbytes))) ==> own.Keys == old(own).Keys && brk == old(brk)
      ensures r.Block? && !old(HasRoom(UnitsFor(nbytes))) ==>
                && own.Keys == old(own).Keys + Interval(old(brk) + gap, AtLeastPage(UnitsFor(nbytes)))
                && brk == old(brk) + gap + AtLeastPage(UnitsFor(nbytes))
    {
      var n := UnitsFor(nbytes);
      if freep < 0 {
        Start();
      }
      ghost var j;
      var found, prevp, p;
      found, prevp, p, j := Search(n);
      if !found {
        var c;
        c, prevp, p, j := Refill(n, fail, gap);
        if !c.Got? {
          return if c.NoCore? then Null else Narrowed;
        }
      }
      p := Carve(prevp, p, n, j);
      r := Block(p + 1);
    }
  }

  /** Two live blocks share no unit. */
  lemma LiveDisjoint(size: Field, nodes: seq<nat>, live: Field, own: Field, a: nat, b: nat)
    requires Parts(size, nodes, live, own) && a in live && b in live && a < b
    ensures a + live[a] <= b
  {
    assert LiveOk(size, nodes, live, own, a) && LiveOk(size, nodes, live, own, b);
    assert b in own && own[b] == b;
  }

  datatype Op = Alloc(nbytes: nat, fail: bool, gap: nat) | Release(p: nat)

  /** The memory an operation obtained from sbrk, if any. */
  datatype Growth = Kept | Region(at: nat, len: nat)

  predicate IsOp(op: Op) {
    op.Alloc? ==> op.nbytes < U32
  }

  /** malloc's answer fits the request: null and the narrowed call only where they are due, and a new
      region only for a block that is handed out, as large as it has to be. */
  predicate Answers(op: Op, r: Result, g: Growth) {
    match op
    case Alloc(nbytes, fail, gap) =>
      && (r.Null? ==> fail) && (r.Narrowed? ==> UnitsFor(nbytes) >= 0x800_0000)
      && (g.Region? ==> r.Block? && !fail && UnitsFor(nbytes) < 0x800_0000 && g.len == AtLeastPage(UnitsFor(nbytes)))
    case Release(p) => g.Kept?
  }

  /** The user's blocks, by address and number of units, after one more answer. */
  function Booked(mine: Field, op: Op, r: Result): Field {
    match op
    case Alloc(nbytes, fail, gap) => if r.Block? then mine[r.p := UnitsFor(nbytes) - 1] else mine
    case Release(p) => mine - {p}
  }

  function Ledger(ops: seq<Op>, res: seq<Result>): Field
    requires |ops| == |res|
  {
    if ops == [] then map[]
    else
      var n := |ops| - 1;
      Booked(Ledger(ops[..n], res[..n]), ops[n], res[n])
  }

  ghost function Extent(g: Growth): set<nat> {
    if g.Region? then Interval(g.at, g.len) else {}
  }

  /** Everything obtained from sbrk. */
  ghost function Memory(mem: seq<Growth>): set<nat> {
    if mem == [] then {} else Memory(mem[..|mem| - 1]) + Extent(mem[|mem| - 1])
  }

  /** Blocks, each with the header before it, lie in mem and share no unit. */
  ghost predicate Apart(mine: Field, mem: set<nat>) {
    && (forall p :: p in mine ==> p > 0 && Interval(p - 1, mine[p] + 1) <= mem)
    && (forall p, q :: p in mine && q in mine && p < q ==> p + mine[p] < q)
  }

  /** After t calls the last one was answered properly and the user's blocks are apart. */
  ghost predicate Moment(ops: seq<Op>, res: seq<Result>, mem: seq<Growth>, t: nat)
    requires t <= |ops| && t <= |res| && t <= |mem|
  {
    && (t > 0 ==> Answers(ops[t - 1], res[t - 1], mem[t - 1]))
    && Apart(Ledger(ops[..t], res[..t]), Memory(mem[..t]))
  }

  /** The user's blocks are the live ones, without their headers. */
  ghost predicate Holds(mine: Field, live: Field) {
    && (forall p: nat {:trigger HeldAt(mine, live, p)} :: HeldAt(mine, live, p))
    && (forall b: nat {:trigger LiveAt(mine, live, b)} :: LiveAt(mine, live, b))
  }

  predicate HeldAt(mine: Field, live: Field, p: nat) {
    p in mine ==> p > 0 && p - 1 in live && live[p - 1] == mine[p] + 1
  }

  predicate LiveAt(mine: Field, live: Field, b: nat) {
    b in live ==> b + 1 in mine
  }

  lemma HeldInside(size: Field, nodes: seq<nat>, live: Field, own: Field, b: nat)
    requires LiveOk(size, nodes, live, own, b) && b in live
    ensures Interval(b, live[b]) <= own.Keys
  {
    forall u | u in Interval(b, live[b]) ensures u in own {
      assert b <= u < b + live[b];
    }
  }

  lemma HeldApart(size: Field, nodes: seq<nat>, live: Field, own: Field, mine: Field)
    requires Parts(size, nodes, live, own) && Holds(mine, live)
    ensures Apart(mine, own.Keys)
  {
    forall p | p in mine ensures p > 0 && Interval(p - 1, mine[p] + 1) <= own.Keys {
      assert HeldAt(mine, live, p) && LiveOk(size, nodes, live, own, p - 1);
      HeldInside(size, nodes, live, own, p - 1);
    }
    HeldDisjoint(size, nodes, live, own, mine);
  }

  lemma HeldDisjoint(size: Field, nodes: seq<nat>, live: Field, own: Field, mine: Field)
    requires Parts(size, nodes, live, own) && Holds(mine, live)
    ensures forall p, q :: p in mine && q in mine && p < q ==> p + mine[p] < q
  {
    forall p, q | p in mine && q in mine && p < q ensures p + mine[p] < q {
      assert HeldAt(mine, live, p) && HeldAt(mine, live, q);
      LiveDisjoint(size, nodes, live, own, p - 1, q - 1);
    }
  }

  lemma NothingHeld(mine: Field)
    requires Holds(mine, map[])
    ensures mine == map[]
  {
    forall p: nat ensures p !in mine {
      assert HeldAt(mine, map[], p);
    }
  }

  lemma HoldsMore(mine: Field, live: Field, p: nat, n: nat)
    requires Holds(mine, live) && p > 0 && n > 0 && p - 1 !in live
    ensures Holds(mine[p := n - 1], live[p - 1 := n])
  {
    var mine', live' := mine[p := n - 1], live[p - 1 := n];
    forall q: nat ensures HeldAt(mine', live', q) {
      assert HeldAt(mine, live, q);
    }
    forall b: nat ensures LiveAt(mine', live', b) {
      assert LiveAt(mine, live, b);
    }
  }

  lemma HoldsLess(mine: Field, live: Field, p: nat)
    requires Holds(mine, live) && p in mine
    ensures Holds(mine - {p}, live - {p - 1})
  {
    assert HeldAt(mine, live, p);
    var mine', live' := mine - {p}, live - {p - 1};
    forall q: nat ensures HeldAt(mine', live', q) {
      assert HeldAt(mine, live, q);
    }
    forall b: nat ensures LiveAt(mine', live', b) {
      assert LiveAt(mine, live, b);
    }
  }

  method CallMalloc(heap: Heap, nbytes: nat, fail: bool, gap: nat, ghost mine: Field)
    returns (r: Result, ghost g: Growth)
    requires heap.Valid() && Holds(mine, heap.live) && nbytes < U32
    modifies heap
    ensures heap.Valid() && Answers(Alloc(nbytes, fail, gap), r, g) && heap.own.Keys == old(heap.own).Keys + Extent(g)
    ensures Holds(Booked(mine, Alloc(nbytes, fail, gap), r), heap.live)
  {
    ghost var at, room := heap.brk + gap, heap.HasRoom(UnitsFor(nbytes));
    r := heap.Malloc(nbytes, fail, gap);
    g := if r.Block? && !room then Region(at, AtLeastPage(UnitsFor(nbytes))) else Kept;
    if r.Block? {
      HoldsMore(mine, old(heap.live), r.p, UnitsFor(nbytes));
    }
  }

  /** One call, for a user who holds the blocks in mine. */
  method Call(heap: Heap, op: Op, mine: Field) returns (r: Result, mine': Field, ghost g: Growth)
    requires heap.Valid() && Holds(mine, heap.live) && IsOp(op)
    modifies heap
    ensures heap.Valid() && Answers(op, r, g) && heap.own.Keys == old(heap.own).Keys + Extent(g)
    ensures mine' == Booked(mine, op, r) && Holds(mine', heap.live) && Apart(mine', heap.own.Keys)
  {
    g, r := Kept, Null;
    if op.Alloc? {
      r, g := CallMalloc(heap, op.nbytes, op.fail, op.gap, mine);
    } else if op.p in mine {
      HoldsLess(mine, heap.live, op.p);
      assert HeldAt(mine, heap.live, op.p);
      heap.Free(op.p - 1);
    } else {
      assert mine - {op.p} == mine;
    }
    mine' := Booked(mine, op, r);
    if heap.freep >= 0 {
      HeldApart(heap.size, heap.nodes, heap.live, heap.own, mine');
    } else {
      NothingHeld(mine');
    }
  }

  /** What was true after k calls is true of them when there is one more. */
  lemma EarlierMoment(ops: seq<Op>, res: seq<Result>, mem: seq<Growth>, r: Result, g: Growth, k: nat)
    requires k <= |res| == |mem| < |ops| && Moment(ops, res, mem, k)
    ensures Moment(ops, res + [r], mem + [g], k)
  {
    assert (res + [r])[..k] == res[..k] && (mem + [g])[..k] == mem[..k];
  }

  lemma LedgerGrows(ops: seq<Op>, res: seq<Result>, mem: seq<Growth>, r: Result, g: Growth)
    requires |res| == |mem| < |ops|
    ensures Ledger(ops[..|res| + 1], res + [r]) == Booked(Ledger(ops[..|res|], res), ops[|res|], r)
    ensures Memory(mem + [g]) == Memory(mem) + Extent(g)
  {
    var t := |res|;
    assert ops[..t + 1][..t] == ops[..t] && (res + [r])[..t] == res && (mem + [g])[..t] == mem;
  }

  lemma LastMoment(ops: seq<Op>, res: seq<Result>, mem: seq<Growth>, r: Result, g: Growth)
    requires |res| == |mem| < |ops| && Answers(ops[|res|], r, g)
    requires Apart(Booked(Ledger(ops[..|res|], res), ops[|res|], r), Memory(mem) + Extent(g))
    ensures Moment(ops, res + [r], mem + [g], |res| + 1)
  {
    LedgerGrows(ops, res, mem, r, g);
    assert (res + [r])[..|res| + 1] == res + [r] && (mem + [g])[..|res| + 1] == mem + [g];
  }

  lemma NextMoment(ops: seq<Op>, res: seq<Result>, mem: seq<Growth>, r: Result, g: Growth)
    requires |res| == |mem| < |ops| && Answers(ops[|res|], r, g)
    requires forall k: nat {:trigger Moment(ops, res, mem, k)} :: k <= |res| ==> Moment(ops, res, mem, k)
    requires Apart(Booked(Ledger(ops[..|res|], res), ops[|res|], r), Memory(mem) + Extent(g))
    ensures var res', mem' := res + [r], mem + [g];
            forall k: nat {:trigger Moment(ops, res', mem', k)} :: k <= |res| + 1 ==> Moment(ops, res', mem', k)
  {
    var res', mem' := res + [r], mem + [g];
    forall k: nat | k <= |res| + 1 ensures Moment(ops, res', mem', k) {
      if k <= |res| {
        EarlierMoment(ops, res, mem, r, g, k);
      } else {
        LastMoment(ops, res, mem, r, g);
      }
    }
  }

  /** Any sequence of malloc and free calls: at every moment the user's blocks lie in memory obtained from
      sbrk and overlap neither each other nor the headers between them; at the end the free list is in order
      without touching blocks, and every unit obtained is in one free block or in one of the user's. */
  method Run(start: nat, ops: seq<Op>) returns (heap: Heap, res: seq<Result>, ghost mem: seq<Growth>)
    requires start > BASE && forall t :: 0 <= t < |ops| ==> IsOp(ops[t])
    ensures |res| == |mem| == |ops|
    ensures fresh(heap) && heap.Valid() && Holds(Ledger(ops, res), heap.live) && heap.own.Keys == Memory(mem)
    ensures forall t: nat {:trigger Moment(ops, res, mem, t)} :: t <= |ops| ==> Moment(ops, res, mem, t)
  {
    heap := new Heap(start);
    var mine := map[];
    res, mem := [], [];
    for t := 0 to |ops|
      invariant fresh(heap) && heap.Valid() && Holds(mine, heap.live) && |res| == |mem| == t
      invariant mine == Ledger(ops[..t], res) && heap.own.Keys == Memory(mem)
      invariant forall k: nat {:trigger Moment(ops, res, mem, k)} :: k <= t ==> Moment(ops, res, mem, k)
    {
      var r;
      ghost var g;
      r, mine, g := Call(heap, ops[t], mine);
      LedgerGrows(ops, res, mem, r, g);
      NextMoment(ops, res, mem, r, g);
      res, mem := res + [r], mem + [g];
    }
    assert ops[..|ops|] == ops;
  }
}
