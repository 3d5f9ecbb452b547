/** kernel/bio.c: a fixed pool of buffers on a circular doubly linked list, most recently used first.
    Buffers are 0..nbuf-1 and index nbuf stands for bcache.head. */
module BufferCache {

  type Block = seq<int>

  datatype Buf = Buf(dev: nat, blockno: nat, valid: bool, refcnt: nat, data: Block)

  /** `lru` lists every buffer once. */
  ghost predicate Permutation(lru: seq<nat>, n: nat) {
    && |lru| == n
    && (forall i :: 0 <= i < n ==> lru[i] < n)
    && (forall i, j :: 0 <= i < j < n ==> lru[i] != lru[j])
    && (forall b: nat :: b < n ==> b in lru)
  }

  function Pos(lru: seq<nat>, b: nat): (k: nat)
    requires b in lru
    ensures k < |lru| && lru[k] == b
  {
    if lru[0] == b then 0 else 1 + Pos(lru[1..], b)
  }

  /** next and prev link the circle c, which starts and ends at the head. */
  ghost predicate Circle(next: seq<nat>, prev: seq<nat>, c: seq<nat>) {
    && |next| == |prev| && |c| >= 2 && c[0] == c[|c| - 1]
    && (forall i :: 0 <= i < |c| ==> c[i] < |next|)
    && (forall i, j :: 0 <= i < j < |c| - 1 ==> c[i] != c[j])
    && (forall i: nat {:trigger Linked(next, prev, c, i)} :: i + 1 < |c| ==> Linked(next, prev, c, i))
  }

  ghost predicate Linked(next: seq<nat>, prev: seq<nat>, c: seq<nat>, i: nat)
    requires i + 1 < |c| && |next| == |prev| && c[i] < |next| && c[i + 1] < |next|
  {
    next[c[i]] == c[i + 1] && prev[c[i + 1]] == c[i]
  }

  /** The first buffer in list order that holds block (dev, blockno), or |lru|. */
  function Hit(bufs: seq<Buf>, lru: seq<nat>, dev: nat, blockno: nat): (r: nat)
    requires forall i :: 0 <= i < |lru| ==> lru[i] < |bufs|
    ensures r <= |lru|
    ensures r < |lru| ==> bufs[lru[r]].dev == dev && bufs[lru[r]].blockno == blockno
    ensures forall i :: 0 <= i < r ==> !(bufs[lru[i]].dev == dev && bufs[lru[i]].blockno == blockno)
  {
    if lru == [] then 0
    else if bufs[lru[0]].dev == dev && bufs[lru[0]].blockno == blockno then 0
    else 1 + Hit(bufs, lru[1..], dev, blockno)
  }

  /** The last buffer in list order that nobody uses, or -1. */
  function Victim(bufs: seq<Buf>, lru: seq<nat>): (r: int)
    requires forall i :: 0 <= i < |lru| ==> lru[i] < |bufs|
    ensures -1 <= r < |lru|
    ensures r >= 0 ==> bufs[lru[r]].refcnt == 0
    ensures forall i :: r < i < |lru| ==> bufs[lru[i]].refcnt > 0
  {
    if lru == [] then -1
    else if bufs[lru[|lru| - 1]].refcnt == 0 then |lru| - 1
    else Victim(bufs, lru[..|lru| - 1])
  }

  function ToFront(lru: seq<nat>, k: nat): (r: seq<nat>)
    requires k < |lru|
  {
    [lru[k]] + lru[..k] + lru[k + 1..]
  }

  lemma ToFrontPermutes(lru: seq<nat>, n: nat, k: nat)
    requires Permutation(lru, n) && k < n
    ensures Permutation(ToFront(lru, k), n)
  {
    var r := ToFront(lru, k);
    forall b: nat | b < n ensures b in r {
      var i := Pos(lru, b);
      assert r[if i < k then i + 1 else if i == k then 0 else i] == b;
    }
  }

  lemma CircleUnlink(next: seq<nat>, prev: seq<nat>, c: seq<nat>, k: nat)
    requires Circle(next, prev, c) && 0 < k < |c| - 1
    ensures Circle(next[c[k - 1] := c[k + 1]], prev[c[k + 1] := c[k - 1]], c[..k] + c[k + 1..])
  {
    var c' := c[..k] + c[k + 1..];
    var next', prev' := next[c[k - 1] := c[k + 1]], prev[c[k + 1] := c[k - 1]];
    assert forall i :: 0 <= i < |c'| ==> c'[i] == c[if i < k then i else i + 1];
    forall i: nat | i + 1 < |c'| ensures Linked(next', prev', c', i) {
      assert Linked(next, prev, c, if i < k then i else i + 1);
    }
  }

  lemma CirclePush(next: seq<nat>, prev: seq<nat>, c: seq<nat>, b: nat)
    requires Circle(next, prev, c) && b < |next| && b !in c
    ensures Circle(next[b := c[1]][c[0] := b], prev[b := c[0]][c[1] := b], [c[0], b] + c[1..])
  {
    var c' := [c[0], b] + c[1..];
    var next', prev' := next[b := c[1]][c[0] := b], prev[b := c[0]][c[1] := b];
    assert forall i :: 2 <= i < |c'| ==> c'[i] == c[i - 1];
    forall i: nat | i + 1 < |c'| ensures Linked(next', prev', c', i) {
      if i > 0 {
        assert Linked(next, prev, c, i - 1);
      }
    }
  }

  lemma WithoutBuffer(n: nat, lru: seq<nat>, k: nat)
    requires Permutation(lru, n) && k < n
    ensures var c := [n] + lru + [n];
            var c1 := c[..k + 1] + c[k + 2..];
            lru[k] !in c1 && [n, lru[k]] + c1[1..] == [n] + ToFront(lru, k) + [n]
  {
    var c := [n] + lru + [n];
    assert c[..k + 1] == [n] + lru[..k];
    assert c[k + 2..] == lru[k + 1..] + [n];
  }

  /** The six pointer assignments of brelse move the k-th buffer to the front. */
  lemma Relinked(next: seq<nat>, prev: seq<nat>, n: nat, lru: seq<nat>, k: nat)
    requires Permutation(lru, n) && k < n && |next| == n + 1 && Circle(next, prev, [n] + lru + [n])
    ensures var b := lru[k];
            && next[b] < |prev| && prev[b] < |next| && next[b] != b
            && var next1 := next[prev[b] := next[b]];
               var prev1 := prev[next[b] := prev[b]];
               && next1[n] < |prev|
               && Circle(next1[b := next1[n]][n := b], prev1[b := n][next1[n] := b], [n] + ToFront(lru, k) + [n])
  {
    var c := [n] + lru + [n];
    var b := lru[k];
    assert c[k + 1] == b && Linked(next, prev, c, k) && Linked(next, prev, c, k + 1);
    CircleUnlink(next, prev, c, k + 1);
    var c1 := c[..k + 1] + c[k + 2..];
    var next1, prev1 := next[c[k] := c[k + 2]], prev[c[k + 2] := c[k]];
    assert c1[0] == n && Linked(next1, prev1, c1, 0);
    WithoutBuffer(n, lru, k);
    CirclePush(next1, prev1, c1, b);
  }

  class Cache {
    const nbuf: nat
    var bufs: seq<Buf>
    var next: seq<nat>
    var prev: seq<nat>
    ghost var lru: seq<nat>

    ghost predicate Valid()
      reads this
    {
      && |bufs| == nbuf && |next| == nbuf + 1
      && Permutation(lru, nbuf)
      && Circle(next, prev, [nbuf] + lru + [nbuf])
    }

    /** binit. */
    constructor (nbuf: nat)
      ensures Valid() && this.nbuf == nbuf
      ensures lru == seq(nbuf, i requires 0 <= i < nbuf => nbuf - 1 - i)
      ensures forall i :: 0 <= i < nbuf ==> bufs[i] == Buf(0, 0, false, 0, [])
    {
      this.nbuf := nbuf;
      bufs := seq(nbuf, _ => Buf(0, 0, false, 0, []));
      var nx: seq<nat> := seq(nbuf + 1, _ => nbuf);
      var pv: seq<nat> := seq(nbuf + 1, _ => nbuf);
      ghost var c: seq<nat> := [nbuf, nbuf];
      assert Linked(nx, pv, c, 0);
      var b := 0;
      while b < nbuf
        invariant 0 <= b <= nbuf && |nx| == nbuf + 1
        invariant Circle(nx, pv, c)
        invariant c == [nbuf] + seq(b, i requires 0 <= i < b => b - 1 - i) + [nbuf]
      {
        CirclePush(nx, pv, c, b);
        assert Linked(nx, pv, c, 0);
        nx := nx[b := nx[nbuf]];
        pv := pv[b := nbuf];
        pv := pv[nx[nbuf] := b];
        nx := nx[nbuf := b];
        c := [nbuf, b] + c[1..];
        b := b + 1;
      }
      next, prev := nx, pv;
      ghost var order := c[1..|c| - 1];
      forall b: nat | b < nbuf ensures b in order {
        assert order[nbuf - 1 - b] == b;
      }
      lru := order;
    }

    /** The part of bget under bcache.lock: an index and a counted reference, or a panic. */
    method Bget(dev: nat, blockno: nat) returns (panic: bool, b: nat)
      requires Valid()
      modifies this`bufs
      ensures Valid()
      ensures var h := Hit(old(bufs), lru, dev, blockno);
              var v := Victim(old(bufs), lru);
              if h < nbuf then
                !panic && b == lru[h] && bufs == old(bufs)[b := old(bufs)[b].(refcnt := old(bufs)[b].refcnt + 1)]
              else if v >= 0 then
                && !panic && b == lru[v]
                && bufs == old(bufs)[b := old(bufs)[b].(dev := dev, blockno := blockno, valid := false, refcnt := 1)]
              else
                panic && bufs == old(bufs)
    {
      ghost var c := [nbuf] + lru + [nbuf];
      ghost var i := 0;
      b := next[nbuf];
      assert Linked(next, prev, c, 0);
      while b != nbuf
        invariant 0 <= i <= nbuf && b == c[i + 1]
        invariant forall j :: 0 <= j < i ==> !(bufs[lru[j]].dev == dev && bufs[lru[j]].blockno == blockno)
        decreases nbuf - i
      {
        assert b == lru[i];
        if bufs[b].dev == dev && bufs[b].blockno == blockno {
          HitIs(bufs, lru, dev, blockno, i);
          bufs := bufs[b := bufs[b].(refcnt := bufs[b].refcnt + 1)];
          return false, b;
        }
        assert Linked(next, prev, c, i + 1);
        b := next[b];
        i := i + 1;
      }
      HitIs(bufs, lru, dev, blockno, nbuf);
      panic, b := Recycle(dev, blockno);
    }

    /** bget's second loop: take over the least recently used free buffer. */
    method Recycle(dev: nat, blockno: nat) returns (panic: bool, b: nat)
      requires Valid()
      modifies this`bufs
      ensures Valid()
      ensures var v := Victim(old(bufs), lru);
              if v >= 0 then
                && !panic && b == lru[v]
                && bufs == old(bufs)[b := old(bufs)[b].(dev := dev, blockno := blockno, valid := false, refcnt := 1)]
              else
                panic && bufs == old(bufs)
    {
      ghost var c := [nbuf] + lru + [nbuf];
      ghost var i := nbuf;
      b := prev[nbuf];
      assert Linked(next, prev, c, nbuf);
      while b != nbuf
        invariant 0 <= i <= nbuf && b == c[i]
        invariant forall j :: i <= j < nbuf ==> bufs[lru[j]].refcnt > 0
        decreases i
      {
        assert b == lru[i - 1];
        if bufs[b].refcnt == 0 {
          VictimIs(bufs, lru, i - 1);
          bufs := bufs[b := bufs[b].(dev := dev, blockno := blockno, valid := false, refcnt := 1)];
          return false, b;
        }
        assert Linked(next, prev, c, i - 1);
        b := prev[b];
        i := i - 1;
      }
      VictimIs(bufs, lru, -1);
      panic := true;
    }

    /** brelse by a caller that holds the buffer's sleep lock, or does not; an unused buffer becomes the
        most recent one. */
    method Brelse(b: nat, holding: bool) returns (panic: bool)
      requires Valid() && b < nbuf && bufs[b].refcnt > 0
      modifies this
      ensures Valid() && (panic <==> !holding)
      ensures panic ==> bufs == old(bufs) && lru == old(lru)
      ensures !panic ==>
                && bufs == old(bufs)[b := old(bufs)[b].(refcnt := old(bufs)[b].refcnt - 1)]
                && lru == if bufs[b].refcnt == 0 then ToFront(old(lru), Pos(old(lru), b)) else old(lru)
    {
      panic := !holding;
      if panic {
        return;
      }
      ghost var k := Pos(lru, b);
      bufs := bufs[b := bufs[b].(refcnt := bufs[b].refcnt - 1)];
      if bufs[b].refcnt == 0 {
        Relinked(next, prev, nbuf, lru, k);
        ToFrontPermutes(lru, nbuf, k);
        prev := prev[next[b] := prev[b]];
        next := next[prev[b] := next[b]];
        next := next[b := next[nbuf]];
        prev := prev[b := nbuf];
        prev := prev[next[nbuf] := b];
        next := next[nbuf := b];
        lru := ToFront(lru, k);
      }
    }

    method Bpin(b: nat)
      requires Valid() && b < nbuf
      modifies this`bufs
      ensures Valid() && bufs == old(bufs)[b := old(bufs)[b].(refcnt := old(bufs)[b].refcnt + 1)]
    {
      bufs := bufs[b := bufs[b].(refcnt := bufs[b].refcnt + 1)];
    }

    method Bunpin(b: nat)
      requires Valid() && b < nbuf && bufs[b].refcnt > 0
      modifies this`bufs
      ensures Valid() && bufs == old(bufs)[b := old(bufs)[b].(refcnt := old(bufs)[b].refcnt - 1)]
    {
      bufs := bufs[b := bufs[b].(refcnt := bufs[b].refcnt - 1)];
    }
  }

  lemma {:induction false} HitIs(bufs: seq<Buf>, lru: seq<nat>, dev: nat, blockno: nat, i: nat)
    requires forall j :: 0 <= j < |lru| ==> lru[j] < |bufs|
    requires i <= |lru| && (i < |lru| ==> bufs[lru[i]].dev == dev && bufs[lru[i]].blockno == blockno)
    requires forall j :: 0 <= j < i ==> !(bufs[lru[j]].dev == dev && bufs[lru[j]].blockno == blockno)
    ensures Hit(bufs, lru, dev, blockno) == i
  {
    assert Hit(bufs, lru, dev, blockno) >= i;
  }

  lemma VictimIs(bufs: seq<Buf>, lru: seq<nat>, i: int)
    requires forall j :: 0 <= j < |lru| ==> lru[j] < |bufs|
    requires -1 <= i < |lru| && (i >= 0 ==> bufs[lru[i]].refcnt == 0)
    requires forall j :: i < j < |lru| ==> bufs[lru[j]].refcnt > 0
    ensures Victim(bufs, lru) == i
  {
    assert Victim(bufs, lru) <= i;
  }
}
