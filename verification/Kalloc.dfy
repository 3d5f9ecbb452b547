/** The physical page allocator of kernel/kalloc.c: a list threaded through the free pages. */
module Kalloc {
  import opened Counting
  import opened Riscv

  /** PGROUNDUP(a) as an address. */
  function FirstPage(a: nat): (r: nat)
    ensures r % PGSIZE == 0 && a <= r < a + PGSIZE
  {
    PagesOf(a) * PGSIZE
  }

  class Kmem {
    const end: nat              // first address after the kernel
    const top: nat              // PHYSTOP
    var freelist: nat           // 0 for a null pointer
    var next: map<nat, nat>     // r->next, kept in the free pages themselves
    ghost var stack: seq<nat>   // the list, first page first

    ghost predicate LinkOk(i: nat)
      reads this
    {
      i < |stack| && stack[i] in next && next[stack[i]] == if i + 1 < |stack| then stack[i + 1] else 0
    }

    predicate IsPage(pa: nat) {
      pa % PGSIZE == 0 && end <= pa < top
    }

    /** The pointers spell out the list; its pages are distinct and inside the managed range. */
    ghost predicate Valid()
      reads this
    {
      && end > 0 && NoDup(stack) && freelist == (if stack == [] then 0 else stack[0])
      && (forall i: nat {:trigger LinkOk(i)} :: i < |stack| ==> LinkOk(i))
      && forall i :: 0 <= i < |stack| ==> IsPage(stack[i])
    }

    /** kfree: a panic exactly when pa is not a page of the managed range.  A page that is on the list
        already is accepted too, and then the pointers no longer spell out a list. */
    method Kfree(pa: nat) returns (stuck: bool)
      requires Valid()
      modifies this`freelist, this`next, this`stack
      ensures stuck <==> !IsPage(pa)
      ensures if stuck then freelist == old(freelist) && next == old(next) && stack == old(stack)
              else freelist == pa && next == old(next)[pa := old(freelist)] && stack == [pa] + old(stack)
      ensures Valid() <==> stuck || pa !in old(stack)
    {
      if pa % PGSIZE != 0 || pa < end || pa >= top {
        return true;
      }
      next := next[pa := freelist];
      freelist := pa;
      stack := [pa] + stack;
      stuck := false;
      if pa !in old(stack) {
        forall i: nat | i < |stack| ensures LinkOk(i) {
          if i > 0 {
            assert old(LinkOk(i - 1));
          }
        }
      } else {
        ghost var j :| 0 <= j < |old(stack)| && old(stack)[j] == pa;
        assert stack[0] == stack[j + 1];
      }
    }

    /** kalloc: the page freed last, or 0 when there is none.  It follows the pointers it finds, also when they
        no longer spell out a list. */
    method Kalloc() returns (r: nat)
      requires freelist == 0 || freelist in next
      modifies this`freelist, this`stack
      ensures r == old(freelist) && freelist == (if r == 0 then 0 else next[r])
      ensures old(Valid()) ==>
                && Valid()
                && if old(stack) == [] then r == 0 && stack == []
                   else r == old(stack)[0] && IsPage(r) && stack == old(stack)[1..] && r !in stack
    {
      r := freelist;
      if r != 0 {
        freelist := next[r];
        if stack != [] {
          stack := stack[1..];
        }
        if old(Valid()) {
          assert old(LinkOk(0));
          forall i: nat | i < |stack| ensures LinkOk(i) {
            assert old(LinkOk(i + 1));
          }
        }
      }
    }

    /** freerange: every whole page of the range is put on the list, once. */
    method FreeRange(from: nat, limit: nat) returns (stuck: bool)
      requires Valid() && stack == [] && end <= from && limit <= top
      modifies this`freelist, this`next, this`stack
      ensures Valid() && !stuck
      ensures forall pa: nat {:trigger pa in stack} ::
                pa in stack <==> pa % PGSIZE == 0 && from <= pa && pa + PGSIZE <= limit
    {
      var p := FirstPage(from);
      assert forall pa: nat {:trigger pa in stack} :: pa % PGSIZE == 0 && from <= pa ==> p <= pa;
      while p + PGSIZE <= limit
        invariant Valid() && p % PGSIZE == 0 && from <= p && (stack == [] || p <= limit)
        invariant forall pa: nat {:trigger pa in stack} :: (pa in stack <==> pa % PGSIZE == 0 && from <= pa < p)
        decreases limit - p
      {
        ghost var was := stack;
        stuck := Kfree(p);
        if stuck {
          return;
        }
        forall pa: nat ensures pa in stack <==> pa % PGSIZE == 0 && from <= pa < p + PGSIZE {
          assert pa in stack <==> pa == p || pa in was;
        }
        p := p + PGSIZE;
      }
      stuck := false;
    }

    /** A page freed twice in a row is handed out twice. */
    method FreedTwice(pa: nat) returns (a: nat, b: nat)
      requires Valid() && IsPage(pa) && pa !in stack
      modifies this`freelist, this`next, this`stack
      ensures a == b == pa
    {
      var stuck := Kfree(pa);
      stuck := Kfree(pa);
      a := Kalloc();
      b := Kalloc();
    }

    /** kinit */
    constructor (end: nat, top: nat)
      requires 0 < end
      ensures this.end == end && this.top == top && Valid()
      ensures forall pa: nat {:trigger pa in stack} ::
                pa in stack <==> pa % PGSIZE == 0 && end <= pa && pa + PGSIZE <= top
    {
      this.end, this.top, freelist, next, stack := end, top, 0, map[], [];
      new;
      var stuck := FreeRange(end, top);
    }
  }
}
