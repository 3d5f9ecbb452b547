/** The page and page-table-entry macros of kernel/riscv.h: on 64-bit words as they are written, and as the
    arithmetic on addresses that the other modules do with them. */
module Riscv {
  const PGSIZE: nat := 4096

  /** PGSIZE as a word. */
  const PAGE: bv64 := 4096

  const PTE_V: bv64 := 1 << 0
  const PTE_R: bv64 := 1 << 1
  const PTE_W: bv64 := 1 << 2
  const PTE_X: bv64 := 1 << 3
  const PTE_U: bv64 := 1 << 4

  function PGROUNDUP(sz: bv64): bv64 {
    (sz + PAGE - 1) & !(PAGE - 1)
  }

  function PGROUNDDOWN(a: bv64): bv64 {
    a & !(PAGE - 1)
  }

  function PA2PTE(pa: bv64): bv64 {
    (pa >> 12) << 10
  }

  function PTE2PA(pte: bv64): bv64 {
    (pte >> 10) << 12
  }

  function PTE_FLAGS(pte: bv64): bv64 {
    pte & 0x3FF
  }

  function PX(level: nat, va: bv64): bv64
    requires level < 3
  {
    (if level == 0 then va >> 12 else if level == 1 then va >> 21 else va >> 30) & 0x1FF
  }

  /** An entry made of a page address and flags gives both back. */
  lemma PteRoundTrip(pa: bv64, flags: bv64)
    requires pa & (PAGE - 1) == 0 && pa < 0x100_0000_0000_0000 && flags < 0x400
    ensures PTE2PA(PA2PTE(pa) | flags) == pa && PTE_FLAGS(PA2PTE(pa) | flags) == flags
  {
  }

  /** An entry as mappages makes it. */
  function Entry(pa: bv64, perm: bv64): bv64 {
    PA2PTE(pa) | perm | PTE_V
  }

  /** Its address and flags are those it was made of. */
  lemma EntryParts(pa: bv64, perm: bv64)
    requires pa & (PAGE - 1) == 0 && pa < 0x100_0000_0000_0000 && perm < 0x400
    ensures PTE2PA(Entry(pa, perm)) == pa && PTE_FLAGS(Entry(pa, perm)) == perm | PTE_V
  {
    WithValid(PA2PTE(pa), perm);
    PteRoundTrip(pa, perm | PTE_V);
  }

  lemma WithValid(a: bv64, perm: bv64)
    requires perm < 0x400
    ensures perm | PTE_V < 0x400 && a | perm | PTE_V == a | (perm | PTE_V)
  {
  }

  /** The tests on PTE_V and PTE_U, and uvmclear's mask, are those on the flags alone. */
  lemma EntryFlags(pte: bv64)
    ensures pte & PTE_V != 0 <==> PTE_FLAGS(pte) & PTE_V != 0
    ensures pte & PTE_U != 0 <==> PTE_FLAGS(pte) & PTE_U != 0
    ensures PTE2PA(pte & !PTE_U) == PTE2PA(pte) && PTE_FLAGS(pte & !PTE_U) == PTE_FLAGS(pte) & !PTE_U
  {
  }

  /** Rounding up gives the first page boundary at or above sz, unless the sum wraps around. */
  lemma RoundUp(sz: bv64)
    requires sz <= 0xFFFF_FFFF_FFFF_F000
    ensures PGROUNDUP(sz) & (PAGE - 1) == 0 && sz <= PGROUNDUP(sz) && PGROUNDUP(sz) - sz < PAGE
  {
  }

  lemma RoundDown(a: bv64)
    ensures PGROUNDDOWN(a) & (PAGE - 1) == 0 && PGROUNDDOWN(a) <= a && a - PGROUNDDOWN(a) < PAGE
  {
  }

  /** The three indices and the offset in the page make up the address, as the digits do below. */
  lemma IndicesRebuild(va: bv64)
    requires va < 0x80_0000_0000
    ensures PX(0, va) < 512 && PX(1, va) < 512 && PX(2, va) < 512
    ensures (PX(2, va) << 30) | (PX(1, va) << 21) | (PX(0, va) << 12) | (va & (PAGE - 1)) == va
  {
  }

  /** PX as arithmetic: the shifts by 12, 21 and 30 bits and the 9-bit mask. */
  function Index(level: nat, va: nat): (e: nat)
    ensures e < 512
  {
    (if level == 0 then va / 0x1000 else if level == 1 then va / 0x20_0000 else va / 0x4000_0000) % 512
  }

  /** PGROUNDDOWN(a) and PGROUNDUP(a) as page numbers. */
  function PageOf(a: nat): nat {
    a / PGSIZE
  }

  function PagesOf(sz: nat): nat {
    (sz + PGSIZE - 1) / PGSIZE
  }

  lemma DigitsRebuild(va: nat)
    requires va < 0x80_0000_0000
    ensures Index(2, va) * 0x4000_0000 + Index(1, va) * 0x20_0000 + Index(0, va) * 0x1000 + va % PGSIZE == va
  {
    var v := PageOf(va);
    var q := v / 512;
    assert va / 0x20_0000 == q && va / 0x4000_0000 == q / 512;
  }
}
