/**
 The bit layout behind PageTable: how user_vm.c cuts a 64-bit entry into frame and
 flags, and a virtual address into four table indices.
 */
module PteBits {

  const ADDR_MASK: bv64 := 0x000F_FFFF_FFFF_F000

  function Pml4Index(a: bv64): bv64 { (a >> 39) & 0x1FF }
  function PdptIndex(a: bv64): bv64 { (a >> 30) & 0x1FF }
  function PdIndex(a: bv64): bv64 { (a >> 21) & 0x1FF }
  function PtIndex(a: bv64): bv64 { (a >> 12) & 0x1FF }

  /** The address fork computes from its four loop counters. */
  function Rebuild(i4: bv64, i3: bv64, i2: bv64, i1: bv64): bv64 {
    (i4 << 39) | (i3 << 30) | (i2 << 21) | (i1 << 12)
  }

  /** A page-aligned user address. */
  predicate UserPage(a: bv64) { a & 0xFFF == 0 && a >> 47 == 0 }

  /** The indices of a user page lead back to it. */
  lemma RebuildsAddress(a: bv64)
    requires UserPage(a)
    ensures Rebuild(Pml4Index(a), PdptIndex(a), PdIndex(a), PtIndex(a)) == a
    ensures Pml4Index(a) < 256
  {
  }

  /** Loop counters in range name a user page, and it has those indices. */
  lemma RecoversIndices(i4: bv64, i3: bv64, i2: bv64, i1: bv64)
    requires i4 < 256 && i3 < 512 && i2 < 512 && i1 < 512
    ensures var a := Rebuild(i4, i3, i2, i1);
            UserPage(a) && Pml4Index(a) == i4 && PdptIndex(a) == i3 && PdIndex(a) == i2 && PtIndex(a) == i1
  {
  }

  /** Two user pages with the same indices are the same page. */
  lemma IndicesAreAPath(a: bv64, b: bv64)
    requires UserPage(a) && UserPage(b)
    requires Pml4Index(a) == Pml4Index(b) && PdptIndex(a) == PdptIndex(b) && PdIndex(a) == PdIndex(b)
      && PtIndex(a) == PtIndex(b)
    ensures a == b
  {
    RebuildsAddress(a);
    RebuildsAddress(b);
  }

  /** An entry built from a frame address and flags gives both back. */
  lemma EntrySplits(phys: bv64, flags: bv64)
    requires phys & ADDR_MASK == phys && flags & ADDR_MASK == 0
    ensures var w := (phys & ADDR_MASK) | flags;
            w & ADDR_MASK == phys && w & !ADDR_MASK == flags
  {
  }
}
