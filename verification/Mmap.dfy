/** Virtual memory areas (kernel/memory/mmap.c) and the anonymous mmap of kernel/syscall/syscall.c. */
module Mmap {
  const PAGE := 4096
  const MMAP_BASE := 0x1000_0000
  const MMAP_TOP := 0x7F_C000_0000
  const VMA_MAX := 32
  const WORD := 0x1_0000_0000_0000_0000   // uint64_t arithmetic is modulo this

  datatype Vma = Vma(inUse: bool, start: nat, end: nat)

  /** Rounding up to a page. */
  function AlignUp(a: nat): nat { (a + PAGE - 1) / PAGE * PAGE }

  lemma AlignUpIs(a: nat)
    ensures AlignUp(a) % PAGE == 0 && a <= AlignUp(a) < a + PAGE
    ensures forall b: nat :: b % PAGE == 0 && a <= b ==> AlignUp(a) <= b
  {
    forall b: nat | b % PAGE == 0 && a <= b ensures AlignUp(a) <= b {
      assert b == b / PAGE * PAGE;
    }
  }

  predicate VmaOk(v: Vma) { v.start < v.end <= MMAP_TOP && v.start % PAGE == 0 && v.end % PAGE == 0 }

  /** The ranges share an address. */
  predicate Overlap(v: Vma, base: nat, len: nat) { v.inUse && base < v.end && v.start < base + len }

  /** The range is free and below the top of the region. */
  ghost predicate Fits(vmas: seq<Vma>, base: nat, len: nat) {
    base + len <= MMAP_TOP && forall i :: 0 <= i < |vmas| ==> !Overlap(vmas[i], base, len)
  }

  /** Pairwise disjoint areas, all well formed. */
  ghost predicate TableOk(vmas: seq<Vma>) {
    && |vmas| == VMA_MAX && (forall i :: 0 <= i < |vmas| && vmas[i].inUse ==> VmaOk(vmas[i]))
    && forall i, j :: 0 <= i < j < |vmas| && vmas[i].inUse && vmas[j].inUse ==> Apart(vmas[i], vmas[j])
  }

  predicate Apart(u: Vma, v: Vma) { u.end <= v.start || v.end <= u.start }

  /** Where the search starts. */
  function Start(hint: nat, mmapNext: nat): nat {
    AlignUp(if hint != 0 && hint >= MMAP_BASE && hint < MMAP_TOP then hint else mmapNext)
  }

  /** The first page from the hint on, or from where the last area ended if the hint is not in the region. */
  lemma StartIs(hint: nat, mmapNext: nat)
    ensures var from := if 0x1000_0000 <= hint < 0x7F_C000_0000 then hint else mmapNext;
            Start(hint, mmapNext) % 4096 == 0 && from <= Start(hint, mmapNext) < from + 4096
  {
    AlignUpIs(hint);
    AlignUpIs(mmapNext);
  }

  /** uint64_t addition. */
  function Add64(a: nat, b: nat): nat { (a + b) % WORD }

  /** A free range that starts at an area's first free address or later skips the whole area. */
  lemma Skips(v: Vma, base: nat, len: nat, a: nat)
    requires Overlap(v, base, len) && base <= a < v.end
    ensures Overlap(v, a, len)
  {
  }

  /** No range from `start` on is free. */
  ghost predicate NoneFits(vmas: seq<Vma>, start: nat, len: nat) { forall a: nat :: start <= a ==> !Fits(vmas, a, len) }

  /** The least address from `start` on where the range is free, or 0 if there is none. */
  ghost predicate Found(vmas: seq<Vma>, start: nat, len: nat, base: nat) {
    && (base != 0 ==> start <= base && base % PAGE == 0 && Fits(vmas, base, len) && NoneBefore(vmas, start, len, base))
    && (base == 0 ==> NoneFits(vmas, start, len))
  }

  ghost predicate NoneBefore(vmas: seq<Vma>, start: nat, len: nat, end: nat) {
    forall a: nat :: start <= a < end ==> !Fits(vmas, a, len)
  }

  /**
   * vma_find_free_range. The result is the least free address from the start on, and 0 if
   * there is none, exactly if the first sum of start and length does not wrap 64 bits.
   * A sum that wraps, or no length at all, never fails.
   */
  method FindFreeRange(vmas: seq<Vma>, mmapNext: nat, hint: nat, len: nat) returns (base: nat)
    requires TableOk(vmas) && 0 < mmapNext <= MMAP_TOP && len < WORD
    ensures Found(vmas, Start(hint, mmapNext), len, base) <==> Start(hint, mmapNext) + len < WORD
    ensures 0 < Start(hint, mmapNext) <= MMAP_TOP && base % PAGE == 0 && base <= MMAP_TOP
      && (base != 0 ==> Start(hint, mmapNext) <= base)
    ensures len == 0 || Start(hint, mmapNext) + len >= WORD ==> base != 0
  {
    hide TableOk;
    base := if hint != 0 && hint >= MMAP_BASE && hint < MMAP_TOP then hint else mmapNext;
    AlignUpIs(base);
    assert MMAP_TOP % PAGE == 0;
    base := (base + PAGE - 1) / PAGE * PAGE;
    ghost var start := base;
    assert start == Start(hint, mmapNext) && 0 < start <= MMAP_TOP;
    while true
      invariant 0 < start <= base <= MMAP_TOP && base % PAGE == 0
        && (start < base && start + len < WORD ==> len <= MMAP_TOP)
      invariant start + len < WORD ==> NoneBefore(vmas, start, len, base)
      decreases MMAP_TOP - base
    {
      if Add64(base, len) > MMAP_TOP {
        return 0;
      }
      var i := FirstOverlap(vmas, base, len);
      if i == VMA_MAX {
        return;
      }
      VmaAt(vmas, i);
      if start + len < WORD {
        AreaSkipped(vmas, i, start, base, len);
      }
      base := vmas[i].end;
    }
  }

  /** No free range starts between `base` and the end of an area that meets it there. */
  lemma AreaSkipped(vmas: seq<Vma>, i: nat, start: nat, base: nat, len: nat)
    requires i < |vmas| && NoneBefore(vmas, start, len, base) && start <= base <= MMAP_TOP && base + len < WORD
      && Meets(vmas[i], base, len)
    ensures NoneBefore(vmas, start, len, vmas[i].end)
  {
    forall a: nat | start <= a < vmas[i].end ensures !Fits(vmas, a, len) {
      if base <= a {
        Skips(vmas[i], base, len, a);
      }
    }
  }

  lemma VmaAt(vmas: seq<Vma>, i: nat)
    requires TableOk(vmas) && i < |vmas| && vmas[i].inUse
    ensures VmaOk(vmas[i])
  {
  }

  /** The inner loop: the first area that overlaps, by the test the code makes. */
  method FirstOverlap(vmas: seq<Vma>, base: nat, len: nat) returns (i: nat)
    requires TableOk(vmas)
    ensures i <= VMA_MAX == |vmas| && forall j :: 0 <= j < i ==> !Meets(vmas[j], base, len)
    ensures i < VMA_MAX ==> Meets(vmas[i], base, len)
  {
    i := 0;
    while i < VMA_MAX
      invariant i <= VMA_MAX && forall j :: 0 <= j < i ==> !Meets(vmas[j], base, len)
    {
      if Meets(vmas[i], base, len) {
        return;
      }
      i := i + 1;
    }
  }

  /** The overlap test, with a sum that may wrap. */
  predicate Meets(v: Vma, base: nat, len: nat) { v.inUse && base < v.end && Add64(base, len) > v.start }

  /** A length whose sum wraps slips through the test for the top of the region. */
  lemma WrapSlipsThrough()
    ensures var len := WORD - MMAP_BASE;
            len % PAGE == 0 && Add64(MMAP_BASE, len) <= MMAP_TOP < MMAP_BASE + len
            && forall v: Vma :: !Meets(v, MMAP_BASE, len)
  {
  }

  /** Neither rounding the length up nor adding it to the start of the search wraps. */
  predicate NoWrap(hint: nat, mmapNext: nat, length: nat) {
    length <= WORD - PAGE && Start(hint, mmapNext) + AlignUp(length) < WORD
  }

  /** The length of an area, as computed from the length asked for. */
  function Rounded(length: nat): nat { Add64(length, PAGE - 1) / PAGE * PAGE }

  /** Rounding up with a wrapping sum: right up to the last page, and 0 beyond. */
  lemma RoundedUp(length: nat)
    requires length < WORD
    ensures Rounded(length) == if length <= WORD - PAGE then AlignUp(length) else 0
    ensures AlignUp(length) % PAGE == 0 && length <= AlignUp(length)
  {
    AlignUpIs(length);
    assert WORD % PAGE == 0;
  }

  /** An area whose end was computed with a wrapping sum, or with no length, is not well formed. */
  lemma Malformed(vmas: seq<Vma>, i: nat, base: nat, len: nat, start: nat)
    requires i < |vmas| && len < WORD && base <= MMAP_TOP && (len == 0 || start + len >= WORD)
      && (len != 0 ==> start <= base)
    ensures !TableOk(vmas[i := Vma(true, base, Add64(base, len))])
  {
    var t := vmas[i := Vma(true, base, Add64(base, len))];
    assert !VmaOk(t[i]);
  }

  /** One more area, in a slot that was free. */
  ghost predicate NewArea(vmas: seq<Vma>, vmas': seq<Vma>, base: nat, end: nat) {
    exists i: nat :: i < |vmas| && !vmas[i].inUse && vmas' == vmas[i := Vma(true, base, end)]
  }

  function Max(a: nat, b: nat): nat { if a < b then b else a }

  /** Every area ends where the search of the next one starts, or before. */
  ghost predicate Under(vmas: seq<Vma>, mmapNext: nat) {
    forall i :: 0 <= i < |vmas| && vmas[i].inUse ==> vmas[i].end <= mmapNext
  }

  /** Every mmap keeps it so, with a hint or without. */
  lemma StaysUnder(vmas: seq<Vma>, vmas': seq<Vma>, mmapNext: nat, base: nat, end: nat)
    requires Under(vmas, mmapNext) && NewArea(vmas, vmas', base, end)
    ensures Under(vmas', Max(mmapNext, end))
  {
  }

  /**
   * So an mmap without a hint never gives out an address a second time, though its area may
   * have gone since: it takes the first page from there on, or fails at the top of the region.
   */
  lemma NoReuse(vmas: seq<Vma>, mmapNext: nat, len: nat, base: nat)
    requires Under(vmas, mmapNext) && 0 < len
    ensures Found(vmas, Start(0, mmapNext), len, base) && base != 0 ==> base == Start(0, mmapNext) >= mmapNext
    ensures NoneFits(vmas, Start(0, mmapNext), len) <==> Start(0, mmapNext) + len > MMAP_TOP
  {
    AlignUpIs(mmapNext);
    var start := Start(0, mmapNext);
    if start + len <= MMAP_TOP {
      assert Fits(vmas, start, len);
    }
  }

  predicate AllUsed(vmas: seq<Vma>) { forall i :: 0 <= i < |vmas| ==> vmas[i].inUse }

  class AddressSpace {
    var vmas: seq<Vma>
    var mmapNext: nat

    ghost predicate Valid()
      reads this
    {
      TableOk(vmas) && 0 < mmapNext <= MMAP_TOP
    }

    constructor ()
      ensures Valid() && mmapNext == MMAP_BASE && Under(vmas, mmapNext)
      ensures forall i :: 0 <= i < |vmas| ==> !vmas[i].inUse
    {
      vmas := seq(VMA_MAX, _ => Vma(false, 0, 0));
      mmapNext := MMAP_BASE;
    }

    /** vma_find: the area an address lies in; disjoint areas make it the only one. */
    method Find(a: nat) returns (i: int)
      requires Valid()
      ensures -1 <= i < VMA_MAX == |vmas|
      ensures i >= 0 ==> vmas[i].inUse && vmas[i].start <= a < vmas[i].end
      ensures forall j :: 0 <= j < |vmas| && vmas[j].inUse && vmas[j].start <= a < vmas[j].end ==> j == i
    {
      for k := 0 to VMA_MAX
        invariant forall j :: 0 <= j < k ==> !(vmas[j].inUse && vmas[j].start <= a < vmas[j].end)
      {
        if vmas[k].inUse && a >= vmas[k].start && a < vmas[k].end {
          forall j | k < j < |vmas| ensures !(vmas[j].inUse && vmas[j].start <= a < vmas[j].end) {
            if vmas[j].inUse {
              assert Apart(vmas[k], vmas[j]);
            }
          }
          return k;
        }
      }
      return -1;
    }

    /**
     * mmap without MAP_FIXED, for any 64-bit length: -1 on failure, else the address. The
     * areas stay well formed and apart exactly if no length was asked, no sum wraps or no
     * slot is left; and it fails exactly if no length was asked, no slot is left or, no sum
     * wrapping, no free range is. Else the new area is free, page aligned and as long as
     * asked, and the next search starts behind it.
     */
    method Map(hint: nat, length: nat) returns (addr: int)
      requires Valid() && length < WORD
      modifies this
      ensures Valid() <==> length == 0 || NoWrap(hint, old(mmapNext), length) || AllUsed(old(vmas))
      ensures addr < 0 <==>
        length == 0 || AllUsed(old(vmas))
        || (NoWrap(hint, old(mmapNext), length) && NoneFits(old(vmas), Start(hint, old(mmapNext)), AlignUp(length)))
      ensures addr < 0 ==> vmas == old(vmas) && mmapNext == old(mmapNext)
      ensures addr >= 0 ==>
        && NewArea(old(vmas), vmas, addr, Add64(addr, Rounded(length)))
        && mmapNext == Max(old(mmapNext), Add64(addr, Rounded(length)))
      ensures addr >= 0 && NoWrap(hint, old(mmapNext), length) ==>
        Add64(addr, Rounded(length)) == addr + AlignUp(length)
      ensures addr >= 0 && NoWrap(hint, old(mmapNext), length) ==>
        Start(hint, old(mmapNext)) <= addr && addr % PAGE == 0 && Fits(old(vmas), addr, AlignUp(length))
        && NoneBefore(old(vmas), Start(hint, old(mmapNext)), AlignUp(length), addr)
    {
      hide TableOk, Fits;
      if length == 0 {
        return -1;
      }
      var len := Rounded(length);
      RoundedUp(length);
      var base := FindFreeRange(vmas, mmapNext, hint, len);
      if base == 0 {
        return -1;
      }
      var i := FreeSlot();
      if i < 0 {
        return -1;
      }
      if NoWrap(hint, mmapNext, length) {
        Inserted(vmas, i, base, len);
      } else {
        Malformed(vmas, i, base, len, Start(hint, mmapNext));
      }
      assert NewArea(vmas, vmas[i := Vma(true, base, Add64(base, len))], base, Add64(base, len));
      vmas := vmas[i := Vma(true, base, Add64(base, len))];
      if Add64(base, len) > mmapNext {
        mmapNext := Add64(base, len);
      }
      addr := base;
    }

    /** vma_alloc. */
    method FreeSlot() returns (i: int)
      requires Valid()
      ensures -1 <= i < VMA_MAX == |vmas| && (i >= 0 ==> !vmas[i].inUse)
      ensures i < 0 <==> AllUsed(vmas)
    {
      for k := 0 to VMA_MAX
        invariant forall j :: 0 <= j < k ==> vmas[j].inUse
      {
        if !vmas[k].inUse {
          return k;
        }
      }
      return -1;
    }
  }

  /** A free range becomes an area; all areas stay apart. */
  lemma Inserted(vmas: seq<Vma>, i: nat, base: nat, len: nat)
    requires TableOk(vmas) && i < |vmas| && !vmas[i].inUse && Fits(vmas, base, len) && 0 < len && base % PAGE == 0
      && len % PAGE == 0
    ensures TableOk(vmas[i := Vma(true, base, base + len)]) && Add64(base, len) == base + len <= MMAP_TOP
  {
    var v := Vma(true, base, base + len);
    var t := vmas[i := v];
    forall j | 0 <= j < |t| && t[j].inUse && j != i ensures Apart(t[j], v) && VmaOk(t[j]) {
      assert !Overlap(vmas[j], base, len);
    }
    assert VmaOk(v);
  }

  /** A fresh process asks for a length that wraps: it is given an area that ends before it starts. */
  method WrapBreaks() returns (m: AddressSpace, addr: int)
    ensures addr >= 0 && !m.Valid()
  {
    m := new AddressSpace();
    AlignUpIs(MMAP_BASE);
    AlignUpIs(WORD - MMAP_BASE);
    assert !m.vmas[0].inUse;
    addr := m.Map(0, WORD - MMAP_BASE);
  }
}
