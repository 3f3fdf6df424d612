/** The physical frame allocator (kernel/memory/pmm.c): a bitmap, a reference count per frame, next-fit. */
module Pmm {
  import opened Bytes

  /** The memory map lists the frame as available and it lies above what the kernel keeps. */
  predicate GivenBack(available: seq<bool>, reserveEnd: nat, p: nat) {
    p < |available| && available[p] && reserveEnd <= p
  }

  /** The frame looked at in step `k` of a scan that starts at `hint` and wraps. */
  function Slot(hint: nat, k: nat, total: nat): nat
    requires 0 < total
  {
    (hint + k) % total
  }

  /** The frames from `h` up to `page`, around the end if need be, are in use. */
  ghost predicate Passed(used: set<nat>, h: nat, page: nat, total: nat) {
    forall p: nat :: p < total && (if h <= page then h <= p < page else h <= p || p < page) ==> p in used
  }

  class Allocator {
    const total: nat
    const bitmap: array<byte>
    const refcount: array<byte>
    var freePages: nat
    var allocHint: nat
    var kernelLimit: nat

    // the abstract state: frames in use, and their reference counts
    ghost var used: set<nat>
    ghost var refs: seq<nat>

    ghost predicate Valid()
      reads this, bitmap, refcount
    {
      && bitmap as object != refcount
      && 0 < total && bitmap.Length == (total + 7) / 8 && refcount.Length == total == |refs|
      && (forall p: nat :: p in used ==> p < total)
      && (forall p: nat :: p < total ==> (p in used <==> BitAt(bitmap[..], p)))
      && (forall p: nat :: p < total ==> refs[p] == refcount[p])
      && freePages + |used| == total
      && (forall p: nat :: p < total && refs[p] > 0 ==> p in used)
      && 0 in used
      && kernelLimit <= total
      && forall p: nat :: p < kernelLimit ==> p in used
    }

    /** The first half of pmm_init: every frame starts out in use, with no references. */
    constructor (total: nat)
      requires 0 < total
      ensures Valid() && this.total == total && kernelLimit == 0 && used == Below(total)
        && (forall p: nat :: p < total ==> refs[p] == 0)
      ensures fresh(bitmap) && fresh(refcount)
    {
      this.total := total;
      bitmap := new byte[(total + 7) / 8](_ => 0xFF);
      refcount := new byte[total](_ => 0);
      freePages, allocHint, kernelLimit := 0, 0, 0;
      used := Below(total);
      refs := seq(total, _ => 0);
      new;
      AllOnes(bitmap[..], total);
    }

    /**
     The second half of pmm_init: the frames of the memory map are given back, except
     those below `reserveEnd` (legacy area, kernel, bitmap and counts).
     */
    method Init(available: seq<bool>, reserveEnd: nat)
      requires Valid() && (forall p: nat :: p < total ==> p in used) && (forall p: nat :: p < total ==> refs[p] == 0)
        && kernelLimit == 0
      requires 0 < reserveEnd && total == |available|
      modifies this`used, this`freePages, bitmap
      ensures Valid()
      ensures forall p: nat :: p < total ==> (p in used <==> !GivenBack(available, reserveEnd, p))
    {
      hide Valid;
      for page := 0 to total
        invariant Valid()
        invariant forall p: nat :: p < total ==> (p in used <==> !(p < page && GivenBack(available, reserveEnd, p)))
      {
        if GivenBack(available, reserveEnd, page) {
          Release(page);
        }
      }
    }

    /** The last reference to a frame is gone: it can be handed out again. */
    method Release(page: nat)
      requires Valid() && page in used && page != 0 && kernelLimit <= page && refs[page] == 0
      modifies this`used, this`freePages, bitmap
      ensures Valid() && used == old(used) - {page}
    {
      BitmapClear(page);
      used := used - {page};
      freePages := freePages + 1;
    }

    method BitmapTest(page: nat) returns (b: bool)
      requires Valid() && page < total
      ensures b == (page in used)
    {
      b := TestBit(bitmap[page / 8], page % 8);
    }

    method BitmapSet(page: nat)
      requires page < total && bitmap.Length == (total + 7) / 8
      modifies bitmap
      ensures forall q: nat :: q < total ==> BitAt(bitmap[..], q) == (q == page || BitAt(old(bitmap[..]), q))
    {
      ghost var was := bitmap[..];
      BitFits(bitmap[page / 8], page % 8, 8);
      bitmap[page / 8] := SetBit(bitmap[page / 8], page % 8);
      assert bitmap[..] == WithBit(was, page);
      forall q: nat | q < total ensures BitAt(bitmap[..], q) == (q == page || BitAt(was, q)) {
        BitUpdates(was, page, q);
      }
    }

    method BitmapClear(page: nat)
      requires page < total && bitmap.Length == (total + 7) / 8
      modifies bitmap
      ensures forall q: nat :: q < total ==> BitAt(bitmap[..], q) == (q != page && BitAt(old(bitmap[..]), q))
    {
      ghost var was := bitmap[..];
      BitFits(bitmap[page / 8], page % 8, 8);
      bitmap[page / 8] := ClearBit(bitmap[page / 8], page % 8);
      assert bitmap[..] == WithoutBit(was, page);
      forall q: nat | q < total ensures BitAt(bitmap[..], q) == (q != page && BitAt(was, q)) {
        BitUpdates(was, page, q);
      }
    }

    method Take(i: nat)
      requires Valid() && i < total && i !in used
      modifies this, bitmap, refcount
      ensures Valid() && kernelLimit == old(kernelLimit) && allocHint == old(allocHint)
      ensures used == old(used) + {i} && refs == old(refs)[i := 1] && |old(used)| < total
    {
      FreeRoom(total, used, i);
      BitmapSet(i);
      used := used + {i};
      freePages := freePages - 1;
      refcount[i] := 1;
      refs := refs[i := 1];
    }

    /** pmm_alloc_page: frame 0 stands for "out of memory", which happens only when every frame is in use. */
    method Alloc() returns (page: nat)
      requires Valid()
      modifies this, bitmap, refcount
      ensures Valid() && kernelLimit == old(kernelLimit)
      ensures page == 0 <==> |old(used)| == total
      ensures page == 0 ==> used == old(used) && refs == old(refs)
      ensures page != 0 ==>
        page < total == |old(refs)| && page !in old(used) && used == old(used) + {page} && refs == old(refs)[page := 1]
      ensures page != 0 ==> allocHint == page + 1 && Passed(old(used), old(allocHint) % total, page, total)
    {
      for j := 0 to total
        invariant forall k: nat :: k < j ==> Slot(allocHint, k, total) in used
        invariant Valid() && used == old(used) && refs == old(refs) && allocHint == old(allocHint)
          && kernelLimit == old(kernelLimit)
      {
        var i := Slot(allocHint, j, total);
        var taken := BitmapTest(i);
        if !taken {
          ScanPassed(total, allocHint, used, j, i);
          Take(i);
          allocHint := i + 1;
          return i;
        }
      }
      EveryFrameScanned(total, allocHint, used);
      return 0;
    }

    /** pmm_free_page: gives a frame back whatever its reference count, kernel frames excepted. */
    method Free(page: nat)
      requires Valid() && page != 0
      modifies this, bitmap, refcount
      ensures Valid() && kernelLimit == old(kernelLimit)
      ensures page in old(used) && kernelLimit <= page ==> used == old(used) - {page} && refs == old(refs)[page := 0]
      ensures page !in old(used) || page < kernelLimit ==> used == old(used) && refs == old(refs)
    {
      if page < total {
        var taken := BitmapTest(page);
        if taken {
          if kernelLimit != 0 && page < kernelLimit {
            return;
          }
          refcount[page] := 0;
          refs := refs[page := 0];
          Release(page);
        }
      }
    }

    /**
     * pmm_page_ref: one more reference, saturating at 255, and nothing beyond the end of
     * memory. A frame that is free is counted too, and stays free.
     */
    method Ref(page: nat)
      requires Valid()
      modifies this`refs, refcount
      ensures Valid() <==> page >= total || page in used
      ensures page >= total ==> refs == old(refs)
      ensures page < total ==> refs == old(refs)[page := if old(refs)[page] < 255 then old(refs)[page] + 1 else 255]
    {
      if page < total && refcount[page] < 255 {
        refcount[page] := refcount[page] + 1;
        refs := refs[page := refs[page] + 1];
      }
    }

    /** pmm_page_unref: the frame is free again once nobody refers to it, unless it is the kernel's. */
    method Unref(page: nat)
      requires Valid() && page != 0
      modifies this, bitmap, refcount
      ensures Valid() && kernelLimit == old(kernelLimit)
      ensures page >= total || old(refs)[page] == 0 ==> refs == old(refs) && used == old(used)
      ensures page < total && old(refs)[page] > 0 ==> refs == old(refs)[page := old(refs)[page] - 1]
      ensures page < total && old(refs)[page] > 0 ==>
                used == if old(refs)[page] == 1 && kernelLimit <= page then old(used) - {page} else old(used)
    {
      if page < total && refcount[page] > 0 {
        refcount[page] := refcount[page] - 1;
        refs := refs[page := refs[page] - 1];
        if refcount[page] == 0 {
          if kernelLimit != 0 && page < kernelLimit {
            return;
          }
          Release(page);
        }
      }
    }

    /** pmm_page_refcount: 0 beyond the end of memory. */
    method Refcount(page: nat) returns (n: nat)
      requires Valid()
      ensures n == if page < |refs| then refs[page] else 0
    {
      n := if page < total then refcount[page] else 0;
    }

    /** pmm_set_kernel_end: everything below the first free frame becomes kernel property. */
    method SetKernelEnd()
      requires Valid()
      modifies this`kernelLimit
      ensures Valid()
      ensures kernelLimit < total ==> kernelLimit !in used
      ensures kernelLimit == total <==> |used| == total
    {
      for i := 0 to total
        invariant forall p: nat :: p < i ==> p in used
        invariant kernelLimit == old(kernelLimit)
      {
        var taken := BitmapTest(i);
        if !taken {
          FreeRoom(total, used, i);
          kernelLimit := i;
          return;
        }
      }
      AllUsed(total, used);
      kernelLimit := total;
    }
  }

  ghost function Below(n: nat): (s: set<nat>)
    ensures |s| == n && forall p: nat :: p in s <==> p < n
  {
    if n == 0 then {} else Below(n - 1) + {n - 1}
  }

  lemma AllOnes(bm: seq<byte>, n: nat)
    requires n <= 8 * |bm| && forall i :: 0 <= i < |bm| ==> bm[i] == 0xFF
    ensures forall p: nat :: p < n ==> BitAt(bm, p)
  {
    forall p: nat | p < n ensures BitAt(bm, p) {
      OnesSet(p % 8, 8);
    }
  }

  lemma {:induction false} OnesSet(k: nat, n: nat)
    requires k < n
    ensures Pow2(n) >= 1 && TestBit(Pow2(n) - 1, k)
    ensures n == 8 ==> Pow2(n) == 256
  {
    if k > 0 {
      OnesSet(k - 1, n - 1);
      assert (Pow2(n) - 1) / 2 == Pow2(n - 1) - 1;
    } else {
      Pow2Even(n);
    }
  }

  lemma {:induction false} Pow2Even(n: nat)
    requires 0 < n
    ensures Pow2(n) >= 2 && (Pow2(n) - 1) % 2 == 1
  {
    var p := Pow2(n - 1);
    assert Pow2(n) == 2 * p;
    if n > 1 {
      Pow2Even(n - 1);
    }
    assert Pow2(n) - 1 == 2 * (p - 1) + 1;
    OddIs(p);
  }

  lemma OddIs(p: nat)
    requires 0 < p
    ensures (2 * p - 1) % 2 == 1
  {
  }

  lemma {:induction false} CardUpTo(n: nat, s: set<nat>)
    requires forall p: nat :: p in s ==> p < n
    ensures |s| <= n
    ensures |s| == n <==> forall p: nat :: p < n ==> p in s
    decreases n
  {
    if n == 0 {
      assert s == {};
    } else {
      var t := s - {n - 1};
      CardUpTo(n - 1, t);
      if n - 1 in s {
        assert s == t + {n - 1};
      } else {
        assert s == t;
      }
    }
  }

  // ----- a small machine -----

  /** A machine of eight frames, the first two of them the kernel's. */
  method EightFrames() returns (a: Allocator)
    ensures fresh(a) && fresh(a.bitmap) && fresh(a.refcount) && a.Valid() && a.total == 8 && a.kernelLimit == 0
      && a.used == {0, 1}
    ensures |a.refs| == 8 && forall p: nat :: p < 8 ==> a.refs[p] == 0
  {
    hide Allocator.Valid, GivenBack;
    a := new Allocator(8);
    var available := seq(8, _ => true);
    a.Init(available, 2);
    UsedFit(a);
    TwoUsed(a.used, available);
  }

  lemma TwoUsed(used: set<nat>, available: seq<bool>)
    requires |available| == 8 && forall p :: 0 <= p < 8 ==> available[p]
    requires forall p: nat :: p in used ==> p < 8
    requires forall p: nat :: p < 8 ==> (p in used <==> !GivenBack(available, 2, p))
    ensures used == {0, 1}
  {
    forall p: nat ensures p in used <==> p in {0, 1} {
      assert p < 8 ==> (p in used <==> !GivenBack(available, 2, p));
    }
  }

  lemma UsedFit(a: Allocator)
    requires a.Valid()
    ensures |a.used| <= a.total == |a.refs| && forall p: nat :: p in a.used ==> p < a.total
  {
  }

  lemma FreeRoom(total: nat, used: set<nat>, i: nat)
    requires forall p: nat :: p in used ==> p < total
    requires i < total && i !in used
    ensures |used| < total
  {
    CardUpTo(total, used);
  }

  lemma AllUsed(total: nat, used: set<nat>)
    requires forall p: nat :: p in used ==> p < total
    requires forall p: nat :: p < total ==> p in used
    ensures |used| == total
  {
    CardUpTo(total, used);
  }

  /** A wrapping scan of `total` steps visits every frame. */
  lemma EveryFrameScanned(total: nat, hint: nat, used: set<nat>)
    requires 0 < total
    requires forall p: nat :: p in used ==> p < total
    requires forall k: nat :: k < total ==> Slot(hint, k, total) in used
    ensures |used| == total
  {
    forall p: nat | p < total ensures p in used {
      ModInverse(total, hint, p);
      assert Slot(hint, (p - hint) % total, total) in used;
    }
    AllUsed(total, used);
  }

  /** A scan stops at the first free frame. */
  lemma ScanPassed(total: nat, hint: nat, used: set<nat>, j: nat, page: nat)
    requires 0 < total && j < total && page == Slot(hint, j, total)
    requires forall k: nat :: k < j ==> Slot(hint, k, total) in used
    ensures Passed(used, hint % total, page, total)
  {
    var q, h := hint / total, hint % total;
    assert hint == q * total + h;
    StepsTo(total, q, h, j, if h + j < total then h + j else h + j - total);
    forall p: nat | p < total && (if h <= page then h <= p < page else h <= p || p < page) ensures p in used {
      var k := if h <= p then p - h else p + total - h;
      StepsTo(total, q, h, k, p);
      assert Slot(hint, k, total) in used;
    }
  }

  lemma StepsTo(total: nat, q: nat, h: nat, k: nat, p: nat)
    requires p < total && (h + k == p || h + k == p + total)
    ensures (q * total + h + k) % total == p
  {
    if h + k == p {
      ModAdd(total, p, q);
    } else {
      assert (q + 1) * total == q * total + total;
      ModAdd(total, p, q + 1);
    }
  }

  lemma ModInverse(n: nat, h: nat, p: nat)
    requires p < n
    ensures (h + (p - h) % n) % n == p
  {
    var k := (p - h) % n;
    var q := (p - h) / n;
    assert p - h == q * n + k;
    var x := h + k;
    assert x == p + (-q) * n;
    ModAdd(n, p, -q);
  }

  lemma ModAdd(n: nat, p: nat, q: int)
    requires p < n
    ensures (p + q * n) % n == p
  {
    var x := p + q * n;
    assert (x / n - q) * n == p - x % n;
    SmallMultiple(x / n - q, n);
  }

  lemma SmallMultiple(d: int, n: int)
    requires -n < d * n < n
    ensures d == 0
  {
  }
}
