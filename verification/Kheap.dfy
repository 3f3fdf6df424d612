/**
 The kernel heap (kernel/memory/kheap.c): block headers inside one contiguous
 region, the free ones linked in address order, first fit, merged when freed.
 */
module Kheap {

  const HDR: nat := 24
  const MIN: nat := 16
  const PAGE: nat := 4096
  const MAGIC_ALLOC: nat := 0xDEADBEEF
  const MAGIC_FREE: nat := 0xFBEEBEEF

  /** struct kheap_block, as stored in memory; `next` is 0 at the end of the free list. */
  datatype Header = Header(size: nat, next: nat, magic: nat)

  /** A block of the heap: its header starts at `addr`, its `size` bytes follow. */
  datatype Block = Block(addr: nat, size: nat, free: bool) {
    function End(): nat { addr + HDR + size }
  }

  // ----- the heap as a list of blocks -----

  /** The blocks lie end to end and fill the region from `lo` to `hi`. */
  ghost predicate Tiles(bs: seq<Block>, lo: nat, hi: nat) {
    if bs == [] then lo == hi
    else bs[0].addr == lo && Tiles(bs[1..], bs[0].End(), hi)
  }

  ghost predicate NoFreeNeighbours(bs: seq<Block>) {
    forall i :: 0 <= i < |bs| - 1 ==> !(bs[i].free && bs[i + 1].free)
  }

  ghost predicate Aligned8(bs: seq<Block>) {
    forall i :: 0 <= i < |bs| ==> bs[i].addr % 8 == 0 && bs[i].size % 8 == 0
  }

  ghost function FreeAddrs(bs: seq<Block>): seq<nat> {
    if bs == [] then [] else (if bs[0].free then [bs[0].addr] else []) + FreeAddrs(bs[1..])
  }

  lemma {:induction false} TilesConcat(a: seq<Block>, b: seq<Block>, lo: nat, hi: nat)
    ensures Tiles(a + b, lo, hi) <==> Tiles(a, lo, EndOf(a, lo)) && Tiles(b, EndOf(a, lo), hi)
    decreases |a|
  {
    if a == [] {
      assert a + b == b;
    } else {
      assert (a + b)[1..] == a[1..] + b && (a + b)[0] == a[0];
      TilesConcat(a[1..], b, a[0].End(), hi);
    }
  }

  ghost function EndOf(a: seq<Block>, lo: nat): nat {
    if a == [] then lo else EndOf(a[1..], a[0].End())
  }

  lemma {:induction false} FreeConcat(a: seq<Block>, b: seq<Block>)
    ensures FreeAddrs(a + b) == FreeAddrs(a) + FreeAddrs(b)
    decreases |a|
  {
    if a == [] {
      assert a + b == b;
    } else {
      assert (a + b)[1..] == a[1..] + b && (a + b)[0] == a[0];
      FreeConcat(a[1..], b);
    }
  }

  /** Blocks do not overlap: each ends before every later one begins. */
  lemma {:induction false} BlocksApart(bs: seq<Block>, lo: nat, hi: nat, i: nat, j: nat)
    requires Tiles(bs, lo, hi) && i < j < |bs|
    ensures bs[i].End() <= bs[j].addr
    ensures lo <= bs[i].addr && bs[j].End() <= hi
    decreases |bs|
  {
    StartsInside(bs[1..], bs[0].End(), hi, j - 1);
    if i > 0 {
      BlocksApart(bs[1..], bs[0].End(), hi, i - 1, j - 1);
    }
  }

  lemma {:induction false} StartsInside(bs: seq<Block>, lo: nat, hi: nat, j: nat)
    requires Tiles(bs, lo, hi) && j < |bs|
    ensures lo <= bs[j].addr && bs[j].End() <= hi
    decreases |bs|
  {
    if j > 0 {
      StartsInside(bs[1..], bs[0].End(), hi, j - 1);
    } else {
      EndsInside(bs[1..], bs[0].End(), hi);
    }
  }

  lemma {:induction false} EndsInside(bs: seq<Block>, lo: nat, hi: nat)
    requires Tiles(bs, lo, hi)
    ensures lo <= hi
    decreases |bs|
  {
    if bs != [] {
      EndsInside(bs[1..], bs[0].End(), hi);
    }
  }

  /** Consecutive blocks touch. */
  lemma {:induction false} BlocksTouch(bs: seq<Block>, lo: nat, hi: nat, i: nat)
    requires Tiles(bs, lo, hi) && i + 1 < |bs|
    ensures bs[i].End() == bs[i + 1].addr
    decreases |bs|
  {
    if i > 0 {
      BlocksTouch(bs[1..], bs[0].End(), hi, i - 1);
    }
  }

  // ----- headers and the free list in memory -----

  ghost predicate HeadersOk(hdr: map<nat, Header>, bs: seq<Block>) {
    forall i :: 0 <= i < |bs| ==>
      bs[i].addr in hdr && hdr[bs[i].addr].size == bs[i].size
      && hdr[bs[i].addr].magic == (if bs[i].free then MAGIC_FREE else MAGIC_ALLOC)
  }

  function NextIn(fl: seq<nat>, j: nat): nat { if j < |fl| then fl[j] else 0 }

  ghost predicate Linked(hdr: map<nat, Header>, head: nat, fl: seq<nat>) {
    && head == NextIn(fl, 0)
    && forall j :: 0 <= j < |fl| ==> fl[j] in hdr && hdr[fl[j]].next == NextIn(fl, j + 1)
  }

  /** Everything that is true of the heap between calls. */
  ghost predicate HeapOk(hdr: map<nat, Header>, head: nat, bs: seq<Block>, lo: nat, hi: nat) {
    && 0 < lo && Tiles(bs, lo, hi) && NoFreeNeighbours(bs) && Aligned8(bs)
    && HeadersOk(hdr, bs) && Linked(hdr, head, FreeAddrs(bs))
  }

  /**
   * The j-th entry of the free list is a free block, with the earlier ones to its left and the
   * later ones to its right.
   */
  lemma {:induction false} FreeAt(bs: seq<Block>, j: nat) returns (i: nat)
    requires j < |FreeAddrs(bs)|
    ensures i < |bs| && bs[i].free && bs[i].addr == FreeAddrs(bs)[j]
    ensures FreeAddrs(bs[..i]) == FreeAddrs(bs)[..j] && FreeAddrs(bs[i + 1..]) == FreeAddrs(bs)[j + 1..]
    decreases |bs|
  {
    if bs[0].free && j == 0 {
      i := 0;
      assert bs[..0] == [] && bs[1..] == bs[0 + 1..];
    } else {
      var skip := if bs[0].free then 1 else 0;
      var k := FreeAt(bs[1..], j - skip);
      i := k + 1;
      assert bs[..i][1..] == bs[1..][..k] && bs[1..][k + 1..] == bs[i + 1..];
    }
  }

  lemma {:induction false} FreeBlocksListed(bs: seq<Block>, i: nat)
    requires i < |bs| && bs[i].free
    ensures bs[i].addr in FreeAddrs(bs)
    decreases |bs|
  {
    if i > 0 {
      FreeBlocksListed(bs[1..], i - 1);
    }
  }

  lemma {:induction false} ListedIsFree(bs: seq<Block>, a: nat) returns (i: nat)
    requires a in FreeAddrs(bs)
    ensures i < |bs| && bs[i].free && bs[i].addr == a
    decreases |bs|
  {
    if bs[0].free && bs[0].addr == a {
      i := 0;
    } else {
      var k := ListedIsFree(bs[1..], a);
      i := k + 1;
    }
  }

  /** The free list is sorted by address. */
  lemma {:induction false} FreeListSorted(bs: seq<Block>, lo: nat, hi: nat, j: nat, k: nat)
    requires Tiles(bs, lo, hi) && j < k < |FreeAddrs(bs)|
    ensures lo <= FreeAddrs(bs)[j] < FreeAddrs(bs)[k]
  {
    var i := FreeAt(bs, j);
    var m := ListedIsFree(bs[i + 1..], FreeAddrs(bs[i + 1..])[k - j - 1]);
    BlocksApart(bs, lo, hi, i, i + 1 + m);
  }

  /** A stretch of the free list is replaced; the pointers around it are adjusted. */
  lemma {:induction false} Relink(hdr: map<nat, Header>, head: nat, hdr': map<nat, Header>, head': nat, a: seq<nat>,
                                  f: seq<nat>, f': seq<nat>, b: seq<nat>)
    requires Linked(hdr, head, a + f + b)
    requires head' == if a == [] then NextIn(f' + b, 0) else head
    requires forall k :: 0 <= k < |a| - 1 ==> a[k] in hdr' && hdr'[a[k]].next == a[k + 1]
    requires a != [] ==> a[|a| - 1] in hdr' && hdr'[a[|a| - 1]].next == NextIn(f' + b, 0)
    requires forall k :: 0 <= k < |f'| ==> f'[k] in hdr' && hdr'[f'[k]].next == NextIn(f' + b, k + 1)
    requires forall k :: 0 <= k < |b| ==> b[k] in hdr' && hdr'[b[k]].next == NextIn(b, k + 1)
    ensures Linked(hdr', head', a + f' + b)
  {
    var l, l' := a + f + b, a + f' + b;
    assert a != [] ==> l[0] == l'[0] == a[0];
    assert a == [] ==> l' == f' + b;
    forall j | 0 <= j < |l'| ensures l'[j] in hdr' && hdr'[l'[j]].next == NextIn(l', j + 1) {
      if j < |a| - 1 {
        assert l'[j] == a[j] && l'[j + 1] == a[j + 1];
      } else if j == |a| - 1 {
        assert l'[j] == a[j] && NextIn(l', j + 1) == NextIn(f' + b, 0);
      } else if j < |a| + |f'| {
        assert l'[j] == f'[j - |a|] && NextIn(l', j + 1) == NextIn(f' + b, j - |a| + 1);
      } else {
        assert l'[j] == b[j - |a| - |f'|] && NextIn(l', j + 1) == NextIn(b, j - |a| - |f'| + 1);
      }
    }
  }

  /** Links of the two ends of a list, read off the whole. */
  lemma {:induction false} Unlink(hdr: map<nat, Header>, head: nat, a: seq<nat>, f: seq<nat>, b: seq<nat>)
    requires Linked(hdr, head, a + f + b)
    ensures forall k :: 0 <= k < |a| - 1 ==> a[k] in hdr && hdr[a[k]].next == a[k + 1]
    ensures a != [] ==> head == a[0] && a[|a| - 1] in hdr && hdr[a[|a| - 1]].next == NextIn(f + b, 0)
    ensures forall k :: 0 <= k < |f| ==> f[k] in hdr && hdr[f[k]].next == NextIn(f + b, k + 1)
    ensures forall k :: 0 <= k < |b| ==> b[k] in hdr && hdr[b[k]].next == NextIn(b, k + 1)
  {
    var l := a + f + b;
    forall k | 0 <= k < |a| ensures a[k] in hdr && hdr[a[k]].next == NextIn(l, k + 1) {
      assert l[k] == a[k];
    }
    forall k | 0 <= k < |f| ensures f[k] in hdr && hdr[f[k]].next == NextIn(f + b, k + 1) {
      assert l[|a| + k] == f[k] && NextIn(l, |a| + k + 1) == NextIn(f + b, k + 1);
    }
    forall k | 0 <= k < |b| ensures b[k] in hdr && hdr[b[k]].next == NextIn(b, k + 1) {
      assert l[|a| + |f| + k] == b[k] && NextIn(l, |a| + |f| + k + 1) == NextIn(b, k + 1);
    }
    assert NextIn(l, |a|) == NextIn(f + b, 0);
  }

  // ----- what the three calls do to the list of blocks -----

  function RoundUp(n: nat, unit: nat): nat
    requires 0 < unit
  {
    (n + unit - 1) / unit * unit
  }

  /** The rounded size is the least multiple of the unit that is not below the request. */
  lemma RoundedUp(n: nat, unit: nat, m: nat)
    requires unit == 16 || unit == 4096
    ensures RoundUp(n, unit) % unit == 0 && n <= RoundUp(n, unit) < n + unit
    ensures m % unit == 0 && n <= m ==> RoundUp(n, unit) <= m
  {
    if unit == 16 {
      assert RoundUp(n, 16) == (n + 15) / 16 * 16;
    } else {
      assert RoundUp(n, 4096) == (n + 4095) / 4096 * 4096;
    }
  }

  /** kmalloc takes `size` bytes from the free block `b`. */
  function Carve(b: Block, size: nat): (mid: seq<Block>)
    requires size <= b.size
  {
    if size + HDR + MIN <= b.size then
      [Block(b.addr, size, false), Block(b.addr + HDR + size, b.size - size - HDR, true)]
    else
      [b.(free := false)]
  }

  // ----- the allocated blocks -----

  ghost function Used(bs: seq<Block>): set<Block> { set b | b in bs && !b.free }

  lemma UsedIs(bs: seq<Block>, i: nat)
    requires i < |bs|
    ensures bs[i] in Used(bs) <==> !bs[i].free
  {
    assert bs[i] in bs;
  }

  lemma UsedAt(bs: seq<Block>, b: Block) returns (i: nat)
    requires b in Used(bs)
    ensures i < |bs| && bs[i] == b && !b.free
  {
    i :| 0 <= i < |bs| && bs[i] == b;
  }

  /** Allocated blocks are apart. */
  lemma UsedApart(bs: seq<Block>, lo: nat, hi: nat, b: Block, c: Block)
    requires Tiles(bs, lo, hi) && b in Used(bs) && c in Used(bs) && b != c
    ensures b.End() <= c.addr || c.End() <= b.addr
    ensures lo <= b.addr && b.End() <= hi
  {
    var i := UsedAt(bs, b);
    var j := UsedAt(bs, c);
    StartsInside(bs, lo, hi, i);
    if i < j {
      BlocksApart(bs, lo, hi, i, j);
    } else {
      BlocksApart(bs, lo, hi, j, i);
    }
  }

  /** A stretch of blocks is replaced: its allocated blocks go, those of the replacement come. */
  lemma PutUsed(bs: seq<Block>, lo: nat, hi: nat, i: nat, n: nat, mid: seq<Block>)
    requires Tiles(bs, lo, hi) && i + n <= |bs|
    ensures Used(Put(bs, i, n, mid)) == Used(bs) - Used(bs[i..i + n]) + Used(mid)
  {
    var p := Put(bs, i, n, mid);
    forall b: Block | b in bs ensures b in p || b in bs[i..i + n] {
      var k :| 0 <= k < |bs| && bs[k] == b;
      if k < i {
        assert p[k] == b;
      } else if k < i + n {
        assert bs[i..i + n][k - i] == b;
      } else {
        assert p[k - n + |mid|] == b;
      }
    }
    forall b: Block | b in p ensures b in mid || (b in bs && b !in bs[i..i + n]) {
      if b !in mid {
        var k :| 0 <= k < |p| && p[k] == b;
        var m := if k < i then k else k - |mid| + n;
        assert bs[m] == b;
        if b in bs[i..i + n] {
          var j :| 0 <= j < n && bs[i..i + n][j] == b;
          SameBlock(bs, lo, hi, m, i + j);
        }
      }
    }
    assert forall b: Block :: b in mid ==> b in p;
  }

  lemma SameBlock(bs: seq<Block>, lo: nat, hi: nat, i: nat, j: nat)
    requires Tiles(bs, lo, hi) && i < |bs| && j < |bs| && bs[i] == bs[j]
    ensures i == j
  {
    if i < j {
      BlocksApart(bs, lo, hi, i, j);
    } else if j < i {
      BlocksApart(bs, lo, hi, j, i);
    }
  }

  lemma FreedUsed(bs: seq<Block>, lo: nat, hi: nat, i: nat)
    requires Tiles(bs, lo, hi) && i < |bs| && !bs[i].free
    ensures Used(Freed(bs, i)) == Used(bs) - {bs[i]}
  {
    var from, n := MergeFrom(bs, i), MergeCount(bs, i);
    PutUsed(bs, lo, hi, from, n, [Merged(bs, i)]);
    var was := bs[from..from + n];
    assert Used([Merged(bs, i)]) == {};
    assert was[i - from] == bs[i];
    assert forall k :: 0 <= k < n && k != i - from ==> was[k].free;
    assert Used(was) == {bs[i]};
  }

  /** Exactly one allocated block is new: `ptr` points behind its header, and it has the bytes asked for. */
  ghost predicate Granted(bs: seq<Block>, bs': seq<Block>, ptr: nat, size: nat, waste: nat) {
    exists b :: b in Used(bs') && b.addr + 24 == ptr && size <= b.size < size + waste && b !in Used(bs)
      && Used(bs') == Used(bs) + {b}
  }

  lemma GrantedBy(bs: seq<Block>, lo: nat, hi: nat, i: nat, mid: seq<Block>, j: nat, size: nat, waste: nat)
    requires Tiles(bs, lo, hi) && i < |bs| && bs[i].free && j < |mid| && !mid[j].free
    requires forall k :: 0 <= k < |mid| && k != j ==> mid[k].free
    requires size <= mid[j].size < size + waste && bs[i].addr <= mid[j].addr < bs[i].End()
    ensures Granted(bs, Put(bs, i, 1, mid), mid[j].addr + 24, size, waste)
  {
    hide Tiles;
    PutUsed(bs, lo, hi, i, 1, mid);
    assert bs[i..i + 1] == [bs[i]] && Used([bs[i]]) == {};
    assert Used(mid) == {mid[j]};
    forall m | 0 <= m < |bs| && m != i ensures bs[m] != mid[j] {
      if m < i {
        BlocksApart(bs, lo, hi, m, i);
      } else {
        BlocksApart(bs, lo, hi, i, m);
      }
    }
    assert mid[j] in Used(Put(bs, i, 1, mid)) && mid[j] !in Used(bs);
  }

  /** The page-aligned payload kmalloc_page_aligned would place in a block at `addr`. */
  function AlignedAt(addr: nat): (a: nat)
    ensures a % PAGE == 0 && (a == addr + HDR || addr + HDR + HDR + MIN <= a) && a <= addr + HDR + PAGE + HDR + MIN - 1
  {
    var data := addr + HDR;
    var a := RoundUp(data, PAGE);
    if a != data && a - data < HDR + MIN then a + PAGE else a
  }

  predicate FitsAligned(b: Block, size: nat) { b.free && AlignedAt(b.addr) + size <= b.End() }

  function CarveAligned(b: Block, size: nat): (mid: seq<Block>)
    requires FitsAligned(b, size)
  {
    var a := AlignedAt(b.addr);
    if a == b.addr + HDR then Carve(b, size)
    else
      var rest := b.End() - a - size;
      [Block(b.addr, a - HDR - (b.addr + HDR), true)]
      + if HDR + MIN <= rest then [Block(a - HDR, size, false), Block(a + size, rest - HDR, true)]
        else [Block(a - HDR, size + rest, false)]
  }

  function Put(bs: seq<Block>, i: nat, n: nat, mid: seq<Block>): seq<Block>
    requires i + n <= |bs|
  {
    bs[..i] + mid + bs[i + n..]
  }

  /** Index of the first block merged when block `i` is freed, and how many are merged. */
  function MergeFrom(bs: seq<Block>, i: nat): nat
    requires i < |bs|
  {
    if i > 0 && bs[i - 1].free then i - 1 else i
  }

  function MergeCount(bs: seq<Block>, i: nat): (n: nat)
    requires i < |bs|
    ensures MergeFrom(bs, i) + n <= |bs|
  {
    (if i + 1 < |bs| && bs[i + 1].free then i + 2 else i + 1) - MergeFrom(bs, i)
  }

  function Merged(bs: seq<Block>, i: nat): Block
    requires i < |bs|
  {
    var lo, n := MergeFrom(bs, i), MergeCount(bs, i);
    Block(bs[lo].addr,
          bs[lo].size + (if n > 1 then HDR + bs[lo + 1].size else 0) + (if n > 2 then HDR + bs[lo + 2].size else 0),
          true)
  }

  // ----- one stretch of blocks is replaced -----

  /** `hdr'` differs from `hdr` only inside the span from `from` to `to` and in the link out of `prev`. */
  ghost predicate ChangedIn(hdr: map<nat, Header>, hdr': map<nat, Header>, from: nat, to: nat, before: seq<nat>,
                            next: nat) {
    forall a :: a in hdr && !(from <= a < to) ==>
      && a in hdr' && hdr'[a].size == hdr[a].size && hdr'[a].magic == hdr[a].magic
      && hdr'[a].next == if before != [] && a == before[|before| - 1] then next else hdr[a].next
  }

  ghost predicate LinksFrom(hdr: map<nat, Header>, f: seq<nat>, b: seq<nat>) {
    forall k :: 0 <= k < |f| ==> f[k] in hdr && hdr[f[k]].next == NextIn(f + b, k + 1)
  }

  lemma {:induction false} PutOk(hdr: map<nat, Header>, head: nat, bs: seq<Block>, lo: nat, hi: nat, i: nat, n: nat,
                                 mid: seq<Block>,
                                 hdr': map<nat, Header>, head': nat)
    requires HeapOk(hdr, head, bs, lo, hi) && 0 < n && i + n <= |bs|
    requires Tiles(mid, bs[i].addr, bs[i + n - 1].End()) && Aligned8(mid) && HeadersOk(hdr', mid)
    requires NoFreeNeighbours(Put(bs, i, n, mid))
    requires var before, f, after := FreeAddrs(bs[..i]), FreeAddrs(mid), FreeAddrs(bs[i + n..]);
             && ChangedIn(hdr, hdr', bs[i].addr, bs[i + n - 1].End(), before, NextIn(f + after, 0))
             && LinksFrom(hdr', f, after)
             && head' == if before == [] then NextIn(f + after, 0) else head
    ensures HeapOk(hdr', head', Put(bs, i, n, mid), lo, hi)
  {
    hide Linked, HeadersOk;
    PutTiles(bs, lo, hi, i, n, mid);
    PutHeaders(hdr, head, bs, lo, hi, i, n, mid, hdr');
    PutLinks(hdr, head, bs, lo, hi, i, n, mid, hdr', head');
    hide NoFreeNeighbours;
  }

  lemma {:induction false} PutTiles(bs: seq<Block>, lo: nat, hi: nat, i: nat, n: nat, mid: seq<Block>)
    requires Tiles(bs, lo, hi) && 0 < n && i + n <= |bs| && Tiles(mid, bs[i].addr, bs[i + n - 1].End())
    ensures Tiles(Put(bs, i, n, mid), lo, hi)
  {
    var a, was, c := bs[..i], bs[i..i + n], bs[i + n..];
    assert bs == a + (was + c);
    TilesConcat(a, was + c, lo, hi);
    TilesConcat(was, c, EndOf(a, lo), hi);
    assert (was + c)[0] == bs[i];
    EndIsLast(was, EndOf(a, lo));
    EndIsLast(mid, bs[i].addr);
    TilesEnd(mid, bs[i].addr, bs[i + n - 1].End());
    assert a + mid + c == a + (mid + c);
    TilesConcat(a, mid + c, lo, hi);
    TilesConcat(mid, c, EndOf(a, lo), hi);
  }

  lemma {:induction false} TilesEnd(bs: seq<Block>, lo: nat, hi: nat)
    requires Tiles(bs, lo, hi)
    ensures EndOf(bs, lo) == hi
    decreases |bs|
  {
    if bs != [] {
      TilesEnd(bs[1..], bs[0].End(), hi);
    }
  }

  lemma {:induction false} EndIsLast(bs: seq<Block>, lo: nat)
    ensures bs != [] ==> EndOf(bs, lo) == bs[|bs| - 1].End()
    decreases |bs|
  {
    if bs != [] {
      EndIsLast(bs[1..], bs[0].End());
    }
  }

  /** Blocks outside a stretch have their headers outside its span. */
  lemma {:induction false} OutsideSpan(bs: seq<Block>, lo: nat, hi: nat, i: nat, n: nat, k: nat)
    requires Tiles(bs, lo, hi) && 0 < n && i + n <= |bs| && k < |bs| && !(i <= k < i + n)
    ensures bs[k].addr < bs[i].addr || bs[i + n - 1].End() <= bs[k].addr
  {
    if k < i {
      BlocksApart(bs, lo, hi, k, i);
    } else {
      BlocksApart(bs, lo, hi, i + n - 1, k);
    }
  }

  lemma {:induction false} PutHeaders(hdr: map<nat, Header>, head: nat, bs: seq<Block>, lo: nat, hi: nat, i: nat,
                                      n: nat, mid: seq<Block>, hdr': map<nat, Header>)
    requires HeapOk(hdr, head, bs, lo, hi) && 0 < n && i + n <= |bs| && HeadersOk(hdr', mid)
    requires var before, f, after := FreeAddrs(bs[..i]), FreeAddrs(mid), FreeAddrs(bs[i + n..]);
             ChangedIn(hdr, hdr', bs[i].addr, bs[i + n - 1].End(), before, NextIn(f + after, 0))
    ensures HeadersOk(hdr', Put(bs, i, n, mid))
  {
    hide Linked;
    var p := Put(bs, i, n, mid);
    forall k | 0 <= k < |p|
      ensures p[k].addr in hdr' && hdr'[p[k].addr].size == p[k].size
        && hdr'[p[k].addr].magic == (if p[k].free then MAGIC_FREE else MAGIC_ALLOC)
    {
      if k < i {
        assert p[k] == bs[k];
        OutsideSpan(bs, lo, hi, i, n, k);
      } else if k < i + |mid| {
        assert p[k] == mid[k - i];
      } else {
        var m := k - |mid| + n;
        assert p[k] == bs[m];
        OutsideSpan(bs, lo, hi, i, n, m);
      }
    }
  }

  lemma {:induction false} PutLinks(hdr: map<nat, Header>, head: nat, bs: seq<Block>, lo: nat, hi: nat, i: nat, n: nat,
                                    mid: seq<Block>,
                                    hdr': map<nat, Header>, head': nat)
    requires HeapOk(hdr, head, bs, lo, hi) && 0 < n && i + n <= |bs|
    requires var before, f, after := FreeAddrs(bs[..i]), FreeAddrs(mid), FreeAddrs(bs[i + n..]);
             && ChangedIn(hdr, hdr', bs[i].addr, bs[i + n - 1].End(), before, NextIn(f + after, 0))
             && LinksFrom(hdr', f, after)
             && head' == if before == [] then NextIn(f + after, 0) else head
    ensures Linked(hdr', head', FreeAddrs(Put(bs, i, n, mid)))
  {
    hide HeadersOk, Linked, ChangedIn, LinksFrom, NextIn;
    var before, f, after := FreeAddrs(bs[..i]), FreeAddrs(mid), FreeAddrs(bs[i + n..]);
    var was := FreeAddrs(bs[i..i + n]);
    assert bs == bs[..i] + bs[i..i + n] + bs[i + n..];
    FreeConcat(bs[..i], bs[i..i + n]);
    FreeConcat(bs[..i] + bs[i..i + n], bs[i + n..]);
    FreeConcat(bs[..i], mid);
    FreeConcat(bs[..i] + mid, bs[i + n..]);
    SortedBefore(bs, lo, hi, i, n);
    RelinkIn(hdr, head, hdr', head', before, was, f, after, bs[i].addr, bs[i + n - 1].End());
  }

  lemma {:induction false} RelinkIn(hdr: map<nat, Header>, head: nat, hdr': map<nat, Header>, head': nat,
                                    a: seq<nat>, f: seq<nat>, f': seq<nat>, b: seq<nat>, from: nat, to: nat)
    requires Linked(hdr, head, a + f + b) && LinksFrom(hdr', f', b)
    requires ChangedIn(hdr, hdr', from, to, a, NextIn(f' + b, 0)) && head' ==
      if a == [] then NextIn(f' + b, 0) else head
    requires from <= to && (forall k :: 0 <= k < |a| ==> a[k] < from) && (forall k :: 0 <= k < |b| ==> to <= b[k])
    requires forall k :: 0 <= k < |a| - 1 ==> a[k] < a[|a| - 1]
    ensures Linked(hdr', head', a + f' + b)
  {
    Unlink(hdr, head, a, f, b);
    hide Linked;
    Relink(hdr, head, hdr', head', a, f, f', b);
  }

  lemma {:induction false} FreeBefore(bs: seq<Block>, lo: nat, hi: nat, i: nat)
    requires Tiles(bs, lo, hi) && i < |bs|
    ensures var before := FreeAddrs(bs[..i]);
            && (forall k :: 0 <= k < |before| ==> lo <= before[k] < bs[i].addr)
            && (forall k :: 0 <= k < |before| - 1 ==> before[k] < before[|before| - 1])
  {
    var before := FreeAddrs(bs[..i]);
    assert bs == bs[..i] + bs[i..];
    TilesConcat(bs[..i], bs[i..], lo, hi);
    hide Tiles, FreeAddrs;
    forall k | 0 <= k < |before| ensures lo <= before[k] < bs[i].addr {
      var m := ListedIsFree(bs[..i], before[k]);
      BlocksApart(bs, lo, hi, m, i);
    }
    forall k | 0 <= k < |before| - 1 ensures before[k] < before[|before| - 1] {
      FreeListSorted(bs[..i], lo, EndOf(bs[..i], lo), k, |before| - 1);
    }
  }

  lemma {:induction false} FreeAfter(bs: seq<Block>, lo: nat, hi: nat, i: nat)
    requires Tiles(bs, lo, hi) && i < |bs|
    ensures var after := FreeAddrs(bs[i + 1..]); forall k :: 0 <= k < |after| ==> bs[i].End() <= after[k]
  {
    hide Tiles, FreeAddrs;
    var after := FreeAddrs(bs[i + 1..]);
    forall k | 0 <= k < |after| ensures bs[i].End() <= after[k] {
      var m := ListedIsFree(bs[i + 1..], after[k]);
      BlocksApart(bs, lo, hi, i, i + 1 + m);
    }
  }

  /** The free blocks around a stretch: outside its span, and only the nearest one on the left is the last before it. */
  lemma {:induction false} SortedBefore(bs: seq<Block>, lo: nat, hi: nat, i: nat, n: nat)
    requires Tiles(bs, lo, hi) && 0 < n && i + n <= |bs|
    ensures var before, after := FreeAddrs(bs[..i]), FreeAddrs(bs[i + n..]);
            && (forall k :: 0 <= k < |before| ==> lo <= before[k] < bs[i].addr)
            && (forall k :: 0 <= k < |after| ==> bs[i + n - 1].End() <= after[k])
            && (forall k :: 0 <= k < |before| - 1 ==> before[k] < before[|before| - 1])
            && bs[i].addr <= bs[i + n - 1].End()
  {
    hide Tiles, FreeAddrs;
    if n > 1 {
      BlocksApart(bs, lo, hi, i, i + n - 1);
    }
    FreeBefore(bs, lo, hi, i);
    FreeAfter(bs, lo, hi, i + n - 1);
  }

  // ----- allocation -----

  lemma {:induction false} TilesTwo(a: Block, b: Block)
    requires a.End() == b.addr
    ensures Tiles([a, b], a.addr, b.End())
  {
    assert [a, b][1..] == [b] && [b][1..] == [];
  }

  lemma {:induction false} TilesThree(a: Block, b: Block, c: Block)
    requires a.End() == b.addr && b.End() == c.addr
    ensures Tiles([a, b, c], a.addr, c.End())
  {
    assert [a, b, c][1..] == [b, c];
    TilesTwo(b, c);
  }

  lemma {:induction false} TilesOne(a: Block)
    ensures Tiles([a], a.addr, a.End())
  {
    assert [a][1..] == [];
  }

  lemma {:induction false} FreeOfTwo(a: Block, b: Block)
    ensures FreeAddrs([a, b]) == (if a.free then [a.addr] else []) + (if b.free then [b.addr] else [])
  {
    assert [a, b] == [a] + [b];
    FreeConcat([a], [b]);
    FreeOfOne(a);
    FreeOfOne(b);
  }

  lemma {:induction false} FreeOfOne(a: Block)
    ensures FreeAddrs([a]) == if a.free then [a.addr] else []
  {
    assert [a][1..] == [];
  }

  /**
   * Replacing a free block: its free neighbours stay apart if the replacement has an allocated
   * block at neither or both ends as needed.
   */
  lemma {:induction false} PutApart(bs: seq<Block>, i: nat, mid: seq<Block>)
    requires NoFreeNeighbours(bs) && i < |bs| && bs[i].free && mid != [] && NoFreeNeighbours(mid)
    ensures NoFreeNeighbours(Put(bs, i, 1, mid))
  {
    var p := Put(bs, i, 1, mid);
    forall k | 0 <= k < |p| - 1 ensures !(p[k].free && p[k + 1].free) {
      if k + 1 < i {
        assert p[k] == bs[k] && p[k + 1] == bs[k + 1];
      } else if k + 1 == i {
        assert p[k] == bs[k] && !bs[k].free;
      } else if k + 1 < i + |mid| {
        assert p[k] == mid[k - i] && p[k + 1] == mid[k + 1 - i];
      } else {
        var m := k - |mid| + 1;
        assert p[k + 1] == bs[m + 1];
        if k + 1 == i + |mid| {
          assert m == i && !bs[i + 1].free;
        } else {
          assert p[k] == bs[m];
        }
      }
    }
  }

  /** The free block at `i` in the free list: what surrounds it and where its link leads. */
  lemma {:induction false} Neighbours(hdr: map<nat, Header>, head: nat, bs: seq<Block>, lo: nat, hi: nat, i: nat)
    requires HeapOk(hdr, head, bs, lo, hi) && i < |bs| && bs[i].free
    ensures var before, after := FreeAddrs(bs[..i]), FreeAddrs(bs[i + 1..]);
            && FreeAddrs(bs) == before + [bs[i].addr] + after
            && bs[i].addr in hdr && hdr[bs[i].addr].next == NextIn(after, 0)
            && (before != [] ==> before[|before| - 1] in hdr && 0 < before[|before| - 1] < bs[i].addr)
  {
    var before, after := FreeAddrs(bs[..i]), FreeAddrs(bs[i + 1..]);
    assert bs == bs[..i] + [bs[i]] + bs[i + 1..];
    FreeConcat(bs[..i], [bs[i]]);
    FreeConcat(bs[..i] + [bs[i]], bs[i + 1..]);
    FreeOfOne(bs[i]);
    Unlink(hdr, head, before, [bs[i].addr], after);
    SortedBefore(bs, lo, hi, i, 1);
    assert NextIn([bs[i].addr] + after, 1) == NextIn(after, 0);
  }

  lemma {:induction false} InitOk(lo: nat, hi: nat)
    requires 0 < lo && lo + HDR <= hi && lo % PAGE == 0 && hi % PAGE == 0
    ensures HeapOk(map[lo := Header(hi - lo - HDR, 0, MAGIC_FREE)], lo, [Block(lo, hi - lo - HDR, true)], lo, hi)
  {
    hide Tiles, FreeAddrs;
    var b := Block(lo, hi - lo - HDR, true);
    PageIs8(lo);
    PageIs8(hi);
    assert b.size % 8 == 0 by { Diff8(lo, hi); }
    TilesOne(b);
    FreeOfOne(b);
  }

  lemma Diff8(lo: nat, hi: nat)
    requires lo % 8 == 0 && hi % 8 == 0 && lo + HDR <= hi
    ensures (hi - lo - HDR) % 8 == 0
  {
  }

  function LastOr0(s: seq<nat>): nat { if s == [] then 0 else s[|s| - 1] }

  class Heap {
    const start: nat
    const end: nat
    var hdr: map<nat, Header>
    var freeList: nat
    ghost var blocks: seq<Block>

    ghost predicate Valid()
      reads this
    {
      HeapOk(hdr, freeList, blocks, start, end) && start % PAGE == 0
    }

    /** kheap_init: one free block spans the whole region. */
    constructor (start: nat, end: nat)
      requires 0 < start && start + HDR <= end && start % PAGE == 0 && end % PAGE == 0
      ensures Valid() && this.start == start && this.end == end && blocks == [Block(start, end - start - HDR, true)]
    {
      this.start, this.end := start, end;
      freeList := start;
      hdr := map[start := Header(end - start - HDR, 0, MAGIC_FREE)];
      blocks := [Block(start, end - start - HDR, true)];
      new;
      InitOk(start, end);
      hide HeapOk;
    }

    /** The tail of both allocators when the block is worth splitting. */
    method Split(prev: nat, cur: nat, size: nat, ghost i: nat)
      requires Valid() && i < |blocks| && blocks[i].free && blocks[i].addr == cur
      requires prev == LastOr0(FreeAddrs(blocks[..i])) && size + HDR + MIN <= blocks[i].size && size % 8 == 0
      modifies this
      ensures Valid() && blocks == Put(old(blocks), i, 1, Carve(old(blocks)[i], size))
    {
      hide Tiles, FreeAddrs, NoFreeNeighbours, Linked;
      ghost var mid := Carve(blocks[i], size);
      Neighbours(hdr, freeList, blocks, start, end, i);
      TilesTwo(mid[0], mid[1]);
      FreeOfTwo(mid[0], mid[1]);
      PutApart(blocks, i, mid);
      var newFree := cur + HDR + size;
      hdr := hdr[newFree := Header(hdr[cur].size - size - HDR, hdr[cur].next, MAGIC_FREE)];
      hdr := hdr[cur := Header(size, 0, MAGIC_ALLOC)];
      if prev != 0 {
        hdr := hdr[prev := hdr[prev].(next := newFree)];
      } else {
        freeList := newFree;
      }
      PutOk(old(hdr), old(freeList), blocks, start, end, i, 1, mid, hdr, freeList);
      blocks := Put(blocks, i, 1, mid);
    }

    /** The tail of both allocators when the block is used whole. */
    method TakeAll(prev: nat, cur: nat, ghost i: nat)
      requires Valid() && i < |blocks| && blocks[i].free && blocks[i].addr == cur
        && prev == LastOr0(FreeAddrs(blocks[..i]))
      modifies this
      ensures Valid() && blocks == Put(old(blocks), i, 1, [old(blocks)[i].(free := false)])
    {
      hide Tiles, FreeAddrs, NoFreeNeighbours, Linked;
      ghost var mid := [blocks[i].(free := false)];
      Neighbours(hdr, freeList, blocks, start, end, i);
      TilesOne(mid[0]);
      FreeOfOne(mid[0]);
      PutApart(blocks, i, mid);
      hdr := hdr[cur := hdr[cur].(magic := MAGIC_ALLOC)];
      if prev != 0 {
        hdr := hdr[prev := hdr[prev].(next := hdr[cur].next)];
      } else {
        freeList := hdr[cur].next;
      }
      hdr := hdr[cur := hdr[cur].(next := 0)];
      PutOk(old(hdr), old(freeList), blocks, start, end, i, 1, mid, hdr, freeList);
      blocks := Put(blocks, i, 1, mid);
    }

    /** The first-fit walk of kmalloc: the first large enough free block and its predecessor in the list. */
    method FindFit(need: nat) returns (prev: nat, cur: nat, ghost i: nat)
      requires Valid()
      ensures cur == 0 <==> forall k :: 0 <= k < |blocks| && blocks[k].free ==> blocks[k].size < need
      ensures cur != 0 ==> FirstFit(blocks, need, i) && cur == blocks[i].addr && prev == LastOr0(FreeAddrs(blocks[..i]))
    {
      hide Tiles, FreeAddrs, NoFreeNeighbours, Aligned8, AlignedAt;
      prev, cur, i := 0, freeList, 0;
      ghost var fl := FreeAddrs(blocks);
      ghost var j := 0;
      while cur != 0 && hdr[cur].magic == MAGIC_FREE
        invariant j <= |fl| && cur == NextIn(fl, j) && prev == LastOr0(fl[..j])
        invariant cur != 0 ==> j < |fl| && cur in hdr
        invariant forall k :: 0 <= k < j ==> fl[k] in hdr && hdr[fl[k]].size < need
        decreases |fl| - j
      {
        if hdr[cur].size >= need {
          i := FreeAt(blocks, j);
          NoneEarlier(hdr, blocks, need, i, j);
          return;
        }
        prev, cur := cur, hdr[cur].next;
        j := j + 1;
      }
      AllScanned(hdr, freeList, blocks, start, end, need, j);
      cur := 0;
    }

    /** kmalloc: part or all of the first free block that is big enough, or 0 when there is none. */
    method Malloc(size: nat) returns (ptr: nat, ghost i: nat)
      requires Valid()
      modifies this
      ensures Valid()
      ensures ptr == 0 ==> blocks == old(blocks)
      ensures ptr == 0 <==> size == 0 || forall k :: 0 <= k < |old(blocks)| && old(blocks)[k].free ==>
        old(blocks)[k].size < RoundUp(size, 16)
      ensures ptr != 0 ==> FirstFit(old(blocks), RoundUp(size, 16), i) && ptr == old(blocks)[i].addr + HDR
      ensures ptr != 0 ==> blocks == Put(old(blocks), i, 1, Carve(old(blocks)[i], RoundUp(size, 16)))
      ensures ptr != 0 ==> Granted(old(blocks), blocks, ptr, size, 16 + 40)
    {
      if size == 0 {
        return 0, 0;
      }
      hide HeapOk, RoundUp, Carve;
      var need := RoundUp(size, 16);
      RoundedUp(size, 16, need);
      Rounded8(size);
      var prev, cur;
      prev, cur, i := FindFit(need);
      if cur == 0 {
        return 0, 0;
      }
      ptr := cur + HDR;
      CarveGrants(hdr, freeList, blocks, start, end, i, size, need);
      Take(prev, cur, need, i);
    }

    method Take(prev: nat, cur: nat, size: nat, ghost i: nat)
      requires Valid() && i < |blocks| && blocks[i].free && blocks[i].addr == cur
      requires prev == LastOr0(FreeAddrs(blocks[..i])) && size <= blocks[i].size && size % 8 == 0
      modifies this
      ensures Valid() && blocks == Put(old(blocks), i, 1, Carve(old(blocks)[i], size))
    {
      hide Tiles, FreeAddrs, NoFreeNeighbours, Linked;
      assert hdr[cur].size == blocks[i].size;
      if hdr[cur].size >= size + HDR + MIN {
        Split(prev, cur, size, i);
      } else {
        TakeAll(prev, cur, i);
      }
    }

    /** The walk of kmalloc_page_aligned. */
    method FindAligned(need: nat) returns (prev: nat, cur: nat, ghost i: nat)
      requires Valid()
      ensures cur == 0 <==> forall k :: 0 <= k < |blocks| ==> !FitsAligned(blocks[k], need)
      ensures cur != 0 ==>
        FirstAligned(blocks, need, i) && cur == blocks[i].addr && prev == LastOr0(FreeAddrs(blocks[..i]))
    {
      hide Tiles, FreeAddrs, NoFreeNeighbours, Aligned8, AlignedAt;
      prev, cur, i := 0, freeList, 0;
      ghost var fl := FreeAddrs(blocks);
      ghost var j := 0;
      while cur != 0 && hdr[cur].magic == MAGIC_FREE
        invariant j <= |fl| && cur == NextIn(fl, j) && prev == LastOr0(fl[..j])
        invariant cur != 0 ==> j < |fl| && cur in hdr
        invariant forall k :: 0 <= k < j ==> fl[k] in hdr && !FitsAligned(Block(fl[k], hdr[fl[k]].size, true), need)
        decreases |fl| - j
      {
        if FitsAligned(Block(cur, hdr[cur].size, true), need) {
          i := FreeAt(blocks, j);
          NoneEarlierAligned(hdr, blocks, need, i, j);
          return;
        }
        prev, cur := cur, hdr[cur].next;
        j := j + 1;
      }
      AllScannedAligned(hdr, freeList, blocks, start, end, need, j);
      cur := 0;
    }

    /**
     * kmalloc_page_aligned: a page-aligned payload in the first free block with room for one,
     * or 0 when there is none.
     */
    method MallocAligned(size: nat) returns (ptr: nat, ghost i: nat)
      requires Valid()
      modifies this
      ensures Valid()
      ensures ptr == 0 ==> blocks == old(blocks)
      ensures ptr == 0 <==> size == 0 || forall k :: 0 <= k < |old(blocks)| ==>
        !FitsAligned(old(blocks)[k], RoundUp(size, PAGE))
      ensures ptr != 0 ==> FirstAligned(old(blocks), RoundUp(size, PAGE), i) && ptr == AlignedAt(old(blocks)[i].addr)
      ensures ptr != 0 ==> blocks == Put(old(blocks), i, 1, CarveAligned(old(blocks)[i], RoundUp(size, PAGE)))
      ensures ptr != 0 ==> ptr % 4096 == 0 && Granted(old(blocks), blocks, ptr, size, 4096 + 40)
    {
      if size == 0 {
        return 0, 0;
      }
      hide HeapOk, RoundUp, AlignedAt, Carve;
      var need := RoundUp(size, PAGE);
      RoundedUp(size, PAGE, need);
      Rounded8(size);
      var prev, cur;
      prev, cur, i := FindAligned(need);
      if cur == 0 {
        return 0, 0;
      }
      ptr := AlignedAt(cur);
      AlignedGrants(hdr, freeList, blocks, start, end, i, size, need);
      if ptr != cur + HDR {
        CarveTail(cur, ptr, need, i);
      } else {
        Take(prev, cur, need, i);
      }
    }

    /** The aligned payload starts inside the block: the part in front stays free, and so does a large enough rest. */
    method CarveTail(cur: nat, aligned: nat, size: nat, ghost i: nat)
      requires Valid() && i < |blocks| && FitsAligned(blocks[i], size) && blocks[i].addr == cur
      requires aligned == AlignedAt(cur) != cur + HDR && size % 8 == 0
      modifies this
      ensures Valid() && blocks == Put(old(blocks), i, 1, CarveAligned(old(blocks)[i], size))
    {
      hide Tiles, FreeAddrs, NoFreeNeighbours, Linked, AlignedAt;
      CarveAlignedShape(blocks[i], size);
      PutApart(blocks, i, CarveAligned(blocks[i], size));
      Neighbours(hdr, freeList, blocks, start, end, i);
      LinkInto(hdr, freeList, blocks, start, end, i);
      var alignedBlock := aligned - HDR;
      var waste := aligned - (cur + HDR);
      var remaining := hdr[cur].size - waste - size;
      if remaining >= HDR + MIN {
        var tail := alignedBlock + HDR + size;
        hdr := hdr[alignedBlock := Header(size, 0, MAGIC_ALLOC)];
        hdr := hdr[cur := hdr[cur].(size := waste - HDR)];
        hdr := hdr[tail := Header(remaining - HDR, hdr[cur].next, MAGIC_FREE)];
        hdr := hdr[cur := hdr[cur].(next := tail)];
        TailPut(old(hdr), freeList, blocks, start, end, i, size, hdr);
      } else {
        hdr := hdr[alignedBlock := Header(size, 0, MAGIC_ALLOC)];
        hdr := hdr[cur := hdr[cur].(size := waste - HDR)];
        hdr := hdr[alignedBlock := hdr[alignedBlock].(size := hdr[alignedBlock].size + remaining)];
        TailPut(old(hdr), freeList, blocks, start, end, i, size, hdr);
      }
      blocks := Put(blocks, i, 1, CarveAligned(blocks[i], size));
    }

    /** The walk of kfree: the free blocks on either side of `block`. */
    method FindPlace(block: nat, ghost i: nat) returns (prev: nat, cur: nat)
      requires Valid() && i < |blocks| && !blocks[i].free && blocks[i].addr == block
      ensures prev == LastOr0(FreeAddrs(blocks[..i])) && cur == NextIn(FreeAddrs(blocks[i + 1..]), 0)
    {
      hide Tiles, FreeAddrs, NoFreeNeighbours, Aligned8, HeadersOk;
      ghost var before, after := FreeAddrs(blocks[..i]), FreeAddrs(blocks[i + 1..]);
      AroundUsed(blocks, start, end, i);
      prev, cur := 0, freeList;
      ghost var j := 0;
      while cur != 0 && cur < block
        invariant j <= |before| && cur == NextIn(before + after, j) && prev == LastOr0((before + after)[..j])
        decreases |before| - j
      {
        prev, cur := cur, hdr[cur].next;
        j := j + 1;
      }
      assert (before + after)[..|before|] == before;
    }

    /**
     * kfree: the block becomes free and is merged with its free neighbours; freeing null, a
     * free block, or one that was merged into another and not reused since, does nothing.
     */
    method Free(ptr: nat, ghost i: nat)
      requires Valid() && (ptr == 0 || (HDR <= ptr && ptr - HDR in hdr))
      requires ptr != 0 && hdr[ptr - HDR].magic == MAGIC_ALLOC ==> i < |blocks| && ptr == blocks[i].addr + HDR
      modifies this
      ensures Valid()
      ensures blocks ==
        if ptr == 0 || old(hdr[ptr - HDR]).magic != MAGIC_ALLOC then old(blocks) else Freed(old(blocks), i)
      ensures ptr != 0 && old(hdr[ptr - HDR]).magic == MAGIC_ALLOC ==>
        Used(blocks) == Used(old(blocks)) - {old(blocks)[i]}
      ensures ptr != 0 && i < |old(blocks)| && ptr == old(blocks)[i].addr + HDR ==>
        (old(hdr[ptr - HDR]).magic == MAGIC_ALLOC <==> !old(blocks)[i].free)
    {
      if ptr == 0 {
        return;
      }
      hide Tiles, FreeAddrs, NoFreeNeighbours, Linked, Aligned8;
      var block := ptr - HDR;
      if hdr[block].magic != MAGIC_ALLOC {
        return;
      }
      FreedUsed(blocks, start, end, i);
      var prev, cur := FindPlace(block, i);
      Insert(block, prev, cur, i);
    }

    method Insert(block: nat, prev: nat, cur: nat, ghost i: nat)
      requires Valid() && i < |blocks| && !blocks[i].free && blocks[i].addr == block
      requires prev == LastOr0(FreeAddrs(blocks[..i])) && cur == NextIn(FreeAddrs(blocks[i + 1..]), 0)
      modifies this
      ensures Valid() && blocks == Freed(old(blocks), i)
    {
      hide Tiles, FreeAddrs, NoFreeNeighbours, Linked, Aligned8;
      NextNeighbour(hdr, freeList, blocks, start, end, i);
      PrevNeighbour(hdr, freeList, blocks, start, end, i);
      hdr := hdr[block := hdr[block].(magic := MAGIC_FREE, next := cur)];
      if prev != 0 {
        hdr := hdr[prev := hdr[prev].(next := block)];
      } else {
        freeList := block;
      }
      if cur != 0 && block + HDR + hdr[block].size == cur {
        hdr := hdr[block := hdr[block].(size := hdr[block].size + HDR + hdr[cur].size, next := hdr[cur].next)];
      }
      if prev != 0 && hdr[prev].magic == MAGIC_FREE && prev + HDR + hdr[prev].size == block {
        hdr := hdr[prev := hdr[prev].(size := hdr[prev].size + HDR + hdr[block].size, next := hdr[block].next)];
      }
      InsertPut(old(hdr), old(freeList), blocks, start, end, i, prev, cur, hdr, freeList);
      blocks := Freed(blocks, i);
    }
  }

  lemma CarveGrants(hdr: map<nat, Header>, head: nat, bs: seq<Block>, lo: nat, hi: nat, i: nat, size: nat, need: nat)
    requires HeapOk(hdr, head, bs, lo, hi) && i < |bs| && bs[i].free && size <= need < size + 16 && need <= bs[i].size
    ensures Granted(bs, Put(bs, i, 1, Carve(bs[i], need)), bs[i].addr + 24, size, 16 + 40)
  {
    GrantedBy(bs, lo, hi, i, Carve(bs[i], need), 0, size, 16 + 40);
  }

  lemma AlignedGrants(hdr: map<nat, Header>, head: nat, bs: seq<Block>, lo: nat, hi: nat, i: nat, size: nat, need: nat)
    requires HeapOk(hdr, head, bs, lo, hi) && i < |bs| && FitsAligned(bs[i], need) && size <= need < size + 4096
    ensures Granted(bs, Put(bs, i, 1, CarveAligned(bs[i], need)), AlignedAt(bs[i].addr), size, 4096 + 40)
  {
    hide AlignedAt, Granted, Put;
    var j := if AlignedAt(bs[i].addr) == bs[i].addr + HDR then 0 else 1;
    GrantedBy(bs, lo, hi, i, CarveAligned(bs[i], need), j, size, 4096 + 40);
  }

  /** The free list around an allocated block. */
  lemma {:induction false} AroundUsed(bs: seq<Block>, lo: nat, hi: nat, i: nat)
    requires Tiles(bs, lo, hi) && i < |bs| && !bs[i].free
    ensures var before, after := FreeAddrs(bs[..i]), FreeAddrs(bs[i + 1..]);
            && FreeAddrs(bs) == before + after
            && (forall k :: 0 <= k < |before| ==> lo <= before[k] < bs[i].addr)
            && (forall k :: 0 <= k < |after| ==> bs[i].End() <= after[k])
  {
    assert bs == bs[..i] + [bs[i]] + bs[i + 1..];
    FreeConcat(bs[..i], [bs[i]]);
    FreeConcat(bs[..i] + [bs[i]], bs[i + 1..]);
    FreeOfOne(bs[i]);
    SortedBefore(bs, lo, hi, i, 1);
  }

  function Freed(bs: seq<Block>, i: nat): seq<Block>
    requires i < |bs|
  {
    Put(bs, MergeFrom(bs, i), MergeCount(bs, i), [Merged(bs, i)])
  }

  /** The next free block touches block `i` exactly when it is the next block. */
  lemma {:induction false} NextNeighbour(hdr: map<nat, Header>, head: nat, bs: seq<Block>, lo: nat, hi: nat, i: nat)
    requires HeapOk(hdr, head, bs, lo, hi) && i < |bs|
    ensures var after := FreeAddrs(bs[i + 1..]);
            if i + 1 < |bs| && bs[i + 1].free then
              && after == [bs[i].End()] + FreeAddrs(bs[i + 2..]) && bs[i + 1].addr == bs[i].End() && 0 < bs[i].End()
              && bs[i].End() in hdr && hdr[bs[i].End()].next == NextIn(FreeAddrs(bs[i + 2..]), 0)
              && hdr[bs[i].End()].size == bs[i + 1].size
            else NextIn(after, 0) != bs[i].End()
  {
    var after := FreeAddrs(bs[i + 1..]);
    StartsInside(bs, lo, hi, i);
    if i + 1 < |bs| {
      BlocksTouch(bs, lo, hi, i);
      assert bs[i + 1..][1..] == bs[i + 2..] && bs[i + 1..][0] == bs[i + 1];
      if bs[i + 1].free {
        hide Linked;
        Neighbours(hdr, head, bs, lo, hi, i + 1);
        assert bs[i + 1 + 1..] == bs[i + 2..];
      } else {
        SortedBefore(bs, lo, hi, i + 1, 1);
        assert after == FreeAddrs(bs[i + 2..]);
        assert after != [] ==> bs[i + 1].End() <= after[0];
      }
    } else {
      assert bs[i + 1..] == [];
    }
  }

  /** The previous free block touches block `i` exactly when it is the previous block. */
  lemma {:induction false} PrevNeighbour(hdr: map<nat, Header>, head: nat, bs: seq<Block>, lo: nat, hi: nat, i: nat)
    requires HeapOk(hdr, head, bs, lo, hi) && i < |bs|
    ensures var before := FreeAddrs(bs[..i]);
            && (before != [] ==>
                  LastOr0(before) in hdr && 0 < LastOr0(before) < bs[i].addr
                  && hdr[LastOr0(before)].magic == MAGIC_FREE)
            && if i > 0 && bs[i - 1].free then
                 before == FreeAddrs(bs[..i - 1]) + [bs[i - 1].addr] && bs[i - 1].End() == bs[i].addr
                 && hdr[bs[i - 1].addr].size == bs[i - 1].size
               else before != [] ==> LastOr0(before) + HDR + hdr[LastOr0(before)].size != bs[i].addr
  {
    hide Linked;
    var before := FreeAddrs(bs[..i]);
    if before != [] {
      var m := ListedIsFree(bs[..i], LastOr0(before));
      StartsInside(bs, lo, hi, m);
      BlocksApart(bs, lo, hi, m, i);
      if !(i > 0 && bs[i - 1].free) {
        assert m < i - 1;
        BlocksApart(bs, lo, hi, m, i - 1);
        BlocksTouch(bs, lo, hi, i - 1);
      }
    }
    if i > 0 && bs[i - 1].free {
      BlocksTouch(bs, lo, hi, i - 1);
      assert bs[..i] == bs[..i - 1] + [bs[i - 1]];
      FreeConcat(bs[..i - 1], [bs[i - 1]]);
      FreeOfOne(bs[i - 1]);
    }
  }

  lemma {:induction false} FreedApart(bs: seq<Block>, i: nat)
    requires NoFreeNeighbours(bs) && i < |bs| && !bs[i].free
    ensures NoFreeNeighbours(Freed(bs, i))
  {
    var lo, n := MergeFrom(bs, i), MergeCount(bs, i);
    var p := Freed(bs, i);
    forall k | 0 <= k < |p| - 1 ensures !(p[k].free && p[k + 1].free) {
      if k + 1 < lo {
        assert p[k] == bs[k] && p[k + 1] == bs[k + 1];
      } else if k + 1 == lo {
        assert p[k] == bs[k];
        if lo == i - 1 {
          assert bs[i - 1].free && !bs[i - 2].free;
        }
      } else {
        var m := k + n - 1;
        assert p[k + 1] == bs[m + 1];
        if k == lo {
          assert m + 1 == lo + n;
          assert lo + n == i + 2 ==> !(bs[i + 1].free && bs[i + 2].free);
        } else {
          assert p[k] == bs[m];
        }
      }
    }
  }

  lemma {:induction false} FreedTiles(bs: seq<Block>, lo: nat, hi: nat, i: nat)
    requires Tiles(bs, lo, hi) && Aligned8(bs) && i < |bs|
    ensures var from, n := MergeFrom(bs, i), MergeCount(bs, i);
            var m := Merged(bs, i);
            Tiles([m], bs[from].addr, bs[from + n - 1].End()) && Aligned8([m]) && m.addr == bs[from].addr
            && m.End() == bs[from + n - 1].End()
  {
    hide Tiles;
    var from, n := MergeFrom(bs, i), MergeCount(bs, i);
    if n > 1 {
      BlocksTouch(bs, lo, hi, from);
      Sum8(bs[from].size, bs[from + 1].size);
    }
    if n > 2 {
      BlocksTouch(bs, lo, hi, from + 1);
      Sum8(bs[from].size + HDR + bs[from + 1].size, bs[from + 2].size);
    }
    TilesOne(Merged(bs, i));
  }

  lemma Sum8(a: nat, b: nat)
    requires a % 8 == 0 && b % 8 == 0
    ensures (a + HDR + b) % 8 == 0
  {
  }

  lemma {:induction false} FreedPut(hdr: map<nat, Header>, head: nat, bs: seq<Block>, lo: nat, hi: nat, i: nat,
                                    hdr': map<nat, Header>, head': nat)
    requires HeapOk(hdr, head, bs, lo, hi) && i < |bs| && !bs[i].free
    requires var from, n, m := MergeFrom(bs, i), MergeCount(bs, i), Merged(bs, i);
             var before, after := FreeAddrs(bs[..from]), FreeAddrs(bs[from + n..]);
             && m.addr in hdr' && hdr'[m.addr] == Header(m.size, NextIn(after, 0), MAGIC_FREE)
             && ChangedIn(hdr, hdr', m.addr, m.End(), before, m.addr)
             && head' == if before == [] then m.addr else head
    ensures HeapOk(hdr', head', Freed(bs, i), lo, hi)
  {
    hide Tiles, FreeAddrs, NoFreeNeighbours, Linked;
    var from, n, m := MergeFrom(bs, i), MergeCount(bs, i), Merged(bs, i);
    FreedTiles(bs, lo, hi, i);
    FreedApart(bs, i);
    FreeOfOne(m);
    var after := FreeAddrs(bs[from + n..]);
    assert ([m.addr] + after)[0] == m.addr && NextIn([m.addr] + after, 1) == NextIn(after, 0);
    PutOk(hdr, head, bs, lo, hi, from, n, [m], hdr', head');
  }

  /** The headers after kfree's pointer work: only `block` and `prev` changed, and how. */
  ghost predicate Inserted(hdr: map<nat, Header>, hdr': map<nat, Header>, block: nat, prev: nat, cur: nat,
                           withPrev: bool, withNext: bool)
    requires block in hdr && (prev != 0 ==> prev in hdr) && (withNext ==> cur in hdr)
  {
    var size := hdr[block].size + if withNext then HDR + hdr[cur].size else 0;
    var next := if withNext then hdr[cur].next else cur;
    && block in hdr' && hdr'[block] == Header(size, next, MAGIC_FREE)
    && (forall a :: a in hdr && a != block && (a == prev ==> prev == 0) ==> a in hdr' && hdr'[a] == hdr[a])
    && (prev != 0 ==> prev in hdr')
    && (prev != 0 && prev in hdr' ==>
          hdr'[prev] == if withPrev then hdr[prev].(size := hdr[prev].size + HDR + size, next := next)
            else hdr[prev].(next := block))
  }

  lemma {:induction false} InsertPut(hdr: map<nat, Header>, head: nat, bs: seq<Block>, lo: nat, hi: nat, i: nat,
                                     prev: nat, cur: nat,
                                     hdr': map<nat, Header>, head': nat)
    requires HeapOk(hdr, head, bs, lo, hi) && i < |bs| && !bs[i].free
    requires prev == LastOr0(FreeAddrs(bs[..i])) && cur == NextIn(FreeAddrs(bs[i + 1..]), 0)
    requires bs[i].addr in hdr && (prev != 0 ==> prev in hdr) && (i + 1 < |bs| && bs[i + 1].free ==> cur in hdr)
    requires Inserted(hdr, hdr', bs[i].addr, prev, cur, i > 0 && bs[i - 1].free, i + 1 < |bs| && bs[i + 1].free)
    requires head' == if prev == 0 then bs[i].addr else head
    ensures HeapOk(hdr', head', Freed(bs, i), lo, hi)
  {
    hide Tiles, FreeAddrs, NoFreeNeighbours, Linked, Aligned8;
    NextNeighbour(hdr, head, bs, lo, hi, i);
    PrevNeighbour(hdr, head, bs, lo, hi, i);
    FreedTiles(bs, lo, hi, i);
    if i > 0 && bs[i - 1].free {
      LinkInto(hdr, head, bs, lo, hi, i - 1);
      FreedPut(hdr, head, bs, lo, hi, i, hdr', head');
    } else {
      FreedPut(hdr, head, bs, lo, hi, i, hdr', head');
    }
  }

  lemma {:induction false} TailPut(hdr: map<nat, Header>, head: nat, bs: seq<Block>, lo: nat, hi: nat, i: nat,
                                   size: nat, hdr': map<nat, Header>)
    requires HeapOk(hdr, head, bs, lo, hi) && i < |bs| && FitsAligned(bs[i], size)
      && AlignedAt(bs[i].addr) != bs[i].addr + HDR && size % 8 == 0
    requires HeadersOk(hdr', CarveAligned(bs[i], size))
    requires forall a :: a in hdr && !(bs[i].addr <= a < bs[i].End()) ==> a in hdr' && hdr'[a] == hdr[a]
    requires var mid := CarveAligned(bs[i], size);
             var next := NextIn(FreeAddrs(bs[i + 1..]), 0);
             if |mid| == 3 then hdr'[mid[0].addr].next == mid[2].addr && hdr'[mid[2].addr].next == next
             else hdr'[mid[0].addr].next == next
    ensures HeapOk(hdr', head, Put(bs, i, 1, CarveAligned(bs[i], size)), lo, hi)
  {
    hide Tiles, FreeAddrs, NoFreeNeighbours, Linked, AlignedAt;
    var mid := CarveAligned(bs[i], size);
    CarveAlignedShape(bs[i], size);
    PutApart(bs, i, mid);
    Neighbours(hdr, head, bs, lo, hi, i);
    LinkInto(hdr, head, bs, lo, hi, i);
    PutOk(hdr, head, bs, lo, hi, i, 1, mid, hdr', head);
  }

  ghost predicate FirstAligned(bs: seq<Block>, need: nat, i: nat) {
    i < |bs| && FitsAligned(bs[i], need) && forall k :: 0 <= k < i ==> !FitsAligned(bs[k], need)
  }

  lemma Rounded8(size: nat)
    ensures RoundUp(size, 16) % 8 == 0 && RoundUp(size, PAGE) % 8 == 0
  {
    assert RoundUp(size, 16) == 8 * (2 * ((size + 15) / 16));
    assert RoundUp(size, PAGE) == 8 * (512 * ((size + PAGE - 1) / PAGE));
  }

  lemma PageIs8(a: nat)
    requires a % PAGE == 0
    ensures a % 8 == 0
  {
    assert a == 8 * (512 * (a / 4096));
  }

  lemma {:induction false} CarveAlignedShape(b: Block, size: nat)
    requires FitsAligned(b, size) && AlignedAt(b.addr) != b.addr + HDR && size % 8 == 0 && b.addr % 8 == 0
      && b.size % 8 == 0
    ensures var mid := CarveAligned(b, size);
            && Tiles(mid, b.addr, b.End()) && Aligned8(mid) && NoFreeNeighbours(mid)
            && FreeAddrs(mid) == if |mid| == 3 then [b.addr, mid[2].addr] else [b.addr]
  {
    hide AlignedAt, RoundUp, Tiles, FreeAddrs;
    var mid := CarveAligned(b, size);
    CarveAligned8(b, size);
    hide Aligned8;
    if |mid| == 3 {
      TilesThree(mid[0], mid[1], mid[2]);
      assert mid == [mid[0], mid[1], mid[2]];
      assert mid == [mid[0], mid[1]] + [mid[2]];
      FreeConcat([mid[0], mid[1]], [mid[2]]);
      FreeOfTwo(mid[0], mid[1]);
      FreeOfOne(mid[2]);
    } else {
      TilesTwo(mid[0], mid[1]);
      FreeOfTwo(mid[0], mid[1]);
      assert mid == [mid[0], mid[1]];
    }
  }

  lemma {:induction false} CarveAligned8(b: Block, size: nat)
    requires FitsAligned(b, size) && AlignedAt(b.addr) != b.addr + HDR && size % 8 == 0 && b.addr % 8 == 0
      && b.size % 8 == 0
    ensures Aligned8(CarveAligned(b, size))
  {
    var a := AlignedAt(b.addr);
    PageIs8(a);
    hide AlignedAt, RoundUp;
    Whole8(a, b.addr, b.size, size);
  }

  lemma Whole8(a: nat, addr: nat, all: nat, size: nat)
    requires a % 8 == 0 && addr % 8 == 0 && all % 8 == 0 && size % 8 == 0
    ensures (a - HDR - (addr + HDR)) % 8 == 0 && (a - HDR) % 8 == 0 && (a + size) % 8 == 0
    ensures (addr + HDR + all - a - size) % 8 == 0 && (addr + HDR + all - a - size - HDR) % 8 == 0
      && (addr + HDR + all - a) % 8 == 0
  {
    var x, y, z, w := a / 8, addr / 8, all / 8, size / 8;
    assert a == 8 * x && addr == 8 * y && all == 8 * z && size == 8 * w && HDR == 8 * 3;
  }

  /** The link into a free block. */
  lemma {:induction false} LinkInto(hdr: map<nat, Header>, head: nat, bs: seq<Block>, lo: nat, hi: nat, i: nat)
    requires HeapOk(hdr, head, bs, lo, hi) && i < |bs| && bs[i].free
    ensures var before := FreeAddrs(bs[..i]);
            if before == [] then head == bs[i].addr
              else before[|before| - 1] in hdr && hdr[before[|before| - 1]].next == bs[i].addr
  {
    hide HeadersOk;
    var before, after := FreeAddrs(bs[..i]), FreeAddrs(bs[i + 1..]);
    Neighbours(hdr, head, bs, lo, hi, i);
    Unlink(hdr, head, before, [bs[i].addr], after);
    assert before == [] ==> (before + [bs[i].addr] + after)[0] == bs[i].addr;
  }

  lemma {:induction false} NoneEarlierAligned(hdr: map<nat, Header>, bs: seq<Block>, need: nat, i: nat, j: nat)
    requires HeadersOk(hdr, bs) && j < |FreeAddrs(bs)| && i < |bs| && FreeAddrs(bs[..i]) == FreeAddrs(bs)[..j]
    requires forall k :: 0 <= k < j ==>
      FreeAddrs(bs)[k] in hdr && !FitsAligned(Block(FreeAddrs(bs)[k], hdr[FreeAddrs(bs)[k]].size, true), need)
    ensures forall k :: 0 <= k < i ==> !FitsAligned(bs[k], need)
  {
    forall k | 0 <= k < i ensures !FitsAligned(bs[k], need) {
      if bs[k].free {
        FreeBlocksListed(bs[..i], k);
        assert bs[k].addr in FreeAddrs(bs)[..j];
        assert bs[k] == Block(bs[k].addr, hdr[bs[k].addr].size, true);
      }
    }
  }

  lemma {:induction false} AllScannedAligned(hdr: map<nat, Header>, head: nat, bs: seq<Block>, lo: nat, hi: nat,
                                             need: nat, j: nat)
    requires HeapOk(hdr, head, bs, lo, hi) && j <= |FreeAddrs(bs)|
    requires NextIn(FreeAddrs(bs), j) == 0
      || (NextIn(FreeAddrs(bs), j) in hdr && hdr[NextIn(FreeAddrs(bs), j)].magic != MAGIC_FREE)
    requires forall k :: 0 <= k < j ==>
      FreeAddrs(bs)[k] in hdr && !FitsAligned(Block(FreeAddrs(bs)[k], hdr[FreeAddrs(bs)[k]].size, true), need)
    ensures forall k :: 0 <= k < |bs| ==> !FitsAligned(bs[k], need)
  {
    hide Linked;
    if j < |FreeAddrs(bs)| {
      var i := FreeAt(bs, j);
      StartsInside(bs, lo, hi, i);
    }
    assert j == |FreeAddrs(bs)|;
    forall k | 0 <= k < |bs| ensures !FitsAligned(bs[k], need) {
      if bs[k].free {
        FreeBlocksListed(bs, k);
        assert bs[k] == Block(bs[k].addr, hdr[bs[k].addr].size, true);
      }
    }
  }

  /** A free block of at least the rounded size + PAGE + 39 bytes always has room, wherever it lies. */
  lemma BigBlockFits(b: Block, size: nat)
    requires b.free && RoundUp(size, PAGE) + PAGE + HDR + MIN - 1 <= b.size
    ensures FitsAligned(b, RoundUp(size, PAGE))
  {
  }

  ghost predicate FirstFit(bs: seq<Block>, need: nat, i: nat) {
    i < |bs| && bs[i].free && need <= bs[i].size && forall k :: 0 <= k < i && bs[k].free ==> bs[k].size < need
  }

  lemma {:induction false} NoneEarlier(hdr: map<nat, Header>, bs: seq<Block>, need: nat, i: nat, j: nat)
    requires HeadersOk(hdr, bs) && j < |FreeAddrs(bs)| && i < |bs| && FreeAddrs(bs[..i]) == FreeAddrs(bs)[..j]
    requires forall k :: 0 <= k < j ==> FreeAddrs(bs)[k] in hdr && hdr[FreeAddrs(bs)[k]].size < need
    ensures forall k :: 0 <= k < i && bs[k].free ==> bs[k].size < need
  {
    forall k | 0 <= k < i && bs[k].free ensures bs[k].size < need {
      FreeBlocksListed(bs[..i], k);
      assert bs[k].addr in FreeAddrs(bs)[..j];
    }
  }

  lemma {:induction false} AllScanned(hdr: map<nat, Header>, head: nat, bs: seq<Block>, lo: nat, hi: nat, need: nat,
                                      j: nat)
    requires HeapOk(hdr, head, bs, lo, hi) && j <= |FreeAddrs(bs)|
    requires NextIn(FreeAddrs(bs), j) == 0
      || (NextIn(FreeAddrs(bs), j) in hdr && hdr[NextIn(FreeAddrs(bs), j)].magic != MAGIC_FREE)
    requires forall k :: 0 <= k < j ==> FreeAddrs(bs)[k] in hdr && hdr[FreeAddrs(bs)[k]].size < need
    ensures forall k :: 0 <= k < |bs| && bs[k].free ==> bs[k].size < need
  {
    hide Linked;
    if j < |FreeAddrs(bs)| {
      var i := FreeAt(bs, j);
      StartsInside(bs, lo, hi, i);
    }
    assert j == |FreeAddrs(bs)|;
    forall k | 0 <= k < |bs| && bs[k].free ensures bs[k].size < need {
      FreeBlocksListed(bs, k);
    }
  }

  // ----- freeing undoes allocating -----

  lemma {:induction false} PutBack(bs: seq<Block>, i: nat, mid: seq<Block>, j: nat, n: nat, b: Block)
    requires i < |bs| && j == i && n == |mid| && b == bs[i]
    ensures i + |mid| <= |Put(bs, i, 1, mid)| && Put(Put(bs, i, 1, mid), j, n, [b]) == bs
  {
    var p := Put(bs, i, 1, mid);
    assert p[..i] == bs[..i] && p[i + |mid|..] == bs[i + 1..];
    assert bs == bs[..i] + [bs[i]] + bs[i + 1..];
  }

  /** kfree right after kmalloc restores the heap, block for block. */
  lemma {:induction false} FreeUndoesMalloc(bs: seq<Block>, i: nat, size: nat)
    requires NoFreeNeighbours(bs) && i < |bs| && bs[i].free && size <= bs[i].size
    ensures Freed(Put(bs, i, 1, Carve(bs[i], size)), i) == bs
  {
    var mid := Carve(bs[i], size);
    var p := Put(bs, i, 1, mid);
    assert forall k :: 0 <= k < |mid| ==> p[i + k] == mid[k];
    assert i > 0 ==> p[i - 1] == bs[i - 1] && !bs[i - 1].free;
    if |mid| == 1 && i + 1 < |bs| {
      assert p[i + 1] == bs[i + 1] && !(bs[i].free && bs[i + 1].free);
    }
    PutBack(bs, i, mid, MergeFrom(p, i), MergeCount(p, i), Merged(p, i));
  }

  /** The same for a page-aligned allocation, whichever of the three shapes it took. */
  lemma {:induction false} FreeUndoesMallocAligned(bs: seq<Block>, i: nat, size: nat)
    requires NoFreeNeighbours(bs) && i < |bs| && FitsAligned(bs[i], size)
    ensures var mid := CarveAligned(bs[i], size);
            var k := if AlignedAt(bs[i].addr) == bs[i].addr + HDR then i else i + 1;
            k < |Put(bs, i, 1, mid)| && Put(bs, i, 1, mid)[k].addr + HDR == AlignedAt(bs[i].addr)
            && Freed(Put(bs, i, 1, mid), k) == bs
  {
    hide AlignedAt;
    var mid := CarveAligned(bs[i], size);
    var p := Put(bs, i, 1, mid);
    assert forall k :: 0 <= k < |mid| ==> p[i + k] == mid[k];
    if AlignedAt(bs[i].addr) == bs[i].addr + HDR {
      FreeUndoesMalloc(bs, i, size);
    } else {
      if |mid| == 2 && i + 1 < |bs| {
        assert p[i + 2] == bs[i + 1] && !(bs[i].free && bs[i + 1].free);
      }
      PutBack(bs, i, mid, MergeFrom(p, i + 1), MergeCount(p, i + 1), Merged(p, i + 1));
    }
  }

  /** Two live allocations never overlap, and both lie inside the heap. */
  lemma {:induction false} PayloadsDisjoint(hdr: map<nat, Header>, head: nat, bs: seq<Block>, lo: nat, hi: nat, i: nat,
                                            j: nat)
    requires HeapOk(hdr, head, bs, lo, hi) && i < |bs| && j < |bs| && i != j
    ensures bs[i].End() <= bs[j].addr || bs[j].End() <= bs[i].addr
    ensures lo < bs[i].addr + HDR && bs[i].End() <= hi && (bs[i].addr + HDR) % 8 == 0
  {
    StartsInside(bs, lo, hi, i);
    if i < j {
      BlocksApart(bs, lo, hi, i, j);
    } else {
      BlocksApart(bs, lo, hi, j, i);
    }
  }

  // ----- freeing everything -----

  /** The allocated blocks, by the addresses of their headers. */
  ghost function Live(bs: seq<Block>): set<nat> { set b | b in Used(bs) :: b.addr }

  lemma {:induction false} FreedLive(bs: seq<Block>, lo: nat, hi: nat, i: nat)
    requires Tiles(bs, lo, hi) && i < |bs| && !bs[i].free
    ensures Live(Freed(bs, i)) == Live(bs) - {bs[i].addr}
  {
    hide Freed, Used, Tiles;
    FreedUsed(bs, lo, hi, i);
    UsedIs(bs, i);
    forall b | b in Used(bs) && b != bs[i] ensures b.addr != bs[i].addr {
      UsedApart(bs, lo, hi, b, bs[i]);
    }
  }

  lemma LiveAt(hdr: map<nat, Header>, bs: seq<Block>, a: nat) returns (i: nat)
    requires HeadersOk(hdr, bs) && a in Live(bs)
    ensures i < |bs| && !bs[i].free && bs[i].addr == a && a in hdr
  {
    var b :| b in Used(bs) && b.addr == a;
    i := UsedAt(bs, b);
  }

  lemma NoneUsed(bs: seq<Block>)
    ensures Live(bs) == {} ==> Used(bs) == {}
  {
    if Used(bs) != {} {
      var b :| b in Used(bs);
      assert b.addr in Live(bs);
    }
  }

  /** A heap without allocated blocks is the one block it began as. */
  lemma {:induction false} NoneLive(bs: seq<Block>, lo: nat, hi: nat)
    requires Tiles(bs, lo, hi) && NoFreeNeighbours(bs) && Live(bs) == {} && lo + HDR <= hi
    ensures bs == [Block(lo, hi - lo - HDR, true)]
  {
    NoneUsed(bs);
    forall i | 0 <= i < |bs| ensures bs[i].free {
      UsedIs(bs, i);
    }
  }

  /** In whatever order all allocations are freed, the heap is the one initial block again. */
  method FreeAll(h: Heap, order: seq<nat>)
    requires h.Valid() && h.start + HDR <= h.end && (forall j, k :: 0 <= j < k < |order| ==> order[j] != order[k])
    requires (forall k :: 0 <= k < |order| ==> HDR <= order[k]) && forall a: nat :: a in Live(h.blocks) <==>
      a + HDR in order
    modifies h
    ensures h.Valid() && h.blocks == [Block(h.start, h.end - h.start - HDR, true)]
  {
    hide Freed, NoFreeNeighbours, Aligned8, Linked, FreeAddrs, Tiles, HeadersOk, Live;
    for k := 0 to |order|
      invariant h.Valid() && forall a: nat :: a in Live(h.blocks) <==> a + HDR in order[k..]
    {
      var ptr := order[k];
      assert ptr in order[k..];
      ghost var i := LiveAt(h.hdr, h.blocks, ptr - HDR);
      FreedLive(h.blocks, h.start, h.end, i);
      h.Free(ptr, i);
      assert order[k..] == [ptr] + order[k + 1..];
      assert ptr !in order[k + 1..];
    }
    assert Live(h.blocks) == {};
    NoneLive(h.blocks, h.start, h.end);
  }

  // ----- any run of calls -----

  /** `Free(k)` frees what call `k` returned. */
  datatype Call = Malloc(size: nat) | MallocAligned(size: nat) | Free(k: nat)

  type Owed = map<nat, nat>  // the pointers handed out and not freed, with the sizes asked for

  /** Every pointer has its block, large enough, and every allocated block its pointer. */
  ghost predicate Honours(bs: seq<Block>, owed: Owed) {
    && (forall p :: p in owed ==> Backed(bs, p, owed[p]))
    && forall b :: b in Used(bs) ==> b.addr + 24 in owed
  }

  ghost predicate Backed(bs: seq<Block>, p: nat, size: nat) {
    exists b :: b in Used(bs) && b.addr + 24 == p && size <= b.size
  }

  /** The bytes asked for lie inside the heap, and no two requests share one. */
  ghost predicate Apart(owed: Owed, lo: nat, hi: nat) {
    && (forall p :: p in owed ==> lo < p && p + owed[p] <= hi)
    && forall p, q :: p in owed && q in owed && p != q ==> p + owed[p] <= q || q + owed[q] <= p
  }

  /** A new pointer is none of those in use; the others keep their sizes. */
  ghost predicate Served(owed: Owed, call: Call, ptrs: seq<nat>, ptr: nat, owed': Owed) {
    match call
    case Malloc(size) => if ptr == 0 then owed' == owed else ptr !in owed && owed' == owed[ptr := size]
    case MallocAligned(size) =>
      if ptr == 0 then owed' == owed else ptr !in owed && ptr % 4096 == 0 && owed' == owed[ptr := size]
    case Free(k) => owed' == if k < |ptrs| then owed - {ptrs[k]} else owed
  }

  lemma BackedBy(bs: seq<Block>, owed: Owed, p: nat) returns (b: Block)
    requires Honours(bs, owed) && p in owed
    ensures b in Used(bs) && b.addr + 24 == p && owed[p] <= b.size
  {
    hide Used;
    assert Backed(bs, p, owed[p]);
    b :| b in Used(bs) && b.addr + 24 == p && owed[p] <= b.size;
  }

  lemma GrantedIs(bs: seq<Block>, bs': seq<Block>, ptr: nat, size: nat, waste: nat) returns (b: Block)
    requires Granted(bs, bs', ptr, size, waste)
    ensures b in Used(bs') && b.addr + 24 == ptr && size <= b.size && b !in Used(bs) && Used(bs') == Used(bs) + {b}
  {
    hide Used;
    b :| b in Used(bs') && b.addr + 24 == ptr && size <= b.size < size + waste && b !in Used(bs)
      && Used(bs') == Used(bs) + {b};
  }

  lemma HonoursMore(bs: seq<Block>, bs': seq<Block>, lo: nat, hi: nat, owed: Owed, ptr: nat, size: nat, waste: nat)
    requires Honours(bs, owed) && Granted(bs, bs', ptr, size, waste) && Tiles(bs', lo, hi)
    ensures ptr !in owed && Honours(bs', owed[ptr := size])
  {
    hide Used, Tiles, Granted, Backed;
    var b := GrantedIs(bs, bs', ptr, size, waste);
    assert ptr !in owed by {
      if ptr in owed {
        var c := BackedBy(bs, owed, ptr);
        UsedApart(bs', lo, hi, b, c);
      }
    }
    var more := owed[ptr := size];
    forall p | p in more ensures Backed(bs', p, more[p]) {
      if p == ptr {
        StaysBacked(bs', b, p, size);
      } else {
        var c := BackedBy(bs, owed, p);
        StaysBacked(bs', c, p, owed[p]);
      }
    }
  }

  lemma StaysBacked(bs: seq<Block>, b: Block, p: nat, size: nat)
    requires b in Used(bs) && b.addr + 24 == p && size <= b.size
    ensures Backed(bs, p, size)
  {
    hide Used;
  }

  lemma HonoursLess(bs: seq<Block>, bs': seq<Block>, lo: nat, hi: nat, owed: Owed, b: Block)
    requires Honours(bs, owed) && b in Used(bs) && Used(bs') == Used(bs) - {b} && Tiles(bs, lo, hi)
    ensures Honours(bs', owed - {b.addr + 24})
  {
    hide Used, Tiles, Backed;
    var less := owed - {b.addr + 24};
    forall p | p in less ensures Backed(bs', p, less[p]) {
      var c := BackedBy(bs, owed, p);
      StaysBacked(bs', c, p, owed[p]);
    }
    forall c | c in Used(bs') ensures c.addr + 24 in less {
      UsedApart(bs, lo, hi, b, c);
    }
  }

  lemma HonoursApart(bs: seq<Block>, lo: nat, hi: nat, owed: Owed)
    requires Honours(bs, owed) && Tiles(bs, lo, hi)
    ensures Apart(owed, lo, hi)
  {
    hide Used, Tiles, Honours;
    forall p | p in owed ensures lo < p && p + owed[p] <= hi {
      var b := BackedBy(bs, owed, p);
      var i := UsedAt(bs, b);
      StartsInside(bs, lo, hi, i);
    }
    forall p, q | p in owed && q in owed && p != q ensures p + owed[p] <= q || q + owed[q] <= p {
      var b := BackedBy(bs, owed, p);
      var c := BackedBy(bs, owed, q);
      UsedApart(bs, lo, hi, b, c);
    }
  }

  /** One call of a client that frees only what it holds. */
  method Serve(h: Heap, call: Call, ptrs: seq<nat>, held: set<nat>, ghost owed: Owed)
    returns (ptr: nat, held': set<nat>, ghost owed': Owed)
    requires h.Valid() && Honours(h.blocks, owed) && held == owed.Keys
    modifies h
    ensures h.Valid() && Honours(h.blocks, owed') && held' == owed'.Keys && Apart(owed', h.start, h.end)
    ensures Served(owed, call, ptrs, ptr, owed')
  {
    hide Honours, Apart, Granted, Tiles, NoFreeNeighbours, Aligned8, HeadersOk, Linked, FreeAddrs, RoundUp, AlignedAt,
         Carve, CarveAligned, Put, FirstFit, FirstAligned, Freed;
    ptr, held', owed' := 0, held, owed;
    ghost var i;
    match call {
      case Malloc(size) =>
        ptr, i := h.Malloc(size);
        if ptr != 0 {
          HonoursMore(old(h.blocks), h.blocks, h.start, h.end, owed, ptr, size, 16 + 40);
          held', owed' := held + {ptr}, owed[ptr := size];
        }
      case MallocAligned(size) =>
        ptr, i := h.MallocAligned(size);
        if ptr != 0 {
          HonoursMore(old(h.blocks), h.blocks, h.start, h.end, owed, ptr, size, 4096 + 40);
          held', owed' := held + {ptr}, owed[ptr := size];
        }
      case Free(k) =>
        if k < |ptrs| && ptrs[k] in held {
          Release(h, ptrs[k], owed);
          held', owed' := held - {ptrs[k]}, owed - {ptrs[k]};
        }
    }
    HonoursApart(h.blocks, h.start, h.end, owed');
  }

  method Release(h: Heap, ptr: nat, ghost owed: Owed)
    requires h.Valid() && Honours(h.blocks, owed) && ptr in owed
    modifies h
    ensures h.Valid() && Honours(h.blocks, owed - {ptr})
  {
    hide Used, Tiles, NoFreeNeighbours, Aligned8, Linked, FreeAddrs, Freed, Honours;
    ghost var b := BackedBy(h.blocks, owed, ptr);
    ghost var i := UsedAt(h.blocks, b);
    h.Free(ptr, i);
    HonoursLess(old(h.blocks), h.blocks, h.start, h.end, owed, b);
  }

  /**
   Any run of calls on a fresh heap. At every moment the bytes asked for by the requests
   not yet freed are inside the heap and shared by no two of them.
   */
  method Run(h: Heap, calls: seq<Call>) returns (ptrs: seq<nat>, ghost owed: seq<Owed>)
    requires h.Valid() && Used(h.blocks) == {}
    modifies h
    ensures h.Valid() && |ptrs| == |calls| && |owed| == |calls| + 1 && owed[0] == map[]
    ensures Honours(h.blocks, owed[|calls|])
    ensures forall j :: 0 <= j <= |calls| ==> Apart(owed[j], h.start, h.end)
    ensures forall j :: 0 <= j < |calls| ==> Served(owed[j], calls[j], ptrs[..j], ptrs[j], owed[j + 1])
  {
    hide Apart, Served, HeapOk;
    ptrs, owed := [], [map[]];
    var held: set<nat> := {};
    assert Apart(owed[0], h.start, h.end) by { NothingOwed(h.start, h.end); }
    for n := 0 to |calls|
      invariant h.Valid() && |ptrs| == n && |owed| == n + 1 && owed[0] == map[]
      invariant Honours(h.blocks, owed[n]) && held == owed[n].Keys
      invariant forall j :: 0 <= j <= n ==> Apart(owed[j], h.start, h.end)
      invariant forall j :: 0 <= j < n ==> Served(owed[j], calls[j], ptrs[..j], ptrs[j], owed[j + 1])
    {
      var ptr;
      ghost var next;
      ptr, held, next := Serve(h, calls[n], ptrs, held, owed[n]);
      assert (ptrs + [ptr])[..n] == ptrs;
      assert forall j :: 0 <= j < n ==> (ptrs + [ptr])[..j] == ptrs[..j];
      ptrs, owed := ptrs + [ptr], owed + [next];
    }
  }

  lemma NothingOwed(lo: nat, hi: nat)
    ensures Apart(map[], lo, hi)
  {}
}
