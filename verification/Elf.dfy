/**
 * Loading the segments of an ELF file (kernel/elf/elf_loader.c), eagerly or page by
 * page on demand (kernel/memory/mmap.c).
 */
module Elf {
  import opened Arith
  import opened Bytes

  const PAGE := 4096
  const VMA_MAX := 32

  /** A program header, with the load base already added to its address. */
  datatype Segment = Segment(load: bool, offset: nat, vaddr: nat, filesz: nat, memsz: nat)

  /** A demand-paged area: its file bytes are `data[dataOff..dataOff + dataLen]`. */
  datatype Vma = Vma(inUse: bool, start: nat, end: nat, dataOff: nat, dataLen: nat)

  type Page = seq<byte>

  function Down(a: nat): nat { a / PAGE * PAGE }

  function Up(a: nat): nat { (a + PAGE - 1) / PAGE * PAGE }

  function SegStart(s: Segment): nat { Down(s.vaddr) }

  function SegEnd(s: Segment): nat { Up(s.vaddr + s.memsz) }

  /** The segment lies in the file, and so does what the file has before it on the segment's first page. */
  predicate SegmentOk(s: Segment, size: nat) { InBounds(s, size) && Backed(s) }

  predicate InBounds(s: Segment, size: nat) { s.offset + s.filesz <= size }

  /** As when file offset and address agree modulo the page size, which the format demands. */
  predicate Backed(s: Segment) { s.vaddr % PAGE <= s.offset }

  /** The byte a segment puts at an address. */
  function SegByte(s: Segment, data: seq<byte>, a: nat): byte
    requires s.vaddr <= a
  {
    var i := s.offset + (a - s.vaddr);
    if a - s.vaddr < s.filesz && i < |data| then data[i] else 0
  }

  /**
   * The same, with what is seen before the segment on its first page: on demand, what the file
   * has there; else zeros.
   */
  function ShownByte(s: Segment, data: seq<byte>, a: nat, lazily: bool): byte {
    if s.vaddr <= a then SegByte(s, data, a)
    else if lazily && s.vaddr - a <= s.offset && s.offset - (s.vaddr - a) < |data| then data[s.offset - (s.vaddr - a)]
    else 0
  }

  // ----- one page of a segment, the two ways -----

  /** The page at `addr` as the eager branch fills it. */
  function EagerPage(s: Segment, data: seq<byte>, addr: nat): (r: Page)
    requires InBounds(s, |data|)
    ensures |r| == PAGE
  {
    var fileEnd := s.vaddr + s.filesz;
    var from := if s.vaddr > addr then s.vaddr else addr;
    var to := if fileEnd < addr + PAGE then fileEnd else addr + PAGE;
    if from < to then Splice(Zeros(PAGE), from - addr, data[s.offset + (from - s.vaddr)..s.offset + (to - s.vaddr)])
      else Zeros(PAGE)
  }

  /** The page at `addr` as the page-fault handler fills it. */
  function FaultPage(v: Vma, data: seq<byte>, addr: nat): (r: Page)
    requires v.dataOff + v.dataLen <= |data| && v.start <= addr
    ensures |r| == PAGE
  {
    var off := addr - v.start;
    if off < v.dataLen then
      var n := if v.dataLen - off > PAGE then PAGE else v.dataLen - off;
      Splice(Zeros(PAGE), 0, data[v.dataOff + off..v.dataOff + off + n])
    else Zeros(PAGE)
  }

  /** The area set up for a segment. */
  function AreaOf(s: Segment): Vma
    requires Backed(s)
  {
    var delta := s.vaddr - SegStart(s);
    Vma(true, SegStart(s), SegEnd(s), s.offset - delta, s.filesz + delta)
  }

  lemma EagerByte(s: Segment, data: seq<byte>, addr: nat, a: nat)
    requires InBounds(s, |data|) && addr <= a < addr + PAGE
    ensures EagerPage(s, data, addr)[a - addr] == ShownByte(s, data, a, false)
  {
    var fileEnd := s.vaddr + s.filesz;
    var from := if s.vaddr > addr then s.vaddr else addr;
    var to := if fileEnd < addr + PAGE then fileEnd else addr + PAGE;
    if from < to {
      var t := data[s.offset + (from - s.vaddr)..s.offset + (to - s.vaddr)];
      if from <= a < to {
        assert t[a - from] == data[s.offset + (a - s.vaddr)];
      }
    }
  }

  lemma FaultByte(s: Segment, data: seq<byte>, addr: nat, a: nat)
    requires SegmentOk(s, |data|) && SegStart(s) <= addr <= a < addr + PAGE
    ensures AreaOf(s).dataOff + AreaOf(s).dataLen <= |data| && AreaOf(s).start <= addr
    ensures FaultPage(AreaOf(s), data, addr)[a - addr] == ShownByte(s, data, a, true)
  {
  }

  /** From the segment's start on, demand loading and eager loading give the same bytes. */
  lemma DemandIsEager(s: Segment, data: seq<byte>, addr: nat, a: nat)
    requires SegmentOk(s, |data|) && SegStart(s) <= addr <= a < addr + PAGE && s.vaddr <= a
    ensures AreaOf(s).dataOff + AreaOf(s).dataLen <= |data|
    ensures FaultPage(AreaOf(s), data, addr)[a - addr] == EagerPage(s, data, addr)[a - addr]
  {
    FaultByte(s, data, addr, a);
    EagerByte(s, data, addr, a);
  }

  // ----- which segment a page shows -----

  /** The address belongs to the pages of the segment. */
  predicate Covers(s: Segment, a: nat) { s.load && SegStart(s) <= a < SegEnd(s) }

  /** A segment is given an area if loading on demand while slots last. */
  predicate TakesSlot(s: Segment, demand: bool, used: nat) { demand && s.load && used < VMA_MAX }

  /** Those of the first `n` segments that have an area, in the order of their slots. */
  function Lazy(segs: seq<Segment>, n: nat, demand: bool): (r: seq<nat>)
    requires n <= |segs|
    ensures |r| <= VMA_MAX && (forall j :: 0 <= j < |r| ==> r[j] < n && segs[r[j]].load)
    ensures forall j, k :: 0 <= j < k < |r| ==> r[j] < r[k]
  {
    if n == 0 then []
    else
      var r := Lazy(segs, n - 1, demand);
      if TakesSlot(segs[n - 1], demand, |r|) then r + [n - 1] else r
  }

  /** The last of the first `n` segments to be loaded at once onto the page, -1 if there is none. */
  function LastEager(segs: seq<Segment>, n: nat, demand: bool, p: nat): (i: int)
    requires n <= |segs|
    ensures -1 <= i < n && (i != -1 ==> Covers(segs[i], p))
  {
    if n == 0 then -1
    else if Covers(segs[n - 1], p) && !TakesSlot(segs[n - 1], demand, |Lazy(segs, n - 1, demand)|) then n - 1
    else LastEager(segs, n - 1, demand, p)
  }

  /** The first of the listed segments that has the page, -1 if there is none. */
  function FirstLazy(segs: seq<Segment>, list: seq<nat>, p: nat): (i: int)
    requires forall j :: 0 <= j < |list| ==> list[j] < |segs|
    ensures -1 <= i < |segs| && (i != -1 ==> i in list && Covers(segs[i], p))
  {
    if list == [] then -1 else if Covers(segs[list[0]], p) then list[0] else FirstLazy(segs, list[1..], p)
  }

  /** The segment a page is filled from: a page that is there is never faulted in. */
  function Owner(segs: seq<Segment>, demand: bool, p: nat): (i: int)
    ensures -1 <= i < |segs| && (i != -1 ==> Covers(segs[i], p))
  {
    var e := LastEager(segs, |segs|, demand, p);
    if e != -1 then e else FirstLazy(segs, Lazy(segs, |segs|, demand), p)
  }

  /** `page` is what the loader or the fault handler makes of page `p`. */
  predicate IsPage(segs: seq<Segment>, data: seq<byte>, demand: bool, p: nat, page: Page) {
    var e, f := LastEager(segs, |segs|, demand, p), FirstLazy(segs, Lazy(segs, |segs|, demand), p);
    if e != -1 then InBounds(segs[e], |data|) && page == EagerPage(segs[e], data, p)
    else f != -1 && SegmentOk(segs[f], |data|) && page == FaultPage(AreaOf(segs[f]), data, p)
  }

  /** The segment that owns the page is what is seen of it. */
  lemma OwnerShows(segs: seq<Segment>, data: seq<byte>, demand: bool, p: nat, page: Page, a: nat)
    requires IsPage(segs, data, demand, p, page) && p <= a < p + PAGE
    ensures Owner(segs, demand, p) != -1 && |page| == PAGE
    ensures page[a - p] == ShownByte(segs[Owner(segs, demand, p)], data, a, LastEager(segs, |segs|, demand, p) == -1)
  {
    hide EagerPage, FaultPage, ShownByte, LastEager, Lazy, FirstLazy;
    var i := Owner(segs, demand, p);
    EagerByte(segs[i], data, p, a);
    if LastEager(segs, |segs|, demand, p) == -1 {
      FaultByte(segs[i], data, p, a);
    }
  }

  lemma {:induction false} EagerIsLast(segs: seq<Segment>, n: nat, p: nat)
    requires n <= |segs|
    ensures forall k :: LastEager(segs, n, false, p) < k < n ==> !Covers(segs[k], p)
  {
    if n > 0 {
      EagerIsLast(segs, n - 1, p);
    }
  }

  lemma {:induction false} LazyIsFirst(segs: seq<Segment>, list: seq<nat>, p: nat)
    requires forall j :: 0 <= j < |list| ==> list[j] < |segs|
    requires forall j, k :: 0 <= j < k < |list| ==> list[j] < list[k]
    ensures FirstLazy(segs, list, p) == -1 ==> forall k :: k in list ==> !Covers(segs[k], p)
    ensures FirstLazy(segs, list, p) != -1 ==> forall k :: k in list && Covers(segs[k], p) ==>
      FirstLazy(segs, list, p) <= k
  {
    if list != [] {
      assert list == [list[0]] + list[1..];
      LazyIsFirst(segs, list[1..], p);
    }
  }

  function LoadCount(segs: seq<Segment>, n: nat): nat
    requires n <= |segs|
  {
    if n == 0 then 0 else LoadCount(segs, n - 1) + if segs[n - 1].load then 1 else 0
  }

  /** With no more loadable segments than slots, all have an area and none is loaded at once. */
  lemma {:induction false} AllLazy(segs: seq<Segment>, n: nat, p: nat)
    requires n <= |segs| && LoadCount(segs, n) <= VMA_MAX
    ensures |Lazy(segs, n, true)| == LoadCount(segs, n) && LastEager(segs, n, true, p) == -1
    ensures forall k: nat :: k < n && segs[k].load ==> k in Lazy(segs, n, true)
  {
    if n > 0 {
      AllLazy(segs, n - 1, p);
      assert forall k: nat :: k < n - 1 && segs[k].load ==> k in Lazy(segs, n - 1, true);
    }
  }

  /** Loaded at once, a page shows the last segment that has it. */
  lemma EagerShowsLast(segs: seq<Segment>, p: nat)
    ensures forall k: nat :: k < |segs| && Covers(segs[k], p) ==>
      Owner(segs, false, p) != -1 && k <= Owner(segs, false, p)
  {
    hide Covers;
    EagerIsLast(segs, |segs|, p);
  }

  /** Loaded on demand, with a slot for every segment, a page shows the first one that has it. */
  lemma DemandShowsFirst(segs: seq<Segment>, p: nat)
    requires LoadCount(segs, |segs|) <= VMA_MAX
    ensures forall k: nat :: k < |segs| && Covers(segs[k], p) ==>
      Owner(segs, true, p) != -1 && Owner(segs, true, p) <= k
  {
    AllLazy(segs, |segs|, p);
    LazyIsFirst(segs, Lazy(segs, |segs|, true), p);
  }

  /** No other segment has the page. */
  predicate Sole(segs: seq<Segment>, i: nat, p: nat) {
    i < |segs| && Covers(segs[i], p) && forall k: nat :: k < |segs| && k != i ==> !Covers(segs[k], p)
  }

  lemma {:induction false} LazyOrEager(segs: seq<Segment>, n: nat, demand: bool, i: nat, p: nat)
    requires i < n <= |segs| && Covers(segs[i], p)
    ensures LastEager(segs, n, demand, p) != -1 || i in Lazy(segs, n, demand)
  {
    if i < n - 1 {
      LazyOrEager(segs, n - 1, demand, i, p);
    }
  }

  /** A page only one segment has shows that segment, however it is loaded. */
  lemma SoleOwns(segs: seq<Segment>, demand: bool, i: nat, p: nat)
    requires Sole(segs, i, p)
    ensures Owner(segs, demand, p) == i
  {
    hide Covers;
    LazyOrEager(segs, |segs|, demand, i, p);
    LazyIsFirst(segs, Lazy(segs, |segs|, demand), p);
  }

  /** The pages of a segment: an address belongs to it with its whole page. */
  lemma CoversPage(s: Segment, a: nat)
    ensures Down(a) % PAGE == 0 && Down(a) <= a < Down(a) + PAGE && (Covers(s, a) <==> Covers(s, Down(a)))
  {
    Multiples(s.vaddr / PAGE, a / PAGE, PAGE);
    Multiples(a / PAGE, s.vaddr / PAGE, PAGE);
    var e := (s.vaddr + s.memsz + PAGE - 1) / PAGE;
    Multiples(e, a / PAGE, PAGE);
    Multiples(a / PAGE, e, PAGE);
  }

  // ----- what loading takes -----

  function PageCount(s: Segment): nat { (s.vaddr + s.memsz + PAGE - 1) / PAGE - s.vaddr / PAGE }

  /** The frames loading takes from segment `k` on: none for a segment that gets an area, one per page otherwise. */
  function FramesFor(segs: seq<Segment>, k: nat, demand: bool, used: nat): nat
    decreases |segs| - k
  {
    if k >= |segs| then 0
    else if !segs[k].load then FramesFor(segs, k + 1, demand, used)
    else if TakesSlot(segs[k], demand, used) then FramesFor(segs, k + 1, demand, used + 1)
    else PageCount(segs[k]) + FramesFor(segs, k + 1, demand, used)
  }

  /** The loadable ones of the first `n` segments lie within the file. */
  predicate InFile(segs: seq<Segment>, n: nat, size: nat) {
    forall i :: 0 <= i < n && i < |segs| && segs[i].load ==> InBounds(segs[i], size)
  }

  predicate AllBacked(segs: seq<Segment>) { forall i :: 0 <= i < |segs| && segs[i].load ==> Backed(segs[i]) }

  // ----- the state of an image -----

  /** The areas are those of the listed segments, in order; the other slots are free. */
  ghost predicate AreasAre(vmas: seq<Vma>, segs: seq<Segment>, list: seq<nat>) {
    && |vmas| == VMA_MAX && |list| <= VMA_MAX
    && (forall j :: 0 <= j < |list| ==> list[j] < |segs| && Backed(segs[list[j]]) && vmas[j] == AreaOf(segs[list[j]]))
    && forall j :: |list| <= j < VMA_MAX ==> !vmas[j].inUse
  }

  /** The pages after the first `n` segments were dealt with: those loaded at once. */
  ghost predicate PagesAre(pages: map<nat, Page>, segs: seq<Segment>, data: seq<byte>, n: nat, demand: bool)
    requires n <= |segs|
  {
    && (forall p :: p in pages <==> p >= 0 && p % PAGE == 0 && LastEager(segs, n, demand, p) != -1)
    && forall p :: p in pages ==> EagerFrom(segs, data, LastEager(segs, n, demand, p), p, pages[p])
  }

  predicate EagerFrom(segs: seq<Segment>, data: seq<byte>, i: int, p: nat, page: Page) {
    0 <= i < |segs| && InBounds(segs[i], |data|) && page == EagerPage(segs[i], data, p)
  }

  /** Segment `i` was laid over the pages. */
  ghost predicate LaidOver(pages: map<nat, Page>, pages': map<nat, Page>, s: Segment, data: seq<byte>, to: nat)
    requires InBounds(s, |data|)
  {
    && (forall p :: p in pages' <==> p in pages || (p >= 0 && p % PAGE == 0 && Covers(s, p) && p < to))
    && forall p :: p in pages' ==>
      pages'[p] == if p % PAGE == 0 && Covers(s, p) && p < to then EagerPage(s, data, p) else pages[p]
  }

  /** Whatever page is there, some segment put it there. */
  ghost predicate Sound(pages: map<nat, Page>, segs: seq<Segment>, data: seq<byte>) {
    forall p :: p in pages ==> exists i :: EagerFrom(segs, data, i, p, pages[p]) && Covers(segs[i], p)
  }

  lemma SoundAt(pages: map<nat, Page>, segs: seq<Segment>, data: seq<byte>, n: nat, demand: bool)
    requires n <= |segs| && PagesAre(pages, segs, data, n, demand)
    ensures Sound(pages, segs, data)
  {
    hide EagerPage, InBounds, Lazy, LastEager;
  }

  lemma SoundStill(before: map<nat, Page>, pages: map<nat, Page>, segs: seq<Segment>, data: seq<byte>, i: nat)
    requires i < |segs| && InBounds(segs[i], |data|) && Sound(before, segs, data)
      && exists to: nat :: LaidOver(before, pages, segs[i], data, to)
    ensures Sound(pages, segs, data)
  {
    hide EagerPage, Covers;
    var to: nat :| LaidOver(before, pages, segs[i], data, to);
    forall p | p in pages ensures exists k :: EagerFrom(segs, data, k, p, pages[p]) && Covers(segs[k], p) {
      if p % PAGE == 0 && Covers(segs[i], p) && p < to {
        assert EagerFrom(segs, data, i, p, pages[p]);
      } else {
        var k :| EagerFrom(segs, data, k, p, before[p]) && Covers(segs[k], p);
        assert EagerFrom(segs, data, k, p, pages[p]);
      }
    }
  }

  lemma PagesAfter(pages: map<nat, Page>, pages': map<nat, Page>, segs: seq<Segment>, data: seq<byte>, n: nat,
                   demand: bool)
    requires n < |segs| && InBounds(segs[n], |data|) && PagesAre(pages, segs, data, n, demand)
    requires !TakesSlot(segs[n], demand, |Lazy(segs, n, demand)|)
      && LaidOver(pages, pages', segs[n], data, SegEnd(segs[n]))
    ensures PagesAre(pages', segs, data, n + 1, demand)
  {
    hide EagerPage, TakesSlot, InBounds, Lazy;
    forall p: nat
      ensures LastEager(segs, n + 1, demand, p) == if Covers(segs[n], p) then n else LastEager(segs, n, demand, p)
    {
    }
  }

  lemma PagesStay(pages: map<nat, Page>, segs: seq<Segment>, data: seq<byte>, n: nat, demand: bool)
    requires n < |segs| && PagesAre(pages, segs, data, n, demand)
      && (!segs[n].load || TakesSlot(segs[n], demand, |Lazy(segs, n, demand)|))
    ensures PagesAre(pages, segs, data, n + 1, demand)
  {
    hide EagerPage, Lazy;
    forall p: nat ensures LastEager(segs, n + 1, demand, p) == LastEager(segs, n, demand, p) {
    }
  }

  lemma AreaAdded(vmas: seq<Vma>, segs: seq<Segment>, list: seq<nat>, n: nat)
    requires AreasAre(vmas, segs, list) && |list| < VMA_MAX && n < |segs| && Backed(segs[n])
    ensures AreasAre(vmas[|list| := AreaOf(segs[n])], segs, list + [n]) && AreaOf(segs[n]).inUse
  {
  }

  class Image {
    const data: seq<byte>
    const segs: seq<Segment>
    var vmas: seq<Vma>
    var pages: map<nat, Page>

    /** The first `n` segments have been dealt with, and no page was faulted in. */
    ghost predicate Upto(n: nat, demand: bool)
      requires n <= |segs|
      reads this
    {
      AllBacked(segs) && AreasAre(vmas, segs, Lazy(segs, n, demand)) && PagesAre(pages, segs, data, n, demand)
    }

    /** Nothing is loaded yet. */
    ghost predicate Fresh()
      reads this
    {
      Upto(0, false)
    }

    /** All is loaded; each page that is there is what the page should be. */
    ghost predicate Loaded(demand: bool)
      reads this
    {
      && AllBacked(segs) && InFile(segs, |segs|, |data|) && AreasAre(vmas, segs, Lazy(segs, |segs|, demand))
      && (forall p: nat :: p % PAGE == 0 && LastEager(segs, |segs|, demand, p) != -1 ==> p in pages)
      && forall p :: p in pages ==> p % PAGE == 0 && IsPage(segs, data, demand, p, pages[p])
    }

    constructor (data: seq<byte>, segs: seq<Segment>)
      requires AllBacked(segs)
      ensures Fresh() && this.data == data && this.segs == segs && pages == map[]
    {
      this.data, this.segs := data, segs;
      vmas := seq(VMA_MAX, _ => Vma(false, 0, 0, 0, 0));
      pages := map[];
    }

    /** vma_alloc: the first free slot. */
    method FreeSlot() returns (j: int)
      requires |vmas| == VMA_MAX
      ensures -1 <= j < VMA_MAX && (j >= 0 ==> !vmas[j].inUse)
      ensures forall k :: 0 <= k < (if j < 0 then VMA_MAX else j) ==> vmas[k].inUse
    {
      for k := 0 to VMA_MAX
        invariant forall i :: 0 <= i < k ==> vmas[i].inUse
      {
        if !vmas[k].inUse {
          return k;
        }
      }
      return -1;
    }

    /** The eager branch for one segment: it fails exactly if its pages outnumber the frames. */
    method LoadEagerly(i: nat, frames: nat) returns (ok: bool, left: nat)
      requires i < |segs| && segs[i].load && InBounds(segs[i], |data|)
      modifies `pages
      ensures ok <==> PageCount(segs[i]) <= frames
      ensures ok ==> left == frames - PageCount(segs[i]) && LaidOver(old(pages), pages, segs[i], data, SegEnd(segs[i]))
      ensures !ok ==> exists to: nat :: LaidOver(old(pages), pages, segs[i], data, to)
    {
      hide EagerPage;
      var s := segs[i];
      var addr := s.vaddr / PAGE * PAGE;
      var end := (s.vaddr + s.memsz + PAGE - 1) / PAGE * PAGE;
      left := frames;
      ghost var n := 0;
      while addr < end
        invariant n <= PageCount(s) && addr == (s.vaddr / PAGE + n) * PAGE && left + n == frames
        invariant LaidOver(old(pages), pages, s, data, addr)
      {
        if left == 0 {
          return false, 0;
        }
        left := left - 1;
        LayPage(old(pages), pages, s, data, addr);
        pages := pages[addr := EagerPage(s, data, addr)];
        addr := addr + PAGE;
        n := n + 1;
      }
      ok := true;
    }

    /**
     * elf_load_segments: it succeeds exactly if all segments lie in the file and there are
     * frames for those without an area.
     */
    method Load(demand: bool, frames: nat) returns (r: int)
      requires Fresh()
      modifies this
      ensures r == if InFile(segs, |segs|, |data|) && FramesFor(segs, 0, demand, 0) <= frames then 0 else -1
      ensures r == 0 ==> Loaded(demand)
      ensures r == -1 ==> Sound(pages, segs, data)
    {
      hide PageCount, AreasAre, PagesAre, LaidOver, EagerPage, Sound;
      var left := frames;
      assert Upto(0, demand) by { NothingYet(vmas, pages, segs, data, demand); }
      for i := 0 to |segs|
        invariant Upto(i, demand) && InFile(segs, i, |data|)
        invariant FramesFor(segs, 0, demand, 0) <= frames <==>
          FramesFor(segs, i, demand, |Lazy(segs, i, demand)|) <= left
      {
        if !segs[i].load {
          PagesStay(pages, segs, data, i, demand);
          continue;
        }
        SoundAt(pages, segs, data, i, demand);
        if segs[i].offset + segs[i].filesz > |data| {
          return -1;
        }
        var j := -1;
        if demand {
          j := TakeArea(i);
        }
        if j >= 0 {
          PagesStay(pages, segs, data, i, demand);
        } else {
          ghost var before := pages;
          var ok;
          ok, left := LoadEagerly(i, left);
          if !ok {
            SoundStill(before, pages, segs, data, i);
            return -1;
          }
          PagesAfter(before, pages, segs, data, i, demand);
        }
      }
      AllLoaded(vmas, pages, segs, data, demand);
      r := 0;
    }

    /** The demand branch for one segment: an area, unless all slots are in use. */
    method TakeArea(i: nat) returns (j: int)
      requires i < |segs| && Upto(i, true) && segs[i].load
      modifies `vmas
      ensures j >= 0 <==> TakesSlot(segs[i], true, |Lazy(segs, i, true)|)
      ensures AreasAre(vmas, segs, Lazy(segs, i + 1, true)) && (j < 0 ==> vmas == old(vmas))
    {
      hide PagesAre, Lazy;
      ghost var list := Lazy(segs, i, true);
      j := FreeSlot();
      SlotIs(vmas, segs, list, j);
      NextLazy(segs, i);
      if j >= 0 {
        AreaAdded(vmas, segs, list, i);
        vmas := vmas[j := AreaOf(segs[i])];
      }
    }

    /** vma_find: the first area the address lies in. */
    method FindArea(a: nat) returns (j: int)
      requires |vmas| == VMA_MAX
      ensures -1 <= j < VMA_MAX && (j >= 0 ==> InArea(vmas[j], a))
      ensures forall k :: 0 <= k < (if j < 0 then VMA_MAX else j) ==> !InArea(vmas[k], a)
    {
      for k := 0 to VMA_MAX
        invariant forall m :: 0 <= m < k ==> !InArea(vmas[m], a)
      {
        if vmas[k].inUse && a >= vmas[k].start && a < vmas[k].end {
          return k;
        }
      }
      return -1;
    }

    /** vma_handle_fault for an ELF area: the page the address lies in is filled and mapped. */
    method HandleFault(a: nat, frames: nat, ghost demand: bool) returns (r: int)
      requires Loaded(demand) && Down(a) !in pages
      modifies `pages
      ensures Loaded(demand) && (r == 0 || r == -1)
      ensures r == 0 <==> frames > 0 && Owner(segs, demand, Down(a)) != -1
      ensures r == 0 ==> pages.Keys == old(pages.Keys) + {Down(a)}
      ensures r == -1 ==> pages == old(pages)
    {
      hide AreasAre, EagerPage, FaultPage, Lazy, LastEager, FirstLazy;
      ghost var list := Lazy(segs, |segs|, demand);
      AreaCount(vmas, segs, list);
      var j := FindArea(a);
      FoundIs(vmas, segs, list, a, j);
      assert LastEager(segs, |segs|, demand, Down(a)) == -1;
      if j < 0 || frames == 0 {
        return -1;
      }
      var p := a / PAGE * PAGE;
      AreaHolds(vmas, segs, data, list, a, j);
      pages := pages[p := FaultPage(vmas[j], data, p)];
      r := 0;
    }

    /** A user access: the byte at `a`, through a page fault when the page is not there. */
    method ReadByte(a: nat, frames: nat, ghost demand: bool) returns (ok: bool, b: byte)
      requires Loaded(demand)
      modifies `pages
      ensures Loaded(demand) && (ok <==> Owner(segs, demand, Down(a)) != -1 && (frames > 0 || old(Down(a) in pages)))
      ensures ok ==> Down(a) in pages && IsPage(segs, data, demand, Down(a), pages[Down(a)])
      ensures ok ==> |pages[Down(a)]| == PAGE && b == pages[Down(a)][a % PAGE]
    {
      hide AreasAre, EagerPage, FaultPage, Lazy, LastEager, FirstLazy;
      b := 0;
      var p := a / PAGE * PAGE;
      if p !in pages {
        var r := HandleFault(a, frames, demand);
        if r != 0 {
          return false, 0;
        }
      }
      PageSize(segs, data, demand, p, pages[p]);
      ok, b := true, pages[p][a % PAGE];
    }
  }

  predicate InArea(v: Vma, a: nat) { v.inUse && v.start <= a < v.end }

  lemma LayPage(before: map<nat, Page>, pages: map<nat, Page>, s: Segment, data: seq<byte>, addr: nat)
    requires InBounds(s, |data|) && LaidOver(before, pages, s, data, addr) && addr % PAGE == 0 && Covers(s, addr)
    ensures LaidOver(before, pages[addr := EagerPage(s, data, addr)], s, data, addr + PAGE)
  {
    hide EagerPage;
    assert forall p: nat :: p % PAGE == 0 && p < addr + PAGE ==> p <= addr;
  }

  lemma NothingYet(vmas: seq<Vma>, pages: map<nat, Page>, segs: seq<Segment>, data: seq<byte>, demand: bool)
    requires AreasAre(vmas, segs, Lazy(segs, 0, false)) && PagesAre(pages, segs, data, 0, false)
    ensures AreasAre(vmas, segs, Lazy(segs, 0, demand)) && PagesAre(pages, segs, data, 0, demand)
  {
  }

  lemma AllLoaded(vmas: seq<Vma>, pages: map<nat, Page>, segs: seq<Segment>, data: seq<byte>, demand: bool)
    requires PagesAre(pages, segs, data, |segs|, demand)
    ensures forall p: nat :: p % PAGE == 0 && LastEager(segs, |segs|, demand, p) != -1 ==> p in pages
    ensures forall p :: p in pages ==> p % PAGE == 0 && IsPage(segs, data, demand, p, pages[p])
  {
    hide EagerPage, FaultPage, LastEager, FirstLazy, Lazy;
  }

  lemma AreaCount(vmas: seq<Vma>, segs: seq<Segment>, list: seq<nat>)
    requires AreasAre(vmas, segs, list)
    ensures |vmas| == VMA_MAX
  {
  }

  lemma SlotIs(vmas: seq<Vma>, segs: seq<Segment>, list: seq<nat>, j: int)
    requires AreasAre(vmas, segs, list) && -1 <= j < VMA_MAX && (j >= 0 ==> !vmas[j].inUse)
    requires forall k :: 0 <= k < (if j < 0 then VMA_MAX else j) ==> vmas[k].inUse
    ensures if j < 0 then |list| == VMA_MAX else j == |list|
  {
    if |list| < VMA_MAX {
      assert !vmas[|list|].inUse;
    }
  }

  lemma NextLazy(segs: seq<Segment>, i: nat)
    requires i < |segs| && segs[i].load
    ensures Lazy(segs, i + 1, true) ==
      if |Lazy(segs, i, true)| < VMA_MAX then Lazy(segs, i, true) + [i] else Lazy(segs, i, true)
  {
  }

  /** The first area an address lies in is that of the first segment that has its page. */
  lemma {:induction false} FirstAt(segs: seq<Segment>, list: seq<nat>, a: nat, j: int)
    requires forall k :: 0 <= k < |list| ==> list[k] < |segs|
    requires -1 <= j < |list| && (j >= 0 ==> Covers(segs[list[j]], a))
    requires forall k :: 0 <= k < (if j < 0 then |list| else j) ==> !Covers(segs[list[k]], a)
    ensures FirstLazy(segs, list, Down(a)) == if j < 0 then -1 else list[j]
  {
    hide Covers;
    if list != [] {
      CoversPage(segs[list[0]], a);
      if j != 0 {
        FirstAt(segs, list[1..], a, if j < 0 then -1 else j - 1);
      }
    }
  }

  lemma FoundIs(vmas: seq<Vma>, segs: seq<Segment>, list: seq<nat>, a: nat, j: int)
    requires AreasAre(vmas, segs, list) && -1 <= j < VMA_MAX && (j >= 0 ==> InArea(vmas[j], a))
    requires forall k :: 0 <= k < |list| ==> segs[list[k]].load
    requires forall k :: 0 <= k < (if j < 0 then VMA_MAX else j) ==> !InArea(vmas[k], a)
    ensures j < |list| && FirstLazy(segs, list, Down(a)) == if j < 0 then -1 else list[j]
  {
    hide FirstLazy;
    FirstAt(segs, list, a, j);
  }

  lemma AreaHolds(vmas: seq<Vma>, segs: seq<Segment>, data: seq<byte>, list: seq<nat>, a: nat, j: nat)
    requires AreasAre(vmas, segs, list) && j < |list| && InFile(segs, |segs|, |data|) && segs[list[j]].load
      && InArea(vmas[j], a)
    ensures SegmentOk(segs[list[j]], |data|) && vmas[j] == AreaOf(segs[list[j]]) && vmas[j].start <= Down(a)
      && vmas[j].dataOff + vmas[j].dataLen <= |data|
  {
    CoversPage(segs[list[j]], a);
  }

  lemma PageSize(segs: seq<Segment>, data: seq<byte>, demand: bool, p: nat, page: Page)
    requires IsPage(segs, data, demand, p, page)
    ensures |page| == PAGE && Owner(segs, demand, p) != -1
  {
    hide LastEager, FirstLazy, Lazy;
  }

  // ----- the two ways of loading compared -----

  predicate FirstWith(segs: seq<Segment>, i: nat, p: nat) {
    i < |segs| && Covers(segs[i], p) && forall k: nat :: k < i ==> !Covers(segs[k], p)
  }

  predicate LastWith(segs: seq<Segment>, i: nat, p: nat) {
    i < |segs| && Covers(segs[i], p) && forall k: nat :: i < k < |segs| ==> !Covers(segs[k], p)
  }

  /** On demand, with a slot for every segment, a page shows the first segment that has it. */
  lemma ShowsFirst(segs: seq<Segment>, data: seq<byte>, p: nat, page: Page, a: nat, i: nat)
    requires IsPage(segs, data, true, p, page) && LoadCount(segs, |segs|) <= VMA_MAX && FirstWith(segs, i, p)
      && p <= a < p + PAGE
    ensures |page| == PAGE && page[a - p] == ShownByte(segs[i], data, a, true)
  {
    hide Covers, Owner, ShownByte, IsPage, Lazy, LastEager;
    DemandShowsFirst(segs, p);
    AllLazy(segs, |segs|, p);
    OwnerShows(segs, data, true, p, page, a);
  }

  /** Loaded at once, a page shows the last segment that has it. */
  lemma ShowsLast(segs: seq<Segment>, data: seq<byte>, p: nat, page: Page, a: nat, i: nat)
    requires IsPage(segs, data, false, p, page) && LastWith(segs, i, p) && p <= a < p + PAGE
    ensures |page| == PAGE && page[a - p] == ShownByte(segs[i], data, a, false)
  {
    hide Covers, ShownByte, IsPage, Lazy;
    EagerShowsLast(segs, p);
    OwnerShows(segs, data, false, p, page, a);
    NoLazy(segs, |segs|);
  }

  lemma {:induction false} NoLazy(segs: seq<Segment>, n: nat)
    requires n <= |segs|
    ensures Lazy(segs, n, false) == []
  {
    if n > 0 {
      NoLazy(segs, n - 1);
    }
  }

  /** However it is loaded, a page only one segment has shows that one, from its start on. */
  lemma ShowsSole(segs: seq<Segment>, data: seq<byte>, demand: bool, p: nat, page: Page, a: nat, i: nat)
    requires IsPage(segs, data, demand, p, page) && Sole(segs, i, p) && p <= a < p + PAGE && segs[i].vaddr <= a
    ensures |page| == PAGE && page[a - p] == SegByte(segs[i], data, a)
  {
    hide Covers, Owner, SegByte, IsPage;
    SoleOwns(segs, demand, i, p);
    OwnerShows(segs, data, demand, p, page, a);
  }

  lemma {:induction false} SomeOwner(segs: seq<Segment>, demand: bool, p: nat)
    ensures Owner(segs, demand, p) != -1 <==> exists i: nat :: i < |segs| && Covers(segs[i], p)
  {
    hide Covers;
    LazyIsFirst(segs, Lazy(segs, |segs|, demand), p);
    if i: nat :| i < |segs| && Covers(segs[i], p) {
      LazyOrEager(segs, |segs|, demand, i, p);
    }
  }

  /**
   * `b` and `c` are seen at `a` loaded on demand and loaded at once: the first segment with the
   * page, the last, or the only one.
   */
  ghost predicate Compared(segs: seq<Segment>, data: seq<byte>, a: nat, b: byte, c: byte) {
    && (forall i: nat :: FirstWith(segs, i, Down(a)) && LoadCount(segs, |segs|) <= VMA_MAX ==>
          b == ShownByte(segs[i], data, a, true))
    && (forall i: nat :: LastWith(segs, i, Down(a)) ==> c == ShownByte(segs[i], data, a, false))
    && (forall i: nat :: Sole(segs, i, Down(a)) && segs[i].vaddr <= a ==> b == c == SegByte(segs[i], data, a))
  }

  lemma PagesCompared(segs: seq<Segment>, data: seq<byte>, a: nat, q: Page, r: Page)
    requires IsPage(segs, data, true, Down(a), q) && IsPage(segs, data, false, Down(a), r) && |q| == |r| == PAGE
    ensures Compared(segs, data, a, q[a % PAGE], r[a % PAGE])
  {
    hide Covers, SegByte, ShownByte, IsPage, LoadCount;
    var p: nat := Down(a);
    assert p <= a < p + PAGE && a - p == a % PAGE;
    forall i: nat | FirstWith(segs, i, p) && LoadCount(segs, |segs|) <= VMA_MAX
      ensures q[a % PAGE] == ShownByte(segs[i], data, a, true) {
      ShowsFirst(segs, data, p, q, a, i);
    }
    forall i: nat | LastWith(segs, i, p) ensures r[a % PAGE] == ShownByte(segs[i], data, a, false) {
      ShowsLast(segs, data, p, r, a, i);
    }
    forall i: nat | Sole(segs, i, p) && segs[i].vaddr <= a
      ensures q[a % PAGE] == r[a % PAGE] == SegByte(segs[i], data, a) {
      ShowsSole(segs, data, true, p, q, a, i);
      ShowsSole(segs, data, false, p, r, a, i);
    }
  }

  /**
   * One file loaded on demand and loaded at once. An address shows the first segment that
   * has its page in the one and the last in the other; where only one has it, they agree.
   */
  method ReadBoth(lazy: Image, eager: Image, a: nat, frames: nat) returns (ok: bool, b: byte, c: byte)
    requires lazy != eager && lazy.Loaded(true) && eager.Loaded(false) && lazy.segs == eager.segs
      && lazy.data == eager.data && frames > 0
    modifies lazy, eager
    ensures lazy.Loaded(true) && eager.Loaded(false)
    ensures ok <==> exists i: nat :: i < |lazy.segs| && Covers(lazy.segs[i], Down(a))
    ensures ok ==> Compared(lazy.segs, lazy.data, a, b, c)
  {
    hide Covers, Owner, IsPage, Compared, AreasAre, LastEager, Lazy, FirstLazy;
    SomeOwner(lazy.segs, true, Down(a));
    SomeOwner(lazy.segs, false, Down(a));
    var ok1, ok2;
    ok1, b := lazy.ReadByte(a, frames, true);
    ok2, c := eager.ReadByte(a, frames, false);
    ok := ok1 && ok2;
    if ok {
      PagesCompared(lazy.segs, lazy.data, a, lazy.pages[Down(a)], eager.pages[Down(a)]);
    }
  }

  // ----- what a program finds -----

  /** No page of any other loadable segment is the one with address `a`. */
  predicate Alone(segs: seq<Segment>, i: nat, a: nat) {
    forall k: nat :: k < |segs| && k != i && segs[k].load ==>
      a / 4096 < segs[k].vaddr / 4096 || (segs[k].vaddr + segs[k].memsz + 4095) / 4096 <= a / 4096
  }

  lemma CoversIs(s: Segment, a: nat)
    ensures Covers(s, Down(a)) <==>
      s.load && s.vaddr / 4096 <= a / 4096 < (s.vaddr + s.memsz + 4095) / 4096
  {
    var v, e, x := s.vaddr / PAGE, (s.vaddr + s.memsz + PAGE - 1) / PAGE, a / PAGE;
    assert SegStart(s) == v * PAGE && SegEnd(s) == e * PAGE && Down(a) == x * PAGE;
  }

  lemma AloneIsSole(segs: seq<Segment>, i: nat, a: nat)
    requires i < |segs| && segs[i].load && segs[i].vaddr <= a < segs[i].vaddr + segs[i].memsz && Alone(segs, i, a)
    ensures Sole(segs, i, Down(a))
  {
    hide Covers, Down;
    CoversIs(segs[i], a);
    forall k: nat | k < |segs| && k != i ensures !Covers(segs[k], Down(a)) {
      CoversIs(segs[k], a);
    }
  }

  /**
   * A byte of a loaded segment, on a page of its own: from the file up to p_filesz, zero from
   * there to p_memsz, however it was loaded.
   */
  method ReadSegment(image: Image, i: nat, a: nat, frames: nat, ghost demand: bool) returns (b: byte)
    requires image.Loaded(demand) && i < |image.segs| && image.segs[i].load && frames > 0
    requires image.segs[i].vaddr <= a < image.segs[i].vaddr + image.segs[i].memsz && Alone(image.segs, i, a)
    modifies image
    ensures image.Loaded(demand)
    ensures var s := image.segs[i];
            if a - s.vaddr < s.filesz then
              s.offset + (a - s.vaddr) < |image.data| && b == image.data[s.offset + (a - s.vaddr)]
            else b == 0
  {
    hide Owner, IsPage, AreasAre, LastEager, Lazy, FirstLazy, Covers, Sole;
    AloneIsSole(image.segs, i, a);
    SoleOwns(image.segs, demand, i, Down(a));
    var ok;
    ok, b := image.ReadByte(a, frames, demand);
    ShowsSole(image.segs, image.data, demand, Down(a), image.pages[Down(a)], a, i);
    assert a - Down(a) == a % PAGE;
  }

  // ----- two segments on one page -----

  /** Two segments of one file, with bytes 5 and 7, that lie on one page. */
  const LOWER := Segment(true, 0, 0x40_0000, 16, 16)
  const UPPER := Segment(true, 6144, 0x40_0800, 1, 1)
  const SHARED: seq<byte> := [5] + Zeros(6143) + [7]

  lemma SharedPage()
    ensures FirstWith([LOWER, UPPER], 0, 0x40_0000) && LastWith([LOWER, UPPER], 1, 0x40_0000)
      && LoadCount([LOWER, UPPER], 2) == 2
    ensures ShownByte(LOWER, SHARED, 0x40_0000, true) == 5 && ShownByte(LOWER, SHARED, 0x40_0800, true) == 0
    ensures ShownByte(UPPER, SHARED, 0x40_0000, false) == 0 && ShownByte(UPPER, SHARED, 0x40_0800, false) == 7
    ensures AllBacked([LOWER, UPPER]) && InFile([LOWER, UPPER], 2, |SHARED|)
  {
    assert LoadCount([LOWER, UPPER], 1) == 1;
    assert [LOWER, UPPER][1] == UPPER;
  }

  lemma SharedFrames()
    ensures FramesFor([LOWER, UPPER], 0, true, 0) == 0 && FramesFor([LOWER, UPPER], 0, false, 0) == 2
  {
    var two := [LOWER, UPPER];
    assert PageCount(LOWER) == 1 && PageCount(UPPER) == 1;
    assert two[0] == LOWER && two[1] == UPPER;
    assert FramesFor(two, 2, false, 0) == 0 && FramesFor(two, 2, true, 2) == 0;
    assert FramesFor(two, 1, true, 1) == 0;
    assert FramesFor(two, 1, false, 0) == 1;
  }

  /** Loaded on demand the page shows the lower segment alone, loaded at once the upper one alone. */
  method SharedPageLosesBytes() returns (lower: byte, upper: byte, lower': byte, upper': byte)
    ensures lower == 5 && upper == 0 && lower' == 0 && upper' == 7
  {
    hide Owner, ShownByte, IsPage, FirstWith, LastWith, LoadCount, AreasAre, LastEager, Lazy, FirstLazy, EagerPage,
         FramesFor, AllBacked, InFile;
    SharedPage();
    SharedFrames();
    var segs := [LOWER, UPPER];
    var lazy := new Image(SHARED, segs);
    var eager := new Image(SHARED, segs);
    var ok := lazy.Load(true, 2);
    ok := eager.Load(false, 2);
    var read;
    read, lower, lower' := ReadBoth(lazy, eager, 0x40_0000, 1);
    read, upper, upper' := ReadBoth(lazy, eager, 0x40_0800, 1);
  }
}
