/** Page eviction and swap-in (kernel/memory/swap.c), and allocation under memory pressure (kernel/memory/pmm.c). */
module Swap {
  import opened Arith
  import Pmm
  import opened SwapState

  const SWAP_LOW_WATERMARK := 32

  lemma NamesOne(procs: seq<Proc>, r: Rmap, i: nat)
    requires IsProc(procs, i, r.pid) && r.pid != 0
    ensures forall k :: Names(procs, r, k) <==> procs[i].cr3 != 0 && k == Key(procs[i].cr3, r.v)
  {
    forall j: nat | IsProc(procs, j, r.pid) ensures j == i {
    }
  }

  lemma NamesNone(procs: seq<Proc>, r: Rmap)
    requires r.pid == 0 || forall i: nat :: !IsProc(procs, i, r.pid)
    ensures forall k :: !Names(procs, r, k)
  {
  }

  /** No page of the frame that could be evicted was accessed of late. */
  ghost predicate Cold(ptes: Ptes, refs: seq<nat>, rmap: Rmaps, procs: seq<Proc>, f: nat) {
    forall k :: Evictable(ptes, refs, rmap, procs, f, k) ==> !ptes[k].accessed
  }

  /** Clearing one accessed bit warms nothing up. */
  lemma ColdKept(ptes: Ptes, refs: seq<nat>, rmap: Rmaps, procs: seq<Proc>, k: Key, f: nat)
    requires Cold(ptes, refs, rmap, procs, f)
    ensures Cold(Unaccessed(ptes, k), refs, rmap, procs, f)
  {
    hide Names;
    forall j | Evictable(Unaccessed(ptes, k), refs, rmap, procs, f, j) ensures !Unaccessed(ptes, k)[j].accessed {
      UnaccessedMaps(ptes, k, j, f);
      assert Evictable(ptes, refs, rmap, procs, f, j);
    }
  }

  lemma ColdNow(ptes: Ptes, refs: seq<nat>, rmap: Rmaps, procs: seq<Proc>, k: Key, f: nat)
    requires f in rmap && forall j :: Names(procs, rmap[f], j) ==> j == k
    ensures Cold(Unaccessed(ptes, k), refs, rmap, procs, f)
  {
    hide Names;
  }

  lemma ColdIdle(ptes: Ptes, refs: seq<nat>, rmap: Rmaps, procs: seq<Proc>, f: nat)
    requires !CanEvict(ptes, refs, rmap, procs, f)
    ensures Cold(ptes, refs, rmap, procs, f)
  {
    hide Evictable;
  }

  lemma SameViewTrans(p: Ptes, m: seq<Page>, d: map<nat, Sector>, p1: Ptes, m1: seq<Page>, d1: map<nat, Sector>,
                      p2: Ptes, m2: seq<Page>, d2: map<nat, Sector>)
    requires SameView(p, m, d, p1, m1, d1) && SameView(p1, m1, d1, p2, m2, d2)
    ensures SameView(p, m, d, p2, m2, d2)
  {
    hide View;
  }

  lemma SameViewRefl(p: Ptes, m: seq<Page>, d: map<nat, Sector>)
    ensures SameView(p, m, d, p, m, d)
  {
  }

  /** The scan meets every frame once per sweep. */
  lemma SecondSweep(start: nat, i: nat, total: nat)
    requires 0 < total
    ensures Pmm.Slot(start, i + total, total) == Pmm.Slot(start, i, total)
  {
    var q, r := (start + i) / total, (start + i) % total;
    assert (q + 1) * total == q * total + total;
    DivisionIs(start + (i + total), total, q + 1, r);
  }

  class Swapper {
    const pmm: Pmm.Allocator
    const procs: seq<Proc>
    var ptes: Ptes
    var mem: seq<Page>
    var disk: map<nat, Sector>
    var slots: seq<bool>
    var swapUsed: nat
    var clockHand: nat
    var ready: bool
    var rmap: Rmaps

    ghost predicate Valid()
      reads this, pmm, pmm.bitmap, pmm.refcount
    {
      && pmm.Valid() && clockHand < pmm.total && |pmm.refs| == pmm.total && swapUsed == Taken(slots)
      && Good(ptes, mem, disk, slots, pmm.refs, rmap, procs) && AboveKernel(ptes, pmm.kernelLimit)
    }

    /** The state as values. */
    ghost function Now(): Moment
      reads this, pmm
    {
      Moment(ptes, mem, disk, slots, pmm.refs, pmm.used, rmap, ready)
    }

    /** swap_init, on a system none of whose pages is swapped yet. */
    constructor (pmm: Pmm.Allocator, procs: seq<Proc>, ptes: Ptes, mem: seq<Page>, disk: map<nat, Sector>, rmap: Rmaps)
      requires pmm.Valid() && |mem| == |pmm.refs| == pmm.total && DiskOk(disk) && PidsUnique(procs)
      requires (forall k :: k in ptes ==> ptes[k].Present?) && FramesOk(ptes, pmm.refs) && RmapOk(ptes, rmap, procs)
      requires AboveKernel(ptes, pmm.kernelLimit)
      ensures Valid() && this.pmm == pmm && this.procs == procs && ready && swapUsed == 0
      ensures this.ptes == ptes && this.mem == mem && this.disk == disk && this.rmap == rmap
        && forall s :: 0 <= s < |slots| ==> !slots[s]
    {
      this.pmm, this.procs, this.ptes, this.mem, this.disk, this.rmap := pmm, procs, ptes, mem, disk, rmap;
      slots := seq(SWAP_MAX_PAGES, _ => false);
      swapUsed, clockHand, ready := 0, 0, true;
      new;
      NoneTaken(slots);
    }

    /** swap_alloc_slot. */
    method AllocSlot() returns (s: int)
      requires swapUsed == Taken(slots) && |slots| == SWAP_MAX_PAGES
      modifies `slots, `swapUsed
      ensures swapUsed == Taken(slots) && -1 <= s < SWAP_MAX_PAGES == |slots|
      ensures s < 0 <==> forall t :: 0 <= t < |old(slots)| ==> old(slots)[t]
      ensures s < 0 ==> slots == old(slots)
      ensures s >= 0 ==> !old(slots)[s] && slots == old(slots)[s := true] && swapUsed == old(swapUsed) + 1
    {
      for i := 0 to SWAP_MAX_PAGES
        invariant slots == old(slots) && swapUsed == old(swapUsed) && forall t :: 0 <= t < i ==> slots[t]
      {
        if !slots[i] {
          TakenChanges(slots, i, true);
          slots := slots[i := true];
          swapUsed := swapUsed + 1;
          return i;
        }
      }
      return -1;
    }

    /** swap_free_slot. */
    method FreeSlot(s: int)
      requires swapUsed == Taken(slots) && |slots| == SWAP_MAX_PAGES
      modifies `slots, `swapUsed
      ensures swapUsed == Taken(slots)
      ensures slots == if 0 <= s < SWAP_MAX_PAGES then old(slots)[s := false] else old(slots)
    {
      if s >= 0 && s < SWAP_MAX_PAGES && slots[s] {
        TakenChanges(slots, s, false);
        slots := slots[s := false];
        swapUsed := swapUsed - 1;
      }
      assert 0 <= s < SWAP_MAX_PAGES ==> slots == old(slots)[s := false];
    }

    /** process_get_by_pid. */
    method FindProc(pid: nat) returns (i: int)
      ensures -1 <= i < |procs|
      ensures i >= 0 ==> IsProc(procs, i, pid)
      ensures i < 0 ==> forall j: nat :: !IsProc(procs, j, pid)
    {
      for k := 0 to |procs|
        invariant forall j :: 0 <= j < k ==> !(procs[j].used && procs[j].pid == pid)
      {
        if procs[k].used && procs[k].pid == pid {
          return k;
        }
      }
      return -1;
    }

    /** The tests of swap_evict_one on one frame: the page to look at, if the frame can be evicted. */
    method Candidate(f: nat) returns (ok: bool, k: Key)
      requires Valid() && f < pmm.total
      ensures ok ==> Evictable(ptes, pmm.refs, rmap, procs, f, k) && forall j :: Names(procs, rmap[f], j) ==> j == k
      ensures !ok ==> !CanEvict(ptes, pmm.refs, rmap, procs, f)
    {
      hide Pmm.Allocator.Valid, IsProc, Names;
      ok, k := false, Key(0, 0);
      var n := pmm.Refcount(f);
      if n != 1 || f !in rmap || rmap[f].pid == 0 {
        NamesNothing(ptes, pmm.refs, rmap, procs, f);
        return;
      }
      var i := FindProc(rmap[f].pid);
      if i < 0 {
        NamesNone(procs, rmap[f]);
        return;
      }
      NamesOne(procs, rmap[f], i);
      if procs[i].cr3 == 0 {
        return;
      }
      k := Key(procs[i].cr3, rmap[f].v);
      ok := k in ptes && ptes[k].Present?;
    }

    /** The CLOCK scan of swap_evict_one: two sweeps from `start`, clearing accessed bits on the way. */
    method Scan() returns (found: bool, f: nat, k: Key)
      requires Valid()
      modifies `ptes
      ensures Valid() && SameView(old(ptes), mem, disk, ptes, mem, disk)
      ensures SameCandidates(old(ptes), ptes, pmm.refs, rmap, procs) && Outward(old(ptes), slots, ptes, slots)
      ensures Dimmed(old(ptes), ptes)
      ensures found ==> f < pmm.total && Evictable(ptes, pmm.refs, rmap, procs, f, k) && !ptes[k].accessed
      ensures !found ==> forall g: nat :: g < pmm.total ==> !CanEvict(ptes, pmm.refs, rmap, procs, g)
    {
      hide Pmm.Allocator.Valid, Good, SameView, CanEvict, Evictable, Cold, Names, Pmm.Slot, SameCandidates, Outward,
           AboveKernel, Dimmed;
      DimmedRefl(ptes);
      var total, start := pmm.total, clockHand;
      found, f, k := false, 0, Key(0, 0);
      SameViewRefl(ptes, mem, disk);
      SameRefl(ptes, pmm.refs, rmap, procs);
      OutwardRefl(ptes, slots);
      assert 0 < total by { TotalPositive(pmm); }
      for j := 0 to 2 * total
        invariant Valid() && SameView(old(ptes), mem, disk, ptes, mem, disk)
          && SameCandidates(old(ptes), ptes, pmm.refs, rmap, procs)
        invariant Outward(old(ptes), slots, ptes, slots) && Dimmed(old(ptes), ptes)
        invariant forall i: nat :: i < j && i < total ==> Cold(ptes, pmm.refs, rmap, procs, Pmm.Slot(start, i, total))
        invariant forall i: nat :: i + total < j ==> !CanEvict(ptes, pmm.refs, rmap, procs, Pmm.Slot(start, i, total))
      {
        f := Pmm.Slot(start, j, total);
        SlotInRange(start, j, total);
        var ok;
        ok, k := Candidate(f);
        if !ok {
          ColdIdle(ptes, pmm.refs, rmap, procs, f);
          if j >= total {
            SecondSweep(start, j - total, total);
          }
          continue;
        }
        assert k in ptes && ptes[k].Present? && f in rmap by { EvictableHas(ptes, pmm.refs, rmap, procs, f, k); }
        if !ptes[k].accessed {
          found := true;
          return;
        }
        if j >= total {
          SecondSweep(start, j - total, total);
          ColdMeans(ptes, pmm.refs, rmap, procs, f, k);
        }
        ghost var before := ptes;
        ptes := ptes[k := ptes[k].(accessed := false)];
        Cleared(before, mem, disk, slots, pmm.refs, rmap, procs, k, old(ptes));
        OutwardClear(before, slots, k);
        DimmedMore(old(ptes), before, k);
        AboveCleared(before, k, pmm.kernelLimit);
        OutwardTrans(old(ptes), slots, before, slots, ptes, slots);
        ColdNow(before, pmm.refs, rmap, procs, k, f);
        forall g: nat | Cold(before, pmm.refs, rmap, procs, g) ensures Cold(ptes, pmm.refs, rmap, procs, g) {
          ColdKept(before, pmm.refs, rmap, procs, k, g);
        }
      }
      forall g: nat | g < total ensures !CanEvict(ptes, pmm.refs, rmap, procs, g) {
        Pmm.ModInverse(total, start, g);
        assert g == Pmm.Slot(start, (g - start) % total, total) by { SlotIs(start, g, total); }
      }
    }

    /** swap_write_page: eight sectors; the transfer fails when only the first `written` of them get through. */
    method WritePage(slot: nat, f: nat, written: nat) returns (ok: bool)
      requires slot < SWAP_MAX_PAGES && f < |mem| && DiskOk(disk)
      modifies `disk
      ensures ok == (written >= 8) && SlotOnly(old(disk), disk, slot)
        && (ok ==> WrittenTo(old(disk), disk, slot, mem[f]))
    {
      var lba := SWAP_START_LBA + slot * 8;
      ghost var d := disk;
      for i := 0 to 8
        invariant SlotOnly(d, disk, slot)
        invariant forall j :: 0 <= j < i && j < written ==> SectorAt(disk, lba + j) == mem[f][j]
      {
        if i < written {
          disk := disk[lba + i := mem[f][i]];
        }
      }
      ok := written >= 8;
      if ok {
        assert Stored(disk, slot) == mem[f];
      }
    }

    /**
     * swap_evict_one. It succeeds exactly if some frame can be evicted, a slot is
     * free and the disk takes the page; whatever happens, every page reads the same.
     */
    method EvictOne(written: nat) returns (r: int)
      requires Valid()
      modifies this, pmm, pmm.bitmap, pmm.refcount
      ensures Valid() && SameView(old(ptes), old(mem), old(disk), ptes, mem, disk)
      ensures r == if old(CanSwap(ptes, pmm.refs, rmap, procs, slots, ready)) && written >= 8 then 0 else -1
      ensures pmm.kernelLimit == old(pmm.kernelLimit) && ready == old(ready)
        && Outward(old(ptes), old(slots), ptes, slots)
      ensures r == 0 ==>
        swapUsed == old(swapUsed) + 1 && exists f: nat :: Gave(old(pmm.used), old(pmm.refs), pmm.used, pmm.refs, f)
      ensures r == 0 ==> |pmm.used| + 1 == |old(pmm.used)|
      ensures r != 0 ==> Quiet(old(Now()), Now(), procs) && swapUsed == old(swapUsed)
      ensures mem == old(mem) && Outs(old(Now()), Now(), procs)
    {
      hide Pmm.Allocator.Valid, Good, SameView, CanEvict, Evictable, SameCandidates, Outward, SlotsOk, AboveKernel,
           Outs, Dimmed;
      OutsRefl(Now(), procs);
      SameViewRefl(ptes, mem, disk);
      OutwardRefl(ptes, slots);
      SameRefl(ptes, pmm.refs, rmap, procs);
      r := -1;
      if !ready {
        return;
      }
      var found, f, k := Scan();
      OutsDim(old(Now()), Now(), procs);
      if !found {
        NoCandidate(old(ptes), ptes, pmm.refs, rmap, procs);
        return;
      }
      FoundCandidate(old(ptes), ptes, pmm.refs, rmap, procs, f, k);
      ghost var p1, m1 := ptes, Now();
      r := Expel(f, k, written);
      OutsTrans(old(Now()), m1, Now(), procs);
      SameViewTrans(old(ptes), old(mem), old(disk), p1, old(mem), old(disk), ptes, mem, disk);
      OutwardTrans(old(ptes), old(slots), p1, old(slots), ptes, slots);
    }

    /** The end of swap_evict_one, once a page has been chosen. */
    method Expel(f: nat, k: Key, written: nat) returns (r: int)
      requires Valid() && f < pmm.total && Evictable(ptes, pmm.refs, rmap, procs, f, k)
      modifies this, pmm, pmm.bitmap, pmm.refcount
      ensures Valid() && SameView(old(ptes), old(mem), old(disk), ptes, mem, disk)
      ensures r == if old(HasFreeSlot(slots)) && written >= 8 then 0 else -1
      ensures pmm.kernelLimit == old(pmm.kernelLimit) && ready == old(ready)
        && Outward(old(ptes), old(slots), ptes, slots)
      ensures r == 0 ==> swapUsed == old(swapUsed) + 1 && Gave(old(pmm.used), old(pmm.refs), pmm.used, pmm.refs, f)
      ensures r != 0 ==> pmm.used == old(pmm.used) && pmm.refs == old(pmm.refs) && swapUsed == old(swapUsed)
      ensures r != 0 ==> ptes == old(ptes) && slots == old(slots) && rmap == old(rmap)
      ensures mem == old(mem) && Outs(old(Now()), Now(), procs)
    {
      hide Pmm.Allocator.Valid, Good, SameView, Evictable, Outward, Taken, WrittenTo, SlotOnly, DiskOk, AboveKernel,
           Outs, SpareOnly;
      ghost var m := Now();
      OutsRefl(m, procs);
      EvictableHas(ptes, pmm.refs, rmap, procs, f, k);
      AboveOut(ptes, k, f, pmm.kernelLimit);
      RefUsed(pmm, f);
      GoodShape(ptes, mem, disk, slots, pmm.refs, rmap, procs, k, f);
      ghost var p0, d0, s0, refs0, rm0 := ptes, disk, slots, pmm.refs, rmap;
      SameViewRefl(ptes, mem, disk);
      OutwardRefl(ptes, slots);
      var slot := AllocSlot();
      if slot < 0 {
        return -1;
      }
      var ok := WritePage(slot, f, written);
      SpareIs(d0, disk, slot, s0);
      if !ok {
        FreeSlot(slot);
        assert slots == s0;
        OutsScratch(m, Now(), procs);
        ScratchWrite(p0, mem, d0, s0, refs0, rm0, procs, slot, disk);
        return -1;
      }
      ptes := ptes[k := Swapped(slot)];
      rmap := rmap - {f};
      pmm.Unref(f);
      clockHand := (f + 1) % pmm.total;
      Evicted(p0, mem, d0, s0, refs0, rm0, procs, f, k, slot, ptes, disk, slots, pmm.refs, rmap);
      OutwardStep(p0, s0, k, slot);
      OutsOne(m, Now(), procs, f, k, slot);
      r := 0;
    }

    /**
     * pmm_alloc_page: when memory is low, up to eight pages are swapped out first. No frame
     * is had exactly if none was free and none of the attempts to swap a page out succeeds.
     */
    method AllocPage(written: seq<nat>) returns (g: nat, ghost mid: Moment)
      requires Valid() && |written| >= 8
      modifies this, pmm, pmm.bitmap, pmm.refcount
      ensures Relief(old(Now()), mid, procs, written, 8)
      ensures if g == 0 then Now() == mid else FreeIn(mid, g) && Now() == Grabbed(mid, g)
      ensures Valid() && SameView(old(ptes), old(mem), old(disk), ptes, mem, disk) && ready == old(ready)
      ensures Outward(old(ptes), old(slots), ptes, slots) && pmm.kernelLimit == old(pmm.kernelLimit)
      ensures g == 0 <==> !Available(old(Now()), procs, written, 0, 8)
      ensures g == 0 ==> Quiet(old(Now()), Now(), procs)
      ensures g != 0 ==>
        Fresh(ptes, pmm.refs, g) && pmm.kernelLimit <= g && g in pmm.used && |pmm.used| <= |old(pmm.used)| + 1
    {
      hide Pmm.Allocator.Valid, Good, SameView, Outward, Taken, CanSwap, AboveKernel, Quiet, Available, Tried, Outs;
      Pmm.UsedFit(pmm);
      FreeCount(pmm);
      var i := Relieve(written);
      mid := Now();
      ghost var refs, used := pmm.refs, pmm.used;
      UsedRefs(pmm);
      FreeCount(pmm);
      Relieved(old(Now()), Now(), procs, written, i, pmm.freePages);
      g := pmm.Alloc();
      if g != 0 {
        assert g !in used && g < |refs| && refs[g] == 0;
        FreshFrame(ptes, mem, disk, slots, refs, rmap, procs, g);
        assert pmm.refs == refs[g := 1];
        assert pmm.kernelLimit <= g && |pmm.used| == |used| + 1;
      }
    }

    /**
     * The loop of pmm_alloc_page that swaps pages out: after `i` attempts either nothing came
     * of them, or a frame is free.
     */
    method Relieve(written: seq<nat>) returns (i: nat)
      requires Valid() && |written| >= 8
      modifies this, pmm, pmm.bitmap, pmm.refcount
      ensures Valid() && SameView(old(ptes), old(mem), old(disk), ptes, mem, disk) && ready == old(ready)
      ensures Outward(old(ptes), old(slots), ptes, slots) && pmm.kernelLimit == old(pmm.kernelLimit) && mem == old(mem)
      ensures i <= 8 && (i < 8 ==> SWAP_LOW_WATERMARK <= pmm.freePages) && Tried(old(Now()), Now(), procs, written, i)
      ensures Relief(old(Now()), Now(), procs, written, 8)
    {
      hide Pmm.Allocator.Valid, Good, SameView, Outward, Taken, CanSwap, Gave, AboveKernel, Quiet, Outs;
      OutsRefl(Now(), procs);
      FreeCount(pmm);
      UsedRefs(pmm);
      SameViewRefl(ptes, mem, disk);
      OutwardRefl(ptes, slots);
      QuietRefl(Now(), procs);
      i := 0;
      while i < 8 && pmm.freePages < SWAP_LOW_WATERMARK
        invariant 0 <= i <= 8 && Valid() && SameView(old(ptes), old(mem), old(disk), ptes, mem, disk)
        invariant Outward(old(ptes), old(slots), ptes, slots) && ready == old(ready)
          && pmm.kernelLimit == old(pmm.kernelLimit)
        invariant mem == old(mem) && Tried(old(Now()), Now(), procs, written, i)
        invariant Outs(old(Now()), Now(), procs) && |pmm.used| <= |old(pmm.used)| <= |pmm.used| + i
        invariant i == 0 || Low(old(Now()))
        invariant i == 0 ==> Now() == old(Now())
      {
        ghost var m := Now();
        FreeCount(pmm);
        UsedRefs(pmm);
        var r := EvictOne(written[i]);
        QuietUsed(m, Now(), procs, r != 0);
        OutsTrans(old(Now()), m, Now(), procs);
        SameViewTrans(old(ptes), old(mem), old(disk), m.ptes, m.mem, m.disk, ptes, mem, disk);
        OutwardTrans(old(ptes), old(slots), m.ptes, m.slots, ptes, slots);
        TriedMore(old(Now()), m, Now(), procs, written, i, r == 0);
        i := i + 1;
      }
      TriedRelief(old(Now()), Now(), procs, written, i);
    }

    /** The process whose page tables these are, if any: the first in the table. */
    method FindSpace(cr3: nat) returns (i: int)
      ensures -1 <= i < |procs| && (i >= 0 ==> procs[i].used && procs[i].cr3 == cr3)
      ensures i < 0 <==> !Inhabited(procs, cr3)
    {
      for k := 0 to |procs|
        invariant forall j :: 0 <= j < k ==> !(procs[j].used && procs[j].cr3 == cr3)
      {
        if procs[k].cr3 == cr3 && procs[k].used {
          return k;
        }
      }
      return -1;
    }

    /**
     * swap_handle_fault. The page is back exactly if it was swapped out, a frame could be had
     * within nine attempts and the disk gives it back; whatever happens, every page reads the same.
     */
    method HandleFault(k: Key, written: seq<nat>, readOk: bool) returns (r: int, ghost mid: Moment, ghost g: nat)
      requires Valid() && |written| >= 17 && k.cr3 != 0
      modifies this, pmm, pmm.bitmap, pmm.refcount
      ensures Relief(old(Now()), mid, procs, written, 9)
      ensures r == 0 ==>
        ComesIn(mid, Now(), procs, k, g, View(old(ptes), old(mem), old(disk), k), true, Released(old(Now()), mid, k))
      ensures r != 0 ==> Now() == mid
      ensures Valid() && SameView(old(ptes), old(mem), old(disk), ptes, mem, disk) && ready == old(ready)
      ensures r == if Returns(old(Now()), procs, k, written, readOk) then 0 else -1
      ensures r == 0 ==> Open(ptes, pmm.refs, k) && |pmm.used| <= |old(pmm.used)| + 1
      ensures r != 0 ==> |pmm.used| <= |old(pmm.used)|
    {
      hide Pmm.Allocator.Valid, Good, SameView, Outward, Taken, Fresh, PidsUnique, Names, AboveKernel, Available, Outs,
           Noted, View;
      SameViewRefl(ptes, mem, disk);
      OutsRefl(Now(), procs);
      r, mid, g := -1, Now(), 0;
      if !ready || k !in ptes || ptes[k].Present? {
        return;
      }
      var slot := ptes[k].slot;
      ghost var p0, m0, d0, s0 := ptes, mem, disk, slots;
      var h;
      h, mid := FindFrame(written);
      g := h;
      if h == 0 {
        return;
      }
      assert k in ptes && ptes[k] == Swapped(slot) by { StillOut(p0, s0, ptes, slots, k); }
      ghost var p3, m3, d3 := ptes, mem, disk;
      ViewStored(p0, m0, d0, p3, m3, d3, k, slot);
      assert slot < |slots| by { SlotUsed(ptes, mem, disk, slots, pmm.refs, rmap, procs, k, slot); }
      r := BringIn(k, slot, h, readOk);
      if r != 0 {
        Ungrabs(mid, h);
      }
      SameViewTrans(p0, m0, d0, p3, m3, d3, ptes, mem, disk);
    }

    /** The first half of swap_handle_fault: a frame, after one more eviction if need be. */
    method FindFrame(written: seq<nat>) returns (g: nat, ghost mid: Moment)
      requires Valid() && |written| >= 17
      modifies this, pmm, pmm.bitmap, pmm.refcount
      ensures Relief(old(Now()), mid, procs, written, 9)
      ensures if g == 0 then Now() == mid else FreeIn(mid, g) && Now() == Grabbed(mid, g)
      ensures Valid() && SameView(old(ptes), old(mem), old(disk), ptes, mem, disk) && ready == old(ready)
      ensures Outward(old(ptes), old(slots), ptes, slots) && pmm.kernelLimit == old(pmm.kernelLimit)
      ensures g == 0 <==> !Available(old(Now()), procs, written, 0, 9)
      ensures g == 0 ==> pmm.used == old(pmm.used)
      ensures g != 0 ==>
        Fresh(ptes, pmm.refs, g) && pmm.kernelLimit <= g && g in pmm.used && |pmm.used| <= |old(pmm.used)| + 1
    {
      hide Pmm.Allocator.Valid, Good, SameView, Outward, Taken, Fresh, PidsUnique, Names, AboveKernel, Quiet, Gave,
           CanSwap, Outs, FreeIn;
      ghost var m0 := Now();
      g, mid := AllocPage(written);
      SomeOfNine(written);
      if g == 0 {
        ghost var m1 := Now();
        QuietSame(m0, m1, procs);
        QuietUsed(m0, m1, procs, true);
        Pmm.UsedFit(pmm);
        UsedRefs(pmm);
        var e := EvictOne(written[8]);
        QuietUsed(m1, Now(), procs, e != 0);
        ReliefMore(m0, m1, Now(), procs, written, 0, 9);
        mid := Now();
        SameViewTrans(m0.ptes, m0.mem, m0.disk, m1.ptes, m1.mem, m1.disk, ptes, mem, disk);
        OutwardTrans(m0.ptes, m0.slots, m1.ptes, m1.slots, ptes, slots);
        if e == 0 {
          ghost var m2 := Now();
          UsedRefs(pmm);
          g, mid := AllocPage(written[9..]);
          ReliefMore(m0, m2, mid, procs, written, 1, 8);
          SameViewTrans(m0.ptes, m0.mem, m0.disk, m2.ptes, m2.mem, m2.disk, ptes, mem, disk);
          OutwardTrans(m0.ptes, m0.slots, m2.ptes, m2.slots, ptes, slots);
        } else {
          QuietUsed(m1, Now(), procs, true);
        }
      }
    }

    /** The end of swap_handle_fault, once a frame has been found. */
    method BringIn(k: Key, slot: nat, g: nat, readOk: bool) returns (r: int)
      requires Valid() && SwappedTo(ptes, k, slot) && Fresh(ptes, pmm.refs, g) && k.cr3 != 0 && pmm.kernelLimit <= g
        && g in pmm.used
      modifies this, pmm, pmm.bitmap, pmm.refcount
      ensures Valid() && SameView(old(ptes), old(mem), old(disk), ptes, mem, disk) && ready == old(ready)
      ensures r == if readOk then 0 else -1
      ensures r == 0 ==>
        Maps(ptes, k, g) && Open(ptes, pmm.refs, k) && swapUsed + 1 == old(swapUsed) && pmm.used == old(pmm.used)
      ensures r == 0 ==>
        Placed(old(Now()), Now(), procs, k, g, Stored(old(disk), slot), true, FreedSlot(old(slots), slot))
      ensures r != 0 ==> pmm.used == old(pmm.used) - {g} && Now() == Ungrabbed(old(Now()), g)
    {
      hide Pmm.Allocator.Valid, Good, SameView, Taken, PidsUnique, Names, AboveKernel;
      ghost var p0, m0, s0, refs, rm0 := ptes, mem, slots, pmm.refs, rmap;
      SameViewRefl(ptes, mem, disk);
      if !readOk {
        UsedRefs(pmm);
        pmm.Unref(g);
        GivenUp(ptes, mem, disk, slots, refs, rmap, procs, g);
        return -1;
      }
      SlotUsed(ptes, mem, disk, slots, refs, rmap, procs, k, slot);
      mem := mem[g := Stored(disk, slot)];
      ptes := ptes[k := Present(g, false, true)];
      TakenChanges(slots, slot, false);
      FreeSlot(slot);
      var i := FindSpace(k.cr3);
      if i >= 0 && g < RMAP_MAX_PAGES {
        rmap := rmap[g := Rmap(procs[i].pid, k.v)];
        NamesOwner(p0, m0, disk, s0, refs, rm0, procs, i, k);
        assert Owns(procs, i, rmap[g].pid, k.cr3);
      }
      Restored(p0, m0, disk, s0, refs, rm0, procs, k, slot, g, ptes, mem, slots, rmap);
      AboveIn(p0, k, g, true, pmm.kernelLimit);
      r := 0;
    }

    /** vma_find. */
    method FindArea(who: nat, v: nat) returns (i: nat)
      requires who < |procs|
      ensures i == AreaAt(procs[who].areas, v)
    {
      var areas := procs[who].areas;
      i := 0;
      while i < |areas|
        invariant i <= |areas| && forall j :: 0 <= j < i ==> !Contains(areas[j], v)
      {
        if Contains(areas[i], v) {
          return;
        }
        i := i + 1;
      }
    }

    /**
     * vma_handle_fault for private areas: a page that lies in an area and may be accessed so
     * gets the area's first contents, if a frame can be had. It does not ask whether the page
     * has been swapped out.
     */
    method VmaFault(who: nat, v: nat, write: bool, written: seq<nat>) returns (r: int, ghost mid: Moment, ghost g: nat)
      requires Valid() && |written| >= 8 && Alive(procs, who) && !IsPresent(ptes, PageOf(procs, who, v))
      modifies this, pmm, pmm.bitmap, pmm.refcount
      ensures Relief(old(Now()), mid, procs, written, 8)
      ensures r == 0 ==> ComesIn(mid, Now(), procs, PageOf(procs, who, v), g, FirstContents(AreasOf(procs, who), v),
                                 MayWrite(AreasOf(procs, who), v), mid.slots)
      ensures r != 0 ==> Now() == mid
      ensures Valid() && ready == old(ready)
      ensures r == if TakesArea(old(Now()), procs, who, v, write, written) then 0 else -1
      ensures r == 0 ==>
        Seen(ptes, mem, disk) ==
        old(Seen(ptes, mem, disk))[PageOf(procs, who, v) := FirstContents(AreasOf(procs, who), v)]
      ensures r == 0 ==>
        IsPresent(ptes, PageOf(procs, who, v)) && (write ==> Open(ptes, pmm.refs, PageOf(procs, who, v)))
      ensures r == 0 ==> |pmm.used| <= |old(pmm.used)| + 1
      ensures r == 0 ==> forall s :: SwappedTo(old(ptes), PageOf(procs, who, v), s) ==> Stranded(ptes, slots, s)
      ensures r != 0 ==> Seen(ptes, mem, disk) == old(Seen(ptes, mem, disk)) && Quiet(old(Now()), Now(), procs)
      ensures r != 0 ==> (WasSwapped(ptes, PageOf(procs, who, v)) <==> WasSwapped(old(ptes), PageOf(procs, who, v)))
    {
      hide Pmm.Allocator.Valid, Good, SameView, Outward, Taken, Fresh, AboveKernel, Quiet, Seen, Available,
           FirstContents, Outs, Noted;
      QuietRefl(Now(), procs);
      OutsRefl(Now(), procs);
      r, mid, g := -1, Now(), 0;
      var i := FindArea(who, v);
      if i == |procs[who].areas| || (write && !procs[who].areas[i].writable) {
        return;
      }
      var h;
      h, mid := AllocPage(written);
      g := h;
      SeenSame(old(ptes), old(mem), old(disk), ptes, mem, disk);
      StaysOut(old(ptes), old(mem), old(disk), old(slots), ptes, mem, disk, slots, PageOf(procs, who, v));
      if h == 0 {
        return;
      }
      MapArea(who, v, i, h);
      r := 0;
    }

    /** The end of vma_handle_fault: the frame is filled and mapped. */
    method MapArea(who: nat, v: nat, i: nat, g: nat)
      requires Valid() && Alive(procs, who) && i == AreaAt(procs[who].areas, v) < |procs[who].areas|
      requires Fresh(ptes, pmm.refs, g) && pmm.kernelLimit <= g && !IsPresent(ptes, PageOf(procs, who, v))
      modifies `mem, `ptes, `rmap
      ensures Valid()
      ensures Seen(ptes, mem, disk) ==
        old(Seen(ptes, mem, disk))[PageOf(procs, who, v) := FirstContents(AreasOf(procs, who), v)]
      ensures IsPresent(ptes, PageOf(procs, who, v))
        && (procs[who].areas[i].writable ==> Open(ptes, pmm.refs, PageOf(procs, who, v)))
      ensures forall s :: SwappedTo(old(ptes), PageOf(procs, who, v), s) ==> Stranded(ptes, slots, s)
      ensures Placed(old(Now()), Now(), procs, PageOf(procs, who, v), g, FirstContents(AreasOf(procs, who), v),
                     MayWrite(AreasOf(procs, who), v), slots)
    {
      hide Pmm.Allocator.Valid, Good, Taken, Fresh, Names, AboveKernel, Seen, View;
      var k, area := PageOf(procs, who, v), procs[who].areas[i];
      ghost var m := Now();
      SlotStranded(ptes, mem, disk, slots, pmm.refs, rmap, procs, k, Present(g, false, area.writable));
      FreshIs(ptes, mem, disk, slots, pmm.refs, rmap, procs, g);
      var page := if v in area.file then area.file[v] else ZEROED;
      mem := mem[g := page];
      ptes := ptes[k := Present(g, false, area.writable)];
      if g < RMAP_MAX_PAGES {
        rmap := rmap[g := Rmap(procs[who].pid, v)];
        NamesOwner(m.ptes, m.mem, disk, slots, m.refs, m.rmap, procs, who, k);
        assert Owns(procs, who, rmap[g].pid, k.cr3);
      }
      Filled(m.ptes, m.mem, disk, slots, m.refs, m.rmap, procs, k, g, page, area.writable, ptes, mem, rmap);
      SeenFilled(m.ptes, m.mem, disk, ptes, mem, k, page);
      AboveIn(m.ptes, k, g, area.writable, pmm.kernelLimit);
    }

    /**
     * page_fault_handler for a page that is not present: first the areas, then swap. A page
     * that was swapped out is read back exactly if the areas do not take the access, or have
     * the same contents for it.
     */
    method PageFault(who: nat, v: nat, write: bool, written: seq<nat>, readOk: bool) returns (r: int)
      requires Valid() && |written| >= 25 && Alive(procs, who) && !IsPresent(ptes, PageOf(procs, who, v))
      modifies this, pmm, pmm.bitmap, pmm.refcount
      ensures Valid() && ready == old(ready)
      ensures r == if Fetches(old(Now()), procs, who, v, write, written, readOk) then 0 else -1
      ensures Seen(ptes, mem, disk)
           == if TakesArea(old(Now()), procs, who, v, write, written)
              then old(Seen(ptes, mem, disk))[PageOf(procs, who, v) := FirstContents(AreasOf(procs, who), v)]
              else old(Seen(ptes, mem, disk))
      ensures r == 0 ==>
        IsPresent(ptes, PageOf(procs, who, v)) && (write ==> Open(ptes, pmm.refs, PageOf(procs, who, v)))
      ensures r == 0 ==> |pmm.used| <= |old(pmm.used)| + 1
      ensures r != 0 ==> |pmm.used| <= |old(pmm.used)|
      ensures r == 0 ==> Fetched(old(Now()), procs, who, v, write, written, Now())
      ensures r != 0 ==> Relief(old(Now()), Now(), procs, written[8..], 9)
    {
      hide Pmm.Allocator.Valid, Good, SameView, Taken, AboveKernel, Seen, Available, Outs, ComesIn, View, FirstContents;
      var k := PageOf(procs, who, v);
      ghost var mid, g;
      ghost var m0 := Now();
      r, mid, g := VmaFault(who, v, write, written);
      if r == 0 {
        assert FetchedVia(m0, procs, who, v, write, written, Now(), mid, g);
        return;
      }
      ghost var m := Now();
      QuietAvailable(m0, m, procs, written[8..]);
      ghost var mid1 := mid;
      r, mid, g := HandleFault(k, written[8..], readOk);
      ReliefAfter(m0, mid1, mid, procs, written, written[8..]);
      SeenSame(m.ptes, m.mem, m.disk, ptes, mem, disk);
      if r == 0 {
        SeenAtPage(m0, m, k);
        ReleasedSame(m0, m, mid, procs, k);
        assert FetchedVia(m0, procs, who, v, write, written, Now(), mid, g);
      }
    }
  }

  predicate Alive(procs: seq<Proc>, who: nat) { who < |procs| && procs[who].used && procs[who].cr3 != 0 }

  function PageOf(procs: seq<Proc>, who: nat, v: nat): Key {
    if who < |procs| then Key(procs[who].cr3, v) else Key(0, v)
  }

  function AreasOf(procs: seq<Proc>, who: nat): seq<Area> { if who < |procs| then procs[who].areas else [] }

  /** vma_handle_fault takes the access. */
  ghost predicate TakesArea(m: Moment, procs: seq<Proc>, who: nat, v: nat, write: bool, written: seq<nat>) {
    Caught(AreasOf(procs, who), v, write) && Available(m, procs, written, 0, 8)
  }

  /** One of the two handlers takes the access. */
  ghost predicate Fetches(m: Moment, procs: seq<Proc>, who: nat, v: nat, write: bool, written: seq<nat>, readOk: bool) {
    TakesArea(m, procs, who, v, write, written)
    || (|written| >= 8 && Returns(m, procs, PageOf(procs, who, v), written[8..], readOk))
  }

  lemma QuietAvailable(m: Moment, m': Moment, procs: seq<Proc>, written: seq<nat>)
    requires Quiet(m, m', procs)
    ensures Available(m', procs, written, 0, 9) <==> Available(m, procs, written, 0, 9)
    ensures m'.used == m.used && m'.ready == m.ready
  {
    QuietSame(m, m', procs);
    hide Swappable, SomeWritten, SameCandidates;
  }

  /** A page that is not present stays so while others go out. */
  lemma StaysOut(p: Ptes, m: seq<Page>, d: map<nat, Sector>, a: seq<bool>, p': Ptes, m': seq<Page>, d': map<nat,
                 Sector>, b: seq<bool>, k: Key)
    requires SameView(p, m, d, p', m', d') && Outward(p, a, p', b) && !IsPresent(p, k)
    ensures !IsPresent(p', k) && (WasSwapped(p', k) <==> WasSwapped(p, k)) && forall s :: SwappedTo(p, k, s) ==>
      SwappedTo(p', k, s)
  {
    hide View;
  }

  /** The slot is taken, but no page is in it: it is never given back. */
  ghost predicate Stranded(ptes: Ptes, slots: seq<bool>, s: nat) {
    s < |slots| && slots[s] && forall j :: !SwappedTo(ptes, j, s)
  }

  lemma SlotStranded(ptes: Ptes, mem: seq<Page>, d: map<nat, Sector>, slots: seq<bool>, refs: seq<nat>, rmap: Rmaps,
                     procs: seq<Proc>, k: Key, e: Pte)
    requires Good(ptes, mem, d, slots, refs, rmap, procs) && e.Present?
    ensures forall s :: SwappedTo(ptes, k, s) ==> Stranded(ptes[k := e], slots, s)
  {
    hide RmapOk, PidsUnique, DiskOk, FramesOk;
    forall s | SwappedTo(ptes, k, s) ensures Stranded(ptes[k := e], slots, s) {
      var p := ptes[k := e];
      forall j ensures !SwappedTo(p, j, s) {
        assert j != k && SwappedTo(p, j, s) ==> SwappedTo(ptes, j, s);
      }
    }
  }

  lemma FreshIs(ptes: Ptes, mem: seq<Page>, d: map<nat, Sector>, slots: seq<bool>, refs: seq<nat>, rmap: Rmaps,
                procs: seq<Proc>, g: nat)
    requires Good(ptes, mem, d, slots, refs, rmap, procs) && Fresh(ptes, refs, g)
    ensures 0 < g < |refs| == |mem| && refs[g] == 1 && forall j :: !Maps(ptes, j, g)
  {
    hide RmapOk, PidsUnique, SlotsOk, DiskOk, FramesOk;
  }

  lemma SeenFilled(ptes: Ptes, mem: seq<Page>, d: map<nat, Sector>, ptes': Ptes, mem': seq<Page>, k: Key, page: Page)
    requires ptes'.Keys == ptes.Keys + {k} && k in ptes'
    requires forall j :: j in ptes' ==> View(ptes', mem', d, j) == if j == k then page else View(ptes, mem, d, j)
    ensures Seen(ptes', mem', d) == Seen(ptes, mem, d)[k := page]
  {
    hide View;
  }

  /** The page is present, its owner may write it, and nobody shares it. */
  predicate Open(ptes: Ptes, refs: seq<nat>, k: Key) { IsPresent(ptes, k) && !Guarded(ptes, refs, k) }

  /** The page is shared or read-only, so a store faults to other handlers. */
  predicate Guarded(ptes: Ptes, refs: seq<nat>, k: Key) {
    IsPresent(ptes, k) && (ptes[k].frame >= |refs| || refs[ptes[k].frame] != 1 || !ptes[k].writable)
  }

  /** swap_handle_fault can bring the page back. */
  ghost predicate Returns(m: Moment, procs: seq<Proc>, k: Key, written: seq<nat>, readOk: bool) {
    m.ready && WasSwapped(m.ptes, k) && readOk && Available(m, procs, written, 0, 9)
  }

  lemma SomeOfNine(written: seq<nat>)
    requires |written| >= 9
    ensures SomeWritten(written, 0, 9) <==> SomeWritten(written, 0, 8) || written[8] >= 8
  {
  }

  lemma StillOut(p: Ptes, a: seq<bool>, p': Ptes, b: seq<bool>, k: Key)
    requires Outward(p, a, p', b) && WasSwapped(p, k)
    ensures k in p' && p'[k] == p[k]
  {
  }

  /** A frame that was not filled after all goes back. */
  lemma GivenUp(ptes: Ptes, mem: seq<Page>, d: map<nat, Sector>, slots: seq<bool>, refs: seq<nat>, rmap: Rmaps,
                procs: seq<Proc>, g: nat)
    requires Good(ptes, mem, d, slots, refs, rmap, procs) && Fresh(ptes, refs, g)
    ensures Good(ptes, mem, d, slots, refs[g := 0], rmap, procs)
  {
    hide RmapOk, PidsUnique, SlotsOk, DiskOk;
  }

  lemma SlotUsed(ptes: Ptes, mem: seq<Page>, d: map<nat, Sector>, slots: seq<bool>, refs: seq<nat>, rmap: Rmaps,
                 procs: seq<Proc>, k: Key, s: nat)
    requires Good(ptes, mem, d, slots, refs, rmap, procs) && SwappedTo(ptes, k, s)
    ensures s < SWAP_MAX_PAGES == |slots| && slots[s] && |mem| == |refs|
  {
    hide RmapOk, PidsUnique, FramesOk, DiskOk;
  }

  /** The entry made for the owner of the page tables names the page. */
  lemma NamesOwner(ptes: Ptes, mem: seq<Page>, d: map<nat, Sector>, slots: seq<bool>, refs: seq<nat>, rmap: Rmaps,
                   procs: seq<Proc>, i: nat, k: Key)
    requires Good(ptes, mem, d, slots, refs, rmap, procs) && i < |procs| && procs[i].used && procs[i].cr3 == k.cr3
    ensures forall j :: Names(procs, Rmap(procs[i].pid, k.v), j) ==> j == k
  {
    hide RmapOk, FramesOk, DiskOk, SlotsOk;
    forall j | Names(procs, Rmap(procs[i].pid, k.v), j) ensures j == k {
      var n: nat :| IsProc(procs, n, procs[i].pid) && procs[n].cr3 != 0 && j == Key(procs[n].cr3, k.v);
      assert n == i;
    }
  }

  /** After `n` attempts to swap a page out: all failed and changed nothing of note, or frames have become free. */
  ghost predicate Tried(m: Moment, m': Moment, procs: seq<Proc>, written: seq<nat>, n: nat) {
    && |m'.refs| == |m.refs|
    && if Swappable(m, procs) && SomeWritten(written, 0, n) then |m'.used| < |m.used| else Quiet(m, m', procs)
  }

  lemma TriedMore(m: Moment, m1: Moment, m2: Moment, procs: seq<Proc>, written: seq<nat>, n: nat, ok: bool)
    requires Tried(m, m1, procs, written, n) && n < |written| && |m2.refs| == |m1.refs|
    requires ok <==> Swappable(m1, procs) && written[n] >= 8
    requires ok ==> |m2.used| < |m1.used|
    requires !ok ==> Quiet(m1, m2, procs)
    ensures Tried(m, m2, procs, written, n + 1)
  {
    hide Quiet, Swappable;
    if Swappable(m, procs) && SomeWritten(written, 0, n) {
      assert !ok ==> m2.used == m1.used by { QuietUsed(m1, m2, procs, !ok); }
    } else {
      QuietSame(m, m1, procs);
      if !ok { QuietTrans(m, m1, m2, procs); }
      QuietUsed(m, m1, procs, true);
      assert SomeWritten(written, 0, n + 1) <==> SomeWritten(written, 0, n) || written[n] >= 8;
    }
  }

  lemma TriedRelief(m: Moment, m': Moment, procs: seq<Proc>, written: seq<nat>, n: nat)
    requires Tried(m, m', procs, written, n) && n <= 8
    ensures |m'.used| < |m.used| ==> Swappable(m, procs) && SomeWritten(written, 0, 8)
  {
    hide Swappable, SameCandidates;
  }

  lemma QuietUsed(m: Moment, m': Moment, procs: seq<Proc>, b: bool)
    requires b ==> Quiet(m, m', procs)
    ensures b ==> m'.used == m.used
  {
  }

  lemma FreeCount(pmm: Pmm.Allocator)
    requires pmm.Valid()
    ensures pmm.freePages + |pmm.used| == pmm.total && forall p: nat :: p < pmm.kernelLimit ==> p in pmm.used
  {
  }

  /** After the attempts no frame is free exactly if none could be had. */
  lemma Relieved(m: Moment, m': Moment, procs: seq<Proc>, written: seq<nat>, i: nat, free: nat)
    requires Tried(m, m', procs, written, i) && |m.used| <= |m.refs| && |m'.used| + free == |m'.refs|
    requires i <= 8 && (i < 8 ==> SWAP_LOW_WATERMARK <= free)
    ensures free == 0 <==> !Available(m, procs, written, 0, 8)
    ensures |m'.used| <= |m.used| && (free == 0 ==> Quiet(m, m', procs))
  {
    hide Swappable, SameCandidates;
  }

  /** A frame just allocated, which no page maps. */
  ghost predicate Fresh(ptes: Ptes, refs: seq<nat>, g: nat) {
    0 < g < |refs| && refs[g] == 1 && forall j :: !Maps(ptes, j, g)
  }

  /** Some process lives in the address space. */
  predicate Inhabited(procs: seq<Proc>, cr3: nat) {
    exists i :: 0 <= i < |procs| && procs[i].used && procs[i].cr3 == cr3
  }

  predicate Owns(procs: seq<Proc>, i: nat, pid: nat, cr3: nat) {
    i < |procs| && procs[i].used && procs[i].cr3 == cr3 && procs[i].pid == pid
  }

  /** The reverse map leads from the frame back to the page, so that it can be swapped out again. */
  ghost predicate Tracked(rmap: Rmaps, procs: seq<Proc>, g: nat, k: Key) {
    g in rmap && rmap[g].v == k.v && exists i: nat :: Owns(procs, i, rmap[g].pid, k.cr3)
  }

  predicate IsPresent(ptes: Ptes, k: Key) { k in ptes && ptes[k].Present? }

  predicate WasSwapped(ptes: Ptes, k: Key) { k in ptes && ptes[k].Swapped? }

  /** A frame that is not in use has no references. */
  lemma UsedRefs(pmm: Pmm.Allocator)
    requires pmm.Valid()
    ensures |pmm.refs| == pmm.total && forall p: nat :: p < pmm.total && p !in pmm.used ==> pmm.refs[p] == 0
  {
  }

  /** Taking a free frame keeps everything, and no page maps it. */
  lemma FreshFrame(ptes: Ptes, mem: seq<Page>, d: map<nat, Sector>, slots: seq<bool>, refs: seq<nat>, rmap: Rmaps,
                   procs: seq<Proc>, g: nat)
    requires Good(ptes, mem, d, slots, refs, rmap, procs) && 0 < g < |refs| && refs[g] == 0
    ensures Good(ptes, mem, d, slots, refs[g := 1], rmap, procs) && Fresh(ptes, refs[g := 1], g)
  {
    hide RmapOk, PidsUnique, SlotsOk, DiskOk;
  }

  /** Only sectors of the slot differ. */
  ghost predicate SlotOnly(d: map<nat, Sector>, d': map<nat, Sector>, slot: nat) {
    d'.Keys == d.Keys && forall lba :: lba in d && !InSlot(slot, lba) ==> d'[lba] == d[lba]
  }

  predicate HasFreeSlot(slots: seq<bool>) { exists s :: 0 <= s < |slots| && !slots[s] }

  /** Something can be swapped out: a frame, and a slot for it. */
  ghost predicate CanSwap(ptes: Ptes, refs: seq<nat>, rmap: Rmaps, procs: seq<Proc>, slots: seq<bool>, ready: bool) {
    ready && HasFreeSlot(slots) && exists f: nat :: f < |refs| && CanEvict(ptes, refs, rmap, procs, f)
  }

  /** Frame `f` lost its one reference and is free. */
  ghost predicate Gave(used: set<nat>, refs: seq<nat>, used': set<nat>, refs': seq<nat>, f: nat) {
    f < |refs| && refs[f] == 1 && refs' == refs[f := 0] && f in used && used' == used - {f}
  }

  /** A frame with a reference is in use. */
  lemma RefUsed(pmm: Pmm.Allocator, f: nat)
    requires pmm.Valid() && f < |pmm.refs| && pmm.refs[f] > 0
    ensures f in pmm.used
  {
  }

  lemma AboveCleared(ptes: Ptes, k: Key, limit: nat)
    requires AboveKernel(ptes, limit)
    ensures AboveKernel(Unaccessed(ptes, k), limit)
  {
    forall j, f: nat | Maps(Unaccessed(ptes, k), j, f) ensures limit <= f {
      UnaccessedMaps(ptes, k, j, f);
    }
  }

  /** The frame of a page is none of the kernel's, and it may go. */
  lemma AboveOut(ptes: Ptes, k: Key, f: nat, limit: nat)
    requires AboveKernel(ptes, limit) && Maps(ptes, k, f)
    ensures limit <= f && forall s :: AboveKernel(ptes[k := Swapped(s)], limit)
  {
    forall s ensures AboveKernel(ptes[k := Swapped(s)], limit) {
      var p := ptes[k := Swapped(s)];
      forall j, g: nat | Maps(p, j, g) ensures limit <= g {
        assert Maps(ptes, j, g);
      }
    }
  }

  lemma AboveIn(ptes: Ptes, k: Key, g: nat, writable: bool, limit: nat)
    requires AboveKernel(ptes, limit) && limit <= g
    ensures AboveKernel(ptes[k := Present(g, false, writable)], limit)
  {
    var p := ptes[k := Present(g, false, writable)];
    forall j, f: nat | Maps(p, j, f) ensures limit <= f {
      if j != k {
        assert Maps(ptes, j, f);
      }
    }
  }

  // ----- moments -----

  /** The state of the system as values. */
  datatype Moment = Moment(ptes: Ptes, mem: seq<Page>, disk: map<nat, Sector>, slots: seq<bool>, refs: seq<nat>,
                           used: set<nat>, rmap: Rmaps, ready: bool)

  /** The entry is the same, but for its accessed bit. */
  predicate SamePlace(e: Pte, e': Pte) { e' == e || (e.Present? && e' == e.(accessed := false)) }

  ghost predicate Dimmed(p: Ptes, p': Ptes) {
    p'.Keys == p.Keys && forall k :: k in p ==> SamePlace(p[k], p'[k])
  }

  /** The page has left memory. */
  predicate Went(p: Ptes, p': Ptes, k: Key) { IsPresent(p, k) && WasSwapped(p', k) }

  /** A page of the frame has left memory. */
  ghost predicate Vacated(p: Ptes, p': Ptes, f: nat) { exists k :: Went(p, p', k) && p[k].frame == f }

  /** A page has gone to the slot. */
  ghost predicate Settled(p: Ptes, p': Ptes, s: nat) { exists k :: Went(p, p', k) && p'[k].slot == s }

  /** What is known of a frame. */
  datatype Frame = Frame(refs: nat, used: bool, tracked: bool, owner: Rmap)

  const VACANT := Frame(0, false, false, Rmap(0, 0))

  ghost function FrameOf(m: Moment, f: nat): Frame {
    Frame(if f < |m.refs| then m.refs[f] else 0, f in m.used, f in m.rmap,
          if f in m.rmap then m.rmap[f] else Rmap(0, 0))
  }

  /** The page could be evicted, and went to a slot that was free. */
  ghost predicate GoesOut(m: Moment, m': Moment, procs: seq<Proc>, k: Key) {
    && Went(m.ptes, m'.ptes, k) && Evictable(m.ptes, m.refs, m.rmap, procs, m.ptes[k].frame, k)
    && m'.ptes[k].slot < |m.slots| && !m.slots[m'.ptes[k].slot]
  }

  /** Only slots that are free have been written to. */
  ghost predicate SpareOnly(d: map<nat, Sector>, d': map<nat, Sector>, slots: seq<bool>) {
    && d'.Keys == d.Keys
    && forall lba :: lba in d && d'[lba] != d[lba] ==> exists s: nat :: s < |slots| && !slots[s] && InSlot(s, lba)
  }

  /**
   * Pages that could be evicted have gone to free slots; their frames are free and their
   * slots taken. Nothing else moved, and memory is as it was.
   */
  ghost predicate Outs(m: Moment, m': Moment, procs: seq<Proc>) {
    && m'.mem == m.mem && m'.ready == m.ready && |m'.refs| == |m.refs| && |m'.slots| == |m.slots|
    && m'.ptes.Keys == m.ptes.Keys && SpareOnly(m.disk, m'.disk, m.slots)
    && (forall k :: k in m.ptes ==> SamePlace(m.ptes[k], m'.ptes[k]) || GoesOut(m, m', procs, k))
    && (forall f: nat :: FrameOf(m', f) == if Vacated(m.ptes, m'.ptes, f) then VACANT else FrameOf(m, f))
    && (forall s :: 0 <= s < |m.slots| ==> (m'.slots[s] <==> m.slots[s] || Settled(m.ptes, m'.ptes, s)))
  }

  /** Pages are swapped out when fewer frames than this are free. */
  predicate Low(m: Moment) { |m.refs| < |m.used| + SWAP_LOW_WATERMARK }

  /**
   * At most `n` pages went out, and one only if frames were short, something could be swapped
   * out and one of the first `n` transfers gets through.
   */
  ghost predicate Relief(m: Moment, m': Moment, procs: seq<Proc>, written: seq<nat>, n: nat) {
    && Outs(m, m', procs) && |m'.used| <= |m.used| <= |m'.used| + n && (!Low(m) ==> m' == m)
    && (|m'.used| < |m.used| ==> Swappable(m, procs) && SomeWritten(written, 0, n))
  }

  /** Frame `g`, which was free, has been taken. */
  ghost function Grabbed(m: Moment, g: nat): Moment
    requires g < |m.refs|
  {
    m.(refs := m.refs[g := 1], used := m.used + {g})
  }

  predicate FreeIn(m: Moment, g: nat) { 0 < g < |m.refs| && g !in m.used && m.refs[g] == 0 }

  /** The frame's reverse-map entry, where there is one, leads to the page. */
  ghost predicate Noted(rmap: Rmaps, rmap': Rmaps, procs: seq<Proc>, g: nat, k: Key) {
    if g < RMAP_MAX_PAGES && Inhabited(procs, k.cr3) then
      g in rmap' && rmap' == rmap[g := rmap'[g]] && Tracked(rmap', procs, g, k)
    else rmap' == rmap
  }

  /** Page `k` lies in frame `g` now, with these contents; nothing else changed but the slots. */
  ghost predicate Placed(m: Moment, m': Moment, procs: seq<Proc>, k: Key, g: nat, page: Page, writable: bool,
                         slots: seq<bool>) {
    && g < |m.mem| && Noted(m.rmap, m'.rmap, procs, g, k)
    && m' == m.(ptes := m.ptes[k := Present(g, false, writable)], mem := m.mem[g := page], slots := slots,
                rmap := m'.rmap)
  }

  /** Page `k` came into a frame that was free. */
  ghost predicate ComesIn(m: Moment, m': Moment, procs: seq<Proc>, k: Key, g: nat, page: Page, writable: bool,
                          slots: seq<bool>) {
    FreeIn(m, g) && Placed(Grabbed(m, g), m', procs, k, g, page, writable, slots)
  }

  /** Frame `g`, which was taken, has been given back. */
  ghost function Ungrabbed(m: Moment, g: nat): Moment {
    m.(refs := if g < |m.refs| then m.refs[g := 0] else m.refs, used := m.used - {g})
  }

  lemma Ungrabs(m: Moment, g: nat)
    requires FreeIn(m, g)
    ensures Ungrabbed(Grabbed(m, g), g) == m
  {
  }

  function FreedSlot(slots: seq<bool>, s: nat): seq<bool> { if s < |slots| then slots[s := false] else slots }

  /** The slots once page `k`, swapped out in `m`, is back. */
  function Released(m: Moment, mid: Moment, k: Key): seq<bool> {
    if WasSwapped(m.ptes, k) then FreedSlot(mid.slots, m.ptes[k].slot) else mid.slots
  }

  /** The first area of the page allows writing. */
  predicate MayWrite(areas: seq<Area>, v: nat) { AreaAt(areas, v) < |areas| && areas[AreaAt(areas, v)].writable }

  /**
   * The fault handler provided the page: pages went out if frames were short, and the page
   * came into a free frame, with the area's first contents or the contents it had.
   */
  ghost predicate FetchedVia(m: Moment, procs: seq<Proc>, who: nat, v: nat, write: bool, written: seq<nat>, m': Moment,
                             mid: Moment, g: nat) {
    var k := PageOf(procs, who, v);
    if TakesArea(m, procs, who, v, write, written) then
      && Relief(m, mid, procs, written, 8)
      && ComesIn(mid, m', procs, k, g, FirstContents(AreasOf(procs, who), v), MayWrite(AreasOf(procs, who), v),
                 mid.slots)
    else
      && |written| >= 8 && Relief(m, mid, procs, written[8..], 9)
      && ComesIn(mid, m', procs, k, g, View(m.ptes, m.mem, m.disk, k), true, Released(m, mid, k))
  }

  ghost predicate Fetched(m: Moment, procs: seq<Proc>, who: nat, v: nat, write: bool, written: seq<nat>, m': Moment) {
    exists mid, g :: FetchedVia(m, procs, who, v, write, written, m', mid, g)
  }

  lemma ViewStored(p: Ptes, m: seq<Page>, d: map<nat, Sector>, p': Ptes, m': seq<Page>, d': map<nat, Sector>, k: Key,
                   s: nat)
    requires SameView(p, m, d, p', m', d') && k in p' && p'[k] == Swapped(s)
    ensures View(p, m, d, k) == Stored(d', s)
  {
    assert View(p', m', d', k) == Stored(d', s);
  }

  lemma SeenAtPage(m: Moment, m': Moment, k: Key)
    requires Seen(m'.ptes, m'.mem, m'.disk) == Seen(m.ptes, m.mem, m.disk) && k in m'.ptes
    ensures View(m'.ptes, m'.mem, m'.disk, k) == View(m.ptes, m.mem, m.disk, k)
  {
    hide View;
    SeenKeys(m.ptes, m.mem, m.disk);
    SeenKeys(m'.ptes, m'.mem, m'.disk);
    assert Seen(m'.ptes, m'.mem, m'.disk)[k] == Seen(m.ptes, m.mem, m.disk)[k];
  }

  /** Pages that go out leave those already out where they are. */
  lemma ReleasedSame(m: Moment, m1: Moment, mid: Moment, procs: seq<Proc>, k: Key)
    requires Outs(m, m1, procs) && (WasSwapped(m1.ptes, k) <==> WasSwapped(m.ptes, k))
    ensures Released(m1, mid, k) == Released(m, mid, k)
  {
    hide Evictable, FrameOf, SpareOnly;
  }

  lemma ReliefMore(m: Moment, m1: Moment, m2: Moment, procs: seq<Proc>, written: seq<nat>, a: nat, b: nat)
    requires Outs(m, m1, procs) && |m1.used| <= |m.used| <= |m1.used| + a && Low(m)
    requires Outs(m1, m2, procs) && |m2.used| <= |m1.used| <= |m2.used| + b
    requires |m2.used| < |m.used| ==> Swappable(m, procs) && SomeWritten(written, 0, a + b)
    ensures Relief(m, m2, procs, written, a + b)
  {
    hide Outs, Swappable;
    OutsTrans(m, m1, m2, procs);
  }

  lemma ReliefAfter(m: Moment, m1: Moment, m2: Moment, procs: seq<Proc>, written: seq<nat>, w: seq<nat>)
    requires Relief(m, m1, procs, written, 8) && Quiet(m, m1, procs) && Relief(m1, m2, procs, w, 9)
    ensures Relief(m, m2, procs, w, 9)
  {
    OutsTrans(m, m1, m2, procs);
    QuietSame(m, m1, procs);
    hide FrameOf, GoesOut, SpareOnly, Vacated, Settled, Swappable;
  }

  // ----- pages only go out -----

  lemma DimmedRefl(p: Ptes)
    ensures Dimmed(p, p)
  {
  }

  lemma DimmedMore(p: Ptes, p1: Ptes, k: Key)
    requires Dimmed(p, p1) && IsPresent(p1, k)
    ensures Dimmed(p, p1[k := p1[k].(accessed := false)])
  {
  }

  lemma SpareIs(d: map<nat, Sector>, d': map<nat, Sector>, s: nat, slots: seq<bool>)
    requires SlotOnly(d, d', s) && s < |slots| && !slots[s]
    ensures SpareOnly(d, d', slots)
  {
    hide InSlot;
  }

  lemma OutsRefl(m: Moment, procs: seq<Proc>)
    ensures Outs(m, m, procs)
  {
    hide Evictable;
  }

  lemma OutsDim(m: Moment, m': Moment, procs: seq<Proc>)
    requires Dimmed(m.ptes, m'.ptes) && m' == m.(ptes := m'.ptes)
    ensures Outs(m, m', procs)
  {
    hide Evictable;
  }

  lemma OutsScratch(m: Moment, m': Moment, procs: seq<Proc>)
    requires SpareOnly(m.disk, m'.disk, m.slots) && m' == m.(disk := m'.disk)
    ensures Outs(m, m', procs)
  {
    hide Evictable, SpareOnly;
  }

  /** One eviction. */
  ghost predicate OneOut(m: Moment, m': Moment, procs: seq<Proc>, f: nat, k: Key, s: nat) {
    && Evictable(m.ptes, m.refs, m.rmap, procs, f, k) && s < |m.slots| && !m.slots[s]
    && SpareOnly(m.disk, m'.disk, m.slots)
    && m' == m.(ptes := m.ptes[k := Swapped(s)], disk := m'.disk, slots := m.slots[s := true], refs := m.refs[f := 0],
                used := m.used - {f}, rmap := m.rmap - {f})
  }

  lemma OutsOne(m: Moment, m': Moment, procs: seq<Proc>, f: nat, k: Key, s: nat)
    requires OneOut(m, m', procs, f, k, s)
    ensures Outs(m, m', procs)
  {
    hide SpareOnly, Names;
    assert forall j :: Went(m.ptes, m'.ptes, j) <==> j == k;
    assert m.ptes[k].frame == f && m'.ptes[k].slot == s;
  }

  /** What goes out in two steps. */
  lemma WentTrans(m: Moment, m1: Moment, m2: Moment, procs: seq<Proc>, k: Key)
    requires Outs(m, m1, procs) && Outs(m1, m2, procs) && k in m.ptes
    ensures Went(m.ptes, m2.ptes, k) <==> Went(m.ptes, m1.ptes, k) || Went(m1.ptes, m2.ptes, k)
    ensures Went(m.ptes, m1.ptes, k) ==> m2.ptes[k] == m1.ptes[k]
    ensures Went(m1.ptes, m2.ptes, k) ==> IsPresent(m.ptes, k) && m.ptes[k].frame == m1.ptes[k].frame
    ensures SamePlace(m.ptes[k], m2.ptes[k]) || Went(m.ptes, m2.ptes, k)
  {
    hide Evictable, SpareOnly, FrameOf;
  }

  /** What can be evicted after some pages went could be evicted before. */
  lemma EvictableBefore(m: Moment, m1: Moment, procs: seq<Proc>, f: nat, k: Key)
    requires Outs(m, m1, procs) && Evictable(m1.ptes, m1.refs, m1.rmap, procs, f, k)
    ensures Evictable(m.ptes, m.refs, m.rmap, procs, f, k)
  {
    hide Names, SpareOnly, Settled;
    assert FrameOf(m1, f).refs == 1;
    assert FrameOf(m1, f) == FrameOf(m, f);
  }

  lemma GoesOutTrans(m: Moment, m1: Moment, m2: Moment, procs: seq<Proc>, k: Key)
    requires Outs(m, m1, procs) && Outs(m1, m2, procs) && Went(m.ptes, m2.ptes, k)
    ensures GoesOut(m, m2, procs, k)
  {
    hide Evictable, SpareOnly, FrameOf;
    WentTrans(m, m1, m2, procs, k);
    if Went(m1.ptes, m2.ptes, k) {
      EvictableBefore(m, m1, procs, m1.ptes[k].frame, k);
    }
  }

  lemma VacatedTrans(m: Moment, m1: Moment, m2: Moment, procs: seq<Proc>, f: nat)
    requires Outs(m, m1, procs) && Outs(m1, m2, procs)
    ensures Vacated(m.ptes, m2.ptes, f) <==> Vacated(m.ptes, m1.ptes, f) || Vacated(m1.ptes, m2.ptes, f)
  {
    hide Outs;
    if k :| Went(m.ptes, m2.ptes, k) && m.ptes[k].frame == f {
      WentTrans(m, m1, m2, procs, k);
    }
    if k :| Went(m.ptes, m1.ptes, k) && m.ptes[k].frame == f {
      WentTrans(m, m1, m2, procs, k);
    }
    if k :| Went(m1.ptes, m2.ptes, k) && m1.ptes[k].frame == f {
      SameKeys(m, m1, procs);
      WentTrans(m, m1, m2, procs, k);
    }
  }

  lemma SettledTrans(m: Moment, m1: Moment, m2: Moment, procs: seq<Proc>, s: nat)
    requires Outs(m, m1, procs) && Outs(m1, m2, procs)
    ensures Settled(m.ptes, m2.ptes, s) <==> Settled(m.ptes, m1.ptes, s) || Settled(m1.ptes, m2.ptes, s)
  {
    hide Outs;
    if k :| Went(m.ptes, m2.ptes, k) && m2.ptes[k].slot == s {
      WentTrans(m, m1, m2, procs, k);
    }
    if k :| Went(m.ptes, m1.ptes, k) && m1.ptes[k].slot == s {
      WentTrans(m, m1, m2, procs, k);
    }
    if k :| Went(m1.ptes, m2.ptes, k) && m2.ptes[k].slot == s {
      SameKeys(m, m1, procs);
      WentTrans(m, m1, m2, procs, k);
    }
  }

  lemma SameKeys(m: Moment, m1: Moment, procs: seq<Proc>)
    requires Outs(m, m1, procs)
    ensures m1.ptes.Keys == m.ptes.Keys
  {
  }

  lemma SpareTrans(d: map<nat, Sector>, a: seq<bool>, d1: map<nat, Sector>, b: seq<bool>, d2: map<nat, Sector>)
    requires SpareOnly(d, d1, a) && SpareOnly(d1, d2, b) && |b| == |a| && forall s :: 0 <= s < |a| && a[s] ==> b[s]
    ensures SpareOnly(d, d2, a)
  {
    hide InSlot;
    forall lba | lba in d && d2[lba] != d[lba] ensures exists s: nat :: s < |a| && !a[s] && InSlot(s, lba) {
      if d1[lba] == d[lba] {
        var s: nat :| s < |b| && !b[s] && InSlot(s, lba);
        assert !a[s];
      }
    }
  }

  lemma OutsTrans(m: Moment, m1: Moment, m2: Moment, procs: seq<Proc>)
    requires Outs(m, m1, procs) && Outs(m1, m2, procs)
    ensures Outs(m, m2, procs)
  {
    hide SpareOnly, Vacated, Settled, FrameOf, GoesOut, Went;
    SpareTrans(m.disk, m.slots, m1.disk, m1.slots, m2.disk);
    forall k | k in m.ptes ensures SamePlace(m.ptes[k], m2.ptes[k]) || GoesOut(m, m2, procs, k) {
      WentTrans(m, m1, m2, procs, k);
      if Went(m.ptes, m2.ptes, k) {
        GoesOutTrans(m, m1, m2, procs, k);
      }
    }
    forall f: nat ensures FrameOf(m2, f) == if Vacated(m.ptes, m2.ptes, f) then VACANT else FrameOf(m, f) {
      VacatedTrans(m, m1, m2, procs, f);
    }
    forall s | 0 <= s < |m.slots| ensures m2.slots[s] <==> m.slots[s] || Settled(m.ptes, m2.ptes, s) {
      SettledTrans(m, m1, m2, procs, s);
    }
  }

  /** Nothing that decides about evictions has changed. */
  ghost predicate Quiet(m: Moment, m': Moment, procs: seq<Proc>) {
    && m'.slots == m.slots && m'.refs == m.refs && m'.used == m.used && m'.rmap == m.rmap && m'.ready == m.ready
    && m'.mem == m.mem
    && SameCandidates(m.ptes, m'.ptes, m.refs, m.rmap, procs)
  }

  ghost predicate Swappable(m: Moment, procs: seq<Proc>) { CanSwap(m.ptes, m.refs, m.rmap, procs, m.slots, m.ready) }

  /** One of the transfers from the `from`-th on gets all eight sectors through. */
  predicate SomeWritten(written: seq<nat>, from: nat, to: nat) {
    exists i :: from <= i < to && i < |written| && written[i] >= 8
  }

  /** A frame can be had: one is free, or a page can be swapped out by one of the attempts. */
  ghost predicate Available(m: Moment, procs: seq<Proc>, written: seq<nat>, from: nat, to: nat) {
    |m.used| < |m.refs| || (Swappable(m, procs) && SomeWritten(written, from, to))
  }

  lemma QuietTrans(m: Moment, m1: Moment, m2: Moment, procs: seq<Proc>)
    requires Quiet(m, m1, procs) && Quiet(m1, m2, procs)
    ensures Quiet(m, m2, procs)
  {
    hide CanEvict;
  }

  lemma QuietRefl(m: Moment, procs: seq<Proc>)
    ensures Quiet(m, m, procs)
  {
    hide CanEvict;
  }

  lemma QuietSame(m: Moment, m': Moment, procs: seq<Proc>)
    requires Quiet(m, m', procs)
    ensures Swappable(m', procs) <==> Swappable(m, procs)
  {
    hide CanEvict;
    if Swappable(m, procs) {
      var f: nat :| f < |m.refs| && CanEvict(m.ptes, m.refs, m.rmap, procs, f);
      assert CanEvict(m'.ptes, m'.refs, m'.rmap, procs, f);
    }
    if Swappable(m', procs) {
      var f: nat :| f < |m'.refs| && CanEvict(m'.ptes, m'.refs, m'.rmap, procs, f);
      assert CanEvict(m.ptes, m.refs, m.rmap, procs, f);
    }
  }

  /** Pages only go out: those on disk stay where they are, and their slots stay taken. */
  ghost predicate Outward(ptes: Ptes, slots: seq<bool>, ptes': Ptes, slots': seq<bool>) {
    && |slots'| == |slots| && (forall s :: 0 <= s < |slots| && slots[s] ==> slots'[s])
    && (forall k :: WasSwapped(ptes, k) ==> k in ptes' && ptes'[k] == ptes[k])
  }

  lemma OutwardRefl(ptes: Ptes, slots: seq<bool>)
    ensures Outward(ptes, slots, ptes, slots)
  {
  }

  lemma OutwardStep(ptes: Ptes, slots: seq<bool>, k: Key, s: nat)
    requires s < |slots| && k in ptes && ptes[k].Present?
    ensures Outward(ptes, slots, ptes[k := Swapped(s)], slots[s := true])
  {
  }

  lemma OutwardClear(ptes: Ptes, slots: seq<bool>, k: Key)
    ensures Outward(ptes, slots, Unaccessed(ptes, k), slots)
  {
  }

  lemma OutwardTrans(p: Ptes, a: seq<bool>, p1: Ptes, b: seq<bool>, p2: Ptes, c: seq<bool>)
    requires Outward(p, a, p1, b) && Outward(p1, b, p2, c)
    ensures Outward(p, a, p2, c)
  {
  }

  lemma NoCandidate(p: Ptes, p': Ptes, refs: seq<nat>, rmap: Rmaps, procs: seq<Proc>)
    requires SameCandidates(p, p', refs, rmap, procs) && forall g: nat :: g < |refs| ==>
      !CanEvict(p', refs, rmap, procs, g)
    ensures forall g: nat :: g < |refs| ==> !CanEvict(p, refs, rmap, procs, g)
  {
    hide CanEvict;
  }

  lemma FoundCandidate(p: Ptes, p': Ptes, refs: seq<nat>, rmap: Rmaps, procs: seq<Proc>, f: nat, k: Key)
    requires SameCandidates(p, p', refs, rmap, procs) && Evictable(p', refs, rmap, procs, f, k)
    ensures f < |refs| && CanEvict(p, refs, rmap, procs, f)
  {
    assert CanEvict(p', refs, rmap, procs, f);
  }

  lemma GoodShape(ptes: Ptes, mem: seq<Page>, d: map<nat, Sector>, slots: seq<bool>, refs: seq<nat>, rmap: Rmaps,
                  procs: seq<Proc>, k: Key, f: nat)
    requires Good(ptes, mem, d, slots, refs, rmap, procs) && k in ptes && ptes[k].Present? && ptes[k].frame == f
    ensures |mem| == |refs| && DiskOk(d) && |slots| == SWAP_MAX_PAGES && 0 < f < |refs|
  {
    hide RmapOk, PidsUnique;
    assert Maps(ptes, k, f);
  }

  /** A transfer that fails half way spoils only a slot nobody uses. */
  lemma ScratchWrite(ptes: Ptes, mem: seq<Page>, d: map<nat, Sector>, slots: seq<bool>, refs: seq<nat>, rmap: Rmaps,
                     procs: seq<Proc>, s: nat, d': map<nat, Sector>)
    requires Good(ptes, mem, d, slots, refs, rmap, procs) && s < |slots| && !slots[s] && SlotOnly(d, d', s)
    ensures Good(ptes, mem, d', slots, refs, rmap, procs) && SameView(ptes, mem, d, ptes, mem, d')
  {
    hide RmapOk, PidsUnique, FramesOk;
    forall j | j in ptes && ptes[j].Swapped? ensures Stored(d', ptes[j].slot) == Stored(d, ptes[j].slot) {
      assert SwappedTo(ptes, j, ptes[j].slot);
      var t := ptes[j].slot;
      forall lba | InSlot(t, lba) ensures SectorAt(d', lba) == SectorAt(d, lba) {
        SlotsApart(t, s, lba);
      }
    }
  }

  /** The frames that can be evicted are the same. */
  ghost predicate SameCandidates(p: Ptes, p': Ptes, refs: seq<nat>, rmap: Rmaps, procs: seq<Proc>) {
    forall f: nat :: CanEvict(p', refs, rmap, procs, f) <==> CanEvict(p, refs, rmap, procs, f)
  }

  lemma SameRefl(p: Ptes, refs: seq<nat>, rmap: Rmaps, procs: seq<Proc>)
    ensures SameCandidates(p, p, refs, rmap, procs)
  {
  }

  lemma TotalPositive(pmm: Pmm.Allocator)
    requires pmm.Valid()
    ensures 0 < pmm.total
  {
  }

  lemma SlotInRange(start: nat, j: nat, total: nat)
    requires 0 < total
    ensures Pmm.Slot(start, j, total) < total
  {
  }

  lemma SlotIs(start: nat, g: nat, total: nat)
    requires g < total
    ensures Pmm.Slot(start, (g - start) % total, total) == g
  {
    Pmm.ModInverse(total, start, g);
  }

  lemma EvictableHas(ptes: Ptes, refs: seq<nat>, rmap: Rmaps, procs: seq<Proc>, f: nat, k: Key)
    requires Evictable(ptes, refs, rmap, procs, f, k)
    ensures k in ptes && ptes[k].Present? && ptes[k].frame == f && f in rmap && f < |refs| && refs[f] == 1
  {
  }

  lemma ColdMeans(ptes: Ptes, refs: seq<nat>, rmap: Rmaps, procs: seq<Proc>, f: nat, k: Key)
    requires Cold(ptes, refs, rmap, procs, f) && Evictable(ptes, refs, rmap, procs, f, k)
    ensures k in ptes && ptes[k].Present? && !ptes[k].accessed
  {
  }

  lemma Cleared(ptes: Ptes, mem: seq<Page>, d: map<nat, Sector>, slots: seq<bool>, refs: seq<nat>, rmap: Rmaps,
                procs: seq<Proc>, k: Key, first: Ptes)
    requires Good(ptes, mem, d, slots, refs, rmap, procs) && SameView(first, mem, d, ptes, mem, d)
      && SameCandidates(first, ptes, refs, rmap, procs)
    ensures Good(Unaccessed(ptes, k), mem, d, slots, refs, rmap, procs)
      && SameView(first, mem, d, Unaccessed(ptes, k), mem, d)
    ensures SameCandidates(first, Unaccessed(ptes, k), refs, rmap, procs)
  {
    hide Good, SameView, CanEvict;
    ClearAccessed(ptes, mem, d, slots, refs, rmap, procs, k);
    SameViewTrans(first, mem, d, ptes, mem, d, Unaccessed(ptes, k), mem, d);
  }

  lemma {:induction false} NoneTaken(slots: seq<bool>)
    requires forall i :: 0 <= i < |slots| ==> !slots[i]
    ensures Taken(slots) == 0
  {
    if slots != [] {
      NoneTaken(slots[..|slots| - 1]);
    }
  }

  lemma NamesNothing(ptes: Ptes, refs: seq<nat>, rmap: Rmaps, procs: seq<Proc>, f: nat)
    requires f >= |refs| || refs[f] != 1 || f !in rmap || rmap[f].pid == 0
    ensures !CanEvict(ptes, refs, rmap, procs, f)
  {
  }

  // ----- runs -----

  /** An access by a process, or memory pressure, with what the disk will do. */
  datatype Request =
    | Load(who: nat, v: nat, written: seq<nat>, readOk: bool)
    | Store(who: nat, v: nat, i: nat, sector: Sector, written: seq<nat>, readOk: bool)
    | Pressure(done: nat)

  datatype Answer = Loaded(page: Page) | Done | Failed

  type Flat = map<Key, Page>

  /** Memory as the processes see it. */
  ghost function Seen(ptes: Ptes, mem: seq<Page>, d: map<nat, Sector>): Flat {
    map k | k in ptes :: View(ptes, mem, d, k)
  }

  ghost function SeenAt(m: Moment): Flat { Seen(m.ptes, m.mem, m.disk) }

  predicate Allowed(procs: seq<Proc>, q: Request) {
    q.Pressure? || (Alive(procs, q.who) && |q.written| >= 25 && (q.Store? ==> q.i < 8))
  }

  function Target(procs: seq<Proc>, q: Request): Key
    requires !q.Pressure?
  {
    PageOf(procs, q.who, q.v)
  }

  /** Memory without swapping: a page of an area that was never accessed holds the area's first contents. */
  function Touched(m: Flat, procs: seq<Proc>, q: Request): Flat
    requires !q.Pressure?
    ensures Target(procs, q) in Touched(m, procs, q)
  {
    if Target(procs, q) in m then m else m[Target(procs, q) := FirstContents(AreasOf(procs, q.who), q.v)]
  }

  function WithSector(p: Page, i: nat, x: Sector): Page { if i < 8 then p[i := x] else p }

  /** What an answered request does to memory without swapping. */
  function After(m: Flat, procs: seq<Proc>, q: Request, a: Answer): Flat {
    if q.Pressure? || a == Failed then m
    else
      var t, k := Touched(m, procs, q), Target(procs, q);
      if q.Store? then t[k := WithSector(t[k], q.i, q.sector)] else t
  }

  /** A load that succeeds returns what memory without swapping holds. */
  predicate Right(m: Flat, procs: seq<Proc>, q: Request, a: Answer) {
    match q
    case Load(_, _, _, _) => a == Failed || a == Loaded(Touched(m, procs, q)[Target(procs, q)])
    case Store(_, _, _, _, _, _) => a == Failed || a == Done
    case Pressure(_) => a == Done
  }

  function AfterAll(m: Flat, procs: seq<Proc>, qs: seq<Request>, answers: seq<Answer>): Flat
    requires |answers| <= |qs|
    decreases |answers|
  {
    if answers == [] then m
    else After(AfterAll(m, procs, qs, answers[..|answers| - 1]), procs, qs[|answers| - 1], answers[|answers| - 1])
  }

  /** Every answer so far is right. */
  predicate Honest(m: Flat, procs: seq<Proc>, qs: seq<Request>, answers: seq<Answer>) {
    |answers| <= |qs| && forall i :: 0 <= i < |answers| ==>
      Right(AfterAll(m, procs, qs, answers[..i]), procs, qs[i], answers[i])
  }

  /** The page was swapped out, and an area takes the access before swap is asked: what the page held is lost. */
  ghost predicate Lost(m: Moment, procs: seq<Proc>, q: Request) {
    !q.Pressure? && WasSwapped(m.ptes, Target(procs, q)) && TakesArea(m, procs, q.who, q.v, q.Store?, q.written)
  }

  /** The memory an access meets. */
  ghost function Met(m: Moment, procs: seq<Proc>, q: Request): Flat {
    if Lost(m, procs, q) then SeenAt(m)[Target(procs, q) := FirstContents(AreasOf(procs, q.who), q.v)] else SeenAt(m)
  }

  /** The access fails: a store to a guarded page, or a page that neither handler can provide. */
  ghost predicate Fails(m: Moment, procs: seq<Proc>, q: Request) {
    !q.Pressure? &&
    if IsPresent(m.ptes, Target(procs, q)) then q.Store? && Guarded(m.ptes, m.refs, Target(procs, q))
    else !Fetches(m, procs, q.who, q.v, q.Store?, q.written, q.readOk)
  }

  /** The state after an access to a present page: a store that was done changes its frame. */
  ghost function Accessed(m: Moment, q: Request, k: Key, a: Answer): Moment {
    if q.Store? && a == Done && IsPresent(m.ptes, k) && m.ptes[k].frame < |m.mem| then
      var f := m.ptes[k].frame;
      m.(mem := m.mem[f := WithSector(m.mem[f], q.i, q.sector)])
    else m
  }

  /**
   * What moves. Under pressure one page that can be evicted goes out, exactly if there is
   * one, a free slot and a disk that takes it. An access to a present page moves nothing. For
   * any other access pages go out only if frames are short, and only its own page comes in.
   */
  ghost predicate Moves(m: Moment, procs: seq<Proc>, q: Request, a: Answer, m': Moment) {
    if q.Pressure? then
      Outs(m, m', procs) && |m.used| == |m'.used| + (if Swappable(m, procs) && q.done >= 8 then 1 else 0)
    else if IsPresent(m.ptes, Target(procs, q)) then m' == Accessed(m, q, Target(procs, q), a)
    else if a == Failed then |q.written| >= 8 && Relief(m, m', procs, q.written[8..], 9)
    else exists m1 ::
      Fetched(m, procs, q.who, q.v, q.Store?, q.written, m1) && m' == Accessed(m1, q, Target(procs, q), a)
  }

  /**
   * One request takes the system from one moment to the next as memory without swapping, but
   * for a page that is lost.
   */
  ghost predicate Step(m: Moment, procs: seq<Proc>, q: Request, a: Answer, m': Moment) {
    && Right(Met(m, procs, q), procs, q, a) && SeenAt(m') == After(Met(m, procs, q), procs, q, a)
    && (a == Failed <==> Fails(m, procs, q)) && Moves(m, procs, q, a, m')
  }

  /** The moment is a state of the machine: everything is consistent, and frames with references are in use. */
  ghost predicate Sound(m: Moment, procs: seq<Proc>) {
    && Good(m.ptes, m.mem, m.disk, m.slots, m.refs, m.rmap, procs)
    && (forall f: nat :: f in m.used ==> f < |m.refs|)
    && forall f: nat :: f < |m.refs| && m.refs[f] > 0 ==> f in m.used
  }

  /** The answers tell a chain of steps through states of the machine. */
  ghost predicate Trace(procs: seq<Proc>, qs: seq<Request>, answers: seq<Answer>, ms: seq<Moment>) {
    && |answers| <= |qs| && |ms| == |answers| + 1
    && (forall j :: 0 <= j < |answers| ==> Step(ms[j], procs, qs[j], answers[j], ms[j + 1]))
    && forall j :: 0 <= j < |ms| ==> Sound(ms[j], procs)
  }

  lemma SeenSame(p: Ptes, m: seq<Page>, d: map<nat, Sector>, p': Ptes, m': seq<Page>, d': map<nat, Sector>)
    requires SameView(p, m, d, p', m', d')
    ensures Seen(p', m', d') == Seen(p, m, d)
  {
    hide View;
  }

  /** A store through the only mapping of a frame changes that page and no other. */
  lemma Stores(ptes: Ptes, mem: seq<Page>, d: map<nat, Sector>, slots: seq<bool>, refs: seq<nat>, rmap: Rmaps,
               procs: seq<Proc>, k: Key, f: nat, page: Page)
    requires Good(ptes, mem, d, slots, refs, rmap, procs) && Maps(ptes, k, f) && f < |refs| == |mem| && refs[f] == 1
    ensures Good(ptes, mem[f := page], d, slots, refs, rmap, procs)
    ensures Seen(ptes, mem[f := page], d) == Seen(ptes, mem, d)[k := page]
  {
    hide RmapOk, PidsUnique, SlotsOk, DiskOk, Stored;
    forall j | j in ptes && j != k ensures View(ptes, mem[f := page], d, j) == View(ptes, mem, d, j) {
      if ptes[j].Present? {
        assert Maps(ptes, j, ptes[j].frame);
      }
    }
  }

  lemma SeenHere(ptes: Ptes, mem: seq<Page>, d: map<nat, Sector>, k: Key, f: nat)
    requires Maps(ptes, k, f) && f < |mem|
    ensures k in Seen(ptes, mem, d) && Seen(ptes, mem, d)[k] == mem[f]
  {
  }

  lemma SeenKeys(ptes: Ptes, mem: seq<Page>, d: map<nat, Sector>)
    ensures Seen(ptes, mem, d).Keys == ptes.Keys
  {
  }

  /** One request; a page that is not present is provided by the fault handler first. */
  method Serve(w: Swapper, q: Request) returns (a: Answer)
    requires w.Valid() && Allowed(w.procs, q)
    modifies w, w.pmm, w.pmm.bitmap, w.pmm.refcount
    ensures w.Valid() && Step(old(w.Now()), w.procs, q, a, w.Now())
  {
    hide Pmm.Allocator.Valid, Good, SameView, Taken, Seen, AboveKernel, TakesArea, Returns, FirstContents, Outs,
         Fetched;
    ghost var m := w.Now();
    SeenKeys(w.ptes, w.mem, w.disk);
    if q.Pressure? {
      var r := w.EvictOne(q.done);
      SeenSame(m.ptes, m.mem, m.disk, w.ptes, w.mem, w.disk);
      QuietUsed(m, w.Now(), w.procs, r != 0);
      return Done;
    }
    var k := Target(w.procs, q);
    if k !in w.ptes || w.ptes[k].Swapped? {
      var r := w.PageFault(q.who, q.v, q.Store?, q.written, q.readOk);
      if r != 0 {
        return Failed;
      }
    }
    ghost var m1 := w.Now();
    a := Access(w, q, k);
    assert w.Now() == Accessed(m1, q, k, a);
  }

  /** The access itself, once the page is present. */
  method Access(w: Swapper, q: Request, k: Key) returns (a: Answer)
    requires w.Valid() && !q.Pressure? && IsPresent(w.ptes, k) && (q.Store? ==> q.i < 8)
    modifies w`mem
    ensures w.Valid() && k in old(Seen(w.ptes, w.mem, w.disk))
    ensures a == if q.Store? && Guarded(w.ptes, w.pmm.refs, k) then Failed else if q.Store? then Done
      else Loaded(old(Seen(w.ptes, w.mem, w.disk))[k])
    ensures Seen(w.ptes, w.mem, w.disk)
         == if a == Done then
              old(Seen(w.ptes, w.mem, w.disk))[k := WithSector(old(Seen(w.ptes, w.mem, w.disk))[k], q.i, q.sector)]
            else old(Seen(w.ptes, w.mem, w.disk))
    ensures w.Now() == Accessed(old(w.Now()), q, k, a)
  {
    hide Pmm.Allocator.Valid, Good, Taken, Seen, AboveKernel;
    var f := w.ptes[k].frame;
    GoodShape(w.ptes, w.mem, w.disk, w.slots, w.pmm.refs, w.rmap, w.procs, k, f);
    SeenHere(w.ptes, w.mem, w.disk, k, f);
    if q.Load? {
      return Loaded(w.mem[f]);
    }
    var n := w.pmm.Refcount(f);
    if n != 1 || !w.ptes[k].writable {
      return Failed;
    }
    var page := WithSector(w.mem[f], q.i, q.sector);
    Stores(w.ptes, w.mem, w.disk, w.slots, w.pmm.refs, w.rmap, w.procs, k, f, page);
    w.mem := w.mem[f := page];
    a := Done;
  }

  lemma TraceMore(procs: seq<Proc>, qs: seq<Request>, answers: seq<Answer>, ms: seq<Moment>, a: Answer, m: Moment)
    requires |answers| < |qs| && Trace(procs, qs, answers, ms) && Step(ms[|answers|], procs, qs[|answers|], a, m)
      && Sound(m, procs)
    ensures Trace(procs, qs, answers + [a], ms + [m])
  {
    var answers', ms' := answers + [a], ms + [m];
    hide Step, Sound;
    forall j | 0 <= j < |answers'| ensures Step(ms'[j], procs, qs[j], answers'[j], ms'[j + 1]) {
      if j < |answers| {
        assert Step(ms[j], procs, qs[j], answers[j], ms[j + 1]);
      }
    }
  }

  /**
   Any run of loads, stores and evictions. The answers and the moments between them are a
   chain of steps of memory without swapping, except that a page swapped out of an area
   comes back with the area's first contents; requests fail exactly if they must.
   */
  method Run(w: Swapper, qs: seq<Request>) returns (answers: seq<Answer>, ghost moments: seq<Moment>)
    requires w.Valid() && forall q :: q in qs ==> Allowed(w.procs, q)
    modifies w, w.pmm, w.pmm.bitmap, w.pmm.refcount
    ensures w.Valid() && |answers| == |qs| && Trace(w.procs, qs, answers, moments)
    ensures moments[0] == old(w.Now()) && moments[|qs|] == w.Now()
  {
    hide Swapper.Valid, Step, Sound;
    answers, moments := [], [w.Now()];
    NowSound(w);
    for i := 0 to |qs|
      invariant w.Valid() && |answers| == i && Trace(w.procs, qs, answers, moments)
      invariant moments[0] == old(w.Now()) && moments[i] == w.Now()
    {
      var a := Serve(w, qs[i]);
      NowSound(w);
      TraceMore(w.procs, qs, answers, moments, a, w.Now());
      answers, moments := answers + [a], moments + [w.Now()];
    }
  }

  // ----- what a process reads is what it last wrote -----

  /** The request gives sector `i` of page `k` new contents: a store there, or the loss of the page. */
  ghost predicate Rewrites(m: Moment, procs: seq<Proc>, q: Request, k: Key, i: nat) {
    !q.Pressure? && Target(procs, q) == k && ((q.Store? && q.i == i) || Lost(m, procs, q))
  }

  lemma SectorKept(m: Moment, procs: seq<Proc>, q: Request, a: Answer, m': Moment, k: Key, i: nat)
    requires Step(m, procs, q, a, m') && k in SeenAt(m) && i < 8 && !Rewrites(m, procs, q, k, i)
    ensures k in SeenAt(m') && SeenAt(m')[k][i] == SeenAt(m)[k][i]
  {
    hide Moves, Fails, TakesArea, SeenAt, FirstContents, Target;
    var met := Met(m, procs, q);
    assert k in met && met[k][i] == SeenAt(m)[k][i];
    if !q.Pressure? && a != Failed {
      var t := Touched(met, procs, q);
      assert k in t && t[k] == met[k];
    }
  }

  lemma {:induction false} SectorStays(procs: seq<Proc>, qs: seq<Request>, answers: seq<Answer>, ms: seq<Moment>,
                                       a: nat, b: nat, k: Key, i: nat)
    requires Trace(procs, qs, answers, ms) && a <= b <= |answers| && i < 8 && k in SeenAt(ms[a])
    requires forall x :: a <= x < b ==> !Rewrites(ms[x], procs, qs[x], k, i)
    ensures k in SeenAt(ms[b]) && SeenAt(ms[b])[k][i] == SeenAt(ms[a])[k][i]
    decreases b
  {
    hide Step, Sound, Rewrites, SeenAt;
    if a < b {
      SectorStays(procs, qs, answers, ms, a, b - 1, k, i);
      SectorKept(ms[b - 1], procs, qs[b - 1], answers[b - 1], ms[b], k, i);
    }
  }

  /** A page loaded has in each sector what was last stored there, however often it was swapped out since. */
  lemma LoadsLastStore(procs: seq<Proc>, qs: seq<Request>, answers: seq<Answer>, ms: seq<Moment>, a: nat, b: nat,
                       who: nat, v: nat, i: nat)
    requires Trace(procs, qs, answers, ms) && a < b < |answers| && i < 8
    requires qs[a].Store? && qs[a].who == who && qs[a].v == v && qs[a].i == i && answers[a] == Done
    requires qs[b].Load? && qs[b].who == who && qs[b].v == v && answers[b].Loaded?
    requires forall x :: a < x <= b ==> !Rewrites(ms[x], procs, qs[x], PageOf(procs, who, v), i)
    ensures answers[b].page[i] == qs[a].sector
  {
    var k, n := PageOf(procs, who, v), a + 1;
    assert Step(ms[a], procs, qs[a], answers[a], ms[n]) && Step(ms[b], procs, qs[b], answers[b], ms[b + 1]);
    assert !Rewrites(ms[b], procs, qs[b], k, i);
    hide Moves, Fails, Lost, SeenAt, FirstContents, Sound, PageOf;
    SectorStays(procs, qs, answers, ms, n, b, k, i);
  }

  lemma NowSound(w: Swapper)
    requires w.Valid()
    ensures Sound(w.Now(), w.procs)
  {
    hide Good;
    Pmm.UsedFit(w.pmm);
    UsedRefs(w.pmm);
  }

  /** Swapping is invisible in every run that loses no page. */
  lemma {:induction false} Invisible(procs: seq<Proc>, qs: seq<Request>, answers: seq<Answer>, ms: seq<Moment>)
    requires Trace(procs, qs, answers, ms) && forall j :: 0 <= j < |answers| ==> !Lost(ms[j], procs, qs[j])
    ensures Honest(SeenAt(ms[0]), procs, qs, answers)
      && SeenAt(ms[|answers|]) == AfterAll(SeenAt(ms[0]), procs, qs, answers)
    decreases |answers|
  {
    hide Lost, Step, Right, After, SeenAt, Honest;
    if answers == [] {
      HonestNone(SeenAt(ms[0]), procs, qs);
    } else {
      var n := |answers| - 1;
      var before := answers[..n];
      assert Trace(procs, qs, before, ms[..n + 1]);
      Invisible(procs, qs, before, ms[..n + 1]);
      StepRight(ms[n], procs, qs[n], answers[n], ms[n + 1]);
      HonestMore(SeenAt(ms[0]), procs, qs, before, answers[n]);
      assert before + [answers[n]] == answers;
    }
  }

  lemma StepRight(m: Moment, procs: seq<Proc>, q: Request, a: Answer, m': Moment)
    requires Step(m, procs, q, a, m') && !Lost(m, procs, q)
    ensures Right(SeenAt(m), procs, q, a) && SeenAt(m') == After(SeenAt(m), procs, q, a)
  {
    hide Lost, Fails, Right, After, SeenAt;
  }

  lemma HonestNone(m: Flat, procs: seq<Proc>, qs: seq<Request>)
    ensures Honest(m, procs, qs, []) && AfterAll(m, procs, qs, []) == m
  {
  }

  lemma HonestMore(m: Flat, procs: seq<Proc>, qs: seq<Request>, answers: seq<Answer>, a: Answer)
    requires |answers| < |qs| && Honest(m, procs, qs, answers)
      && Right(AfterAll(m, procs, qs, answers), procs, qs[|answers|], a)
    ensures Honest(m, procs, qs, answers + [a])
    ensures AfterAll(m, procs, qs, answers + [a]) == After(AfterAll(m, procs, qs, answers), procs, qs[|answers|], a)
  {
    hide Right, After;
    var t := answers + [a];
    assert t[..|answers|] == answers;
    forall i | 0 <= i < |t| ensures Right(AfterAll(m, procs, qs, t[..i]), procs, qs[i], t[i]) {
      if i < |answers| {
        assert t[..i] == answers[..i];
      }
    }
  }

  /** A lost load answers what the page held exactly if the area has the same contents for it. */
  lemma LostLoad(m: Moment, procs: seq<Proc>, q: Request, a: Answer, m': Moment)
    requires Step(m, procs, q, a, m') && q.Load? && Lost(m, procs, q)
    ensures Target(procs, q) in SeenAt(m)
    ensures a == Loaded(SeenAt(m)[Target(procs, q)]) <==>
      FirstContents(AreasOf(procs, q.who), q.v) == SeenAt(m)[Target(procs, q)]
  {
    hide View, Available, FirstContents;
  }

  /**
   * A lost store is done; it leaves what a store to the page would have left exactly if the
   * area's first contents agree with the page in all other sectors.
   */
  lemma LostStore(m: Moment, procs: seq<Proc>, q: Request, a: Answer, m': Moment)
    requires Step(m, procs, q, a, m') && q.Store? && q.i < 8 && Lost(m, procs, q)
    ensures Target(procs, q) in SeenAt(m) && a == Done
    ensures SeenAt(m') == After(SeenAt(m), procs, q, a) <==>
      forall j :: 0 <= j < 8 && j != q.i ==>
        FirstContents(AreasOf(procs, q.who), q.v)[j] == SeenAt(m)[Target(procs, q)][j]
  {
    hide View, Available, FirstContents, Moves, Returns;
    var k, x := Target(procs, q), FirstContents(AreasOf(procs, q.who), q.v);
    var y := SeenAt(m)[k];
    StoreEqual(x, y, q.i, q.sector);
    assert SeenAt(m') == SeenAt(m)[k := WithSector(x, q.i, q.sector)];
    assert After(SeenAt(m), procs, q, a) == SeenAt(m)[k := WithSector(y, q.i, q.sector)];
    assert SeenAt(m')[k] == WithSector(x, q.i, q.sector);
  }

  lemma StoreEqual(x: Page, y: Page, i: nat, sector: Sector)
    requires i < 8
    ensures WithSector(x, i, sector) == WithSector(y, i, sector) <==> forall j :: 0 <= j < 8 && j != i ==> x[j] == y[j]
  {
    var a, b := WithSector(x, i, sector), WithSector(y, i, sector);
    forall j | 0 <= j < 8 && j != i ensures a[j] == x[j] && b[j] == y[j] {
    }
  }

  /** A run that accesses no page of an area loses nothing, whatever is swapped out. */
  lemma OutsideAreas(procs: seq<Proc>, qs: seq<Request>, answers: seq<Answer>, ms: seq<Moment>)
    requires Trace(procs, qs, answers, ms)
    requires forall q :: q in qs && !q.Pressure? ==> !Caught(AreasOf(procs, q.who), q.v, q.Store?)
    ensures Honest(SeenAt(ms[0]), procs, qs, answers)
      && SeenAt(ms[|answers|]) == AfterAll(SeenAt(ms[0]), procs, qs, answers)
  {
    hide Step, Sound, Caught, Available, SeenAt, Honest, AfterAll;
    Invisible(procs, qs, answers, ms);
  }

  /** Every page is in memory. */
  predicate AllIn(ptes: Ptes) { forall k :: k in ptes ==> ptes[k].Present? }

  lemma {:induction false} SmallerSet(a: set<nat>, b: set<nat>)
    requires a <= b
    ensures |a| <= |b|
  {
    if x :| x in a {
      SmallerSet(a - {x}, b - {x});
    }
  }

  /** With as many frames in use as before, nobody went out. */
  lemma NobodyWent(m: Moment, m': Moment, procs: seq<Proc>)
    requires Sound(m, procs) && Outs(m, m', procs) && |m'.used| == |m.used|
    ensures Dimmed(m.ptes, m'.ptes)
  {
    hide Good, SpareOnly, Names;
    forall k | k in m.ptes ensures SamePlace(m.ptes[k], m'.ptes[k]) {
      if Went(m.ptes, m'.ptes, k) {
        var f := m.ptes[k].frame;
        assert GoesOut(m, m', procs, k) && Vacated(m.ptes, m'.ptes, f);
        assert FrameOf(m', f) == VACANT && f in m.used;
        forall g: nat | g in m'.used ensures g in m.used - {f} {
          assert FrameOf(m', g).used;
        }
        SmallerSet(m'.used, m.used - {f});
      }
    }
  }

  lemma OutsOff(m: Moment, m': Moment, procs: seq<Proc>)
    requires Sound(m, procs) && Outs(m, m', procs) && |m'.used| == |m.used| && !m.ready && AllIn(m.ptes)
    ensures AllIn(m'.ptes) && !m'.ready
  {
    hide Sound, SpareOnly, FrameOf, GoesOut, Vacated, Settled;
    NobodyWent(m, m', procs);
  }

  lemma ReliefOff(m: Moment, m': Moment, procs: seq<Proc>, written: seq<nat>, n: nat)
    requires Sound(m, procs) && Relief(m, m', procs, written, n) && !m.ready && AllIn(m.ptes)
    ensures AllIn(m'.ptes) && !m'.ready
  {
    hide Sound, Outs, AllIn;
    OutsOff(m, m', procs);
  }

  lemma ComesInOff(m: Moment, m': Moment, procs: seq<Proc>, k: Key, g: nat, page: Page, writable: bool,
                   slots: seq<bool>)
    requires ComesIn(m, m', procs, k, g, page, writable, slots) && !m.ready && AllIn(m.ptes)
    ensures AllIn(m'.ptes) && !m'.ready
  {
    hide Noted;
  }

  lemma FetchedOff(m: Moment, procs: seq<Proc>, q: Request, m1: Moment)
    requires Sound(m, procs) && !m.ready && AllIn(m.ptes) && !q.Pressure?
      && Fetched(m, procs, q.who, q.v, q.Store?, q.written, m1)
    ensures AllIn(m1.ptes) && !m1.ready
  {
    hide Sound, Relief, AllIn, ComesIn, TakesArea, FirstContents, View, MayWrite, Released;
    var mid, g :| FetchedVia(m, procs, q.who, q.v, q.Store?, q.written, m1, mid, g);
    var k, areas := PageOf(procs, q.who, q.v), AreasOf(procs, q.who);
    if TakesArea(m, procs, q.who, q.v, q.Store?, q.written) {
      ReliefOff(m, mid, procs, q.written, 8);
      ComesInOff(mid, m1, procs, k, g, FirstContents(areas, q.v), MayWrite(areas, q.v), mid.slots);
    } else {
      ReliefOff(m, mid, procs, q.written[8..], 9);
      ComesInOff(mid, m1, procs, k, g, View(m.ptes, m.mem, m.disk, k), true, Released(m, mid, k));
    }
  }

  /** With swapping off nothing goes out. */
  lemma StaysIn(m: Moment, procs: seq<Proc>, q: Request, a: Answer, m': Moment)
    requires Step(m, procs, q, a, m') && Sound(m, procs) && !m.ready && AllIn(m.ptes)
    ensures AllIn(m'.ptes) && !m'.ready
  {
    hide Right, After, Met, Fails, Sound, Outs, Relief, Fetched, AllIn, SeenAt;
    if q.Pressure? {
      OutsOff(m, m', procs);
    } else if !IsPresent(m.ptes, Target(procs, q)) {
      if a == Failed {
        ReliefOff(m, m', procs, q.written[8..], 9);
      } else {
        var m1 :| Fetched(m, procs, q.who, q.v, q.Store?, q.written, m1) && m' == Accessed(m1, q, Target(procs, q), a);
        FetchedOff(m, procs, q, m1);
      }
    }
  }

  lemma {:induction false} AllStayIn(procs: seq<Proc>, qs: seq<Request>, answers: seq<Answer>, ms: seq<Moment>, j: nat)
    requires Trace(procs, qs, answers, ms) && !ms[0].ready && AllIn(ms[0].ptes) && j <= |answers|
    ensures AllIn(ms[j].ptes) && !ms[j].ready
  {
    hide Step, Sound, AllIn;
    if j > 0 {
      AllStayIn(procs, qs, answers, ms, j - 1);
      StaysIn(ms[j - 1], procs, qs[j - 1], answers[j - 1], ms[j]);
    }
  }

  /** With swapping off, and every page in memory at first, every run is one of memory without swapping. */
  lemma SwapOff(procs: seq<Proc>, qs: seq<Request>, answers: seq<Answer>, ms: seq<Moment>)
    requires Trace(procs, qs, answers, ms) && !ms[0].ready && AllIn(ms[0].ptes)
    ensures Honest(SeenAt(ms[0]), procs, qs, answers)
      && SeenAt(ms[|answers|]) == AfterAll(SeenAt(ms[0]), procs, qs, answers)
  {
    hide Step, Sound, TakesArea, SeenAt, Honest, AfterAll;
    forall j | 0 <= j < |answers| ensures !Lost(ms[j], procs, qs[j]) {
      AllStayIn(procs, qs, answers, ms, j);
    }
    Invisible(procs, qs, answers, ms);
  }

  // ----- a page that is lost -----

  const SAMPLE := Key(9, 0x1000_0000)

  const SAMPLE_PROCS := [Proc(true, 1, 9, [Area(true, 0x1000_0000, 0x1000_1000, true, map[])])]

  function SamplePtes(f: nat): Ptes { map[SAMPLE := Present(f, false, true)] }

  function SampleRmap(f: nat): Rmaps { map[f := Rmap(1, 0x1000_0000)] }

  predicate OnlyRef(refs: seq<nat>, f: nat) {
    0 < f < |refs| && forall g :: 0 <= g < |refs| ==> refs[g] == if g == f then 1 else 0
  }

  /** One frame taken on a machine of eight. */
  method OneFrame() returns (pmm: Pmm.Allocator, f: nat)
    ensures fresh(pmm) && fresh(pmm.bitmap) && fresh(pmm.refcount) && pmm.Valid() && pmm.total == 8
      && pmm.kernelLimit == 0
    ensures OnlyRef(pmm.refs, f)
  {
    hide Pmm.Allocator.Valid;
    pmm := Pmm.EightFrames();
    UsedRefs(pmm);
    f := pmm.Alloc();
  }

  lemma SampleOk(f: nat, refs: seq<nat>)
    requires OnlyRef(refs, f) && f < RMAP_MAX_PAGES
    ensures FramesOk(SamplePtes(f), refs) && RmapOk(SamplePtes(f), SampleRmap(f), SAMPLE_PROCS)
      && PidsUnique(SAMPLE_PROCS)
    ensures AboveKernel(SamplePtes(f), 0)
  {
  }

  lemma SampleSwaps(f: nat, refs: seq<nat>, slots: seq<bool>)
    requires OnlyRef(refs, f) && 0 < |slots| && !slots[0]
    ensures CanSwap(SamplePtes(f), refs, SampleRmap(f), SAMPLE_PROCS, slots, true)
  {
    assert IsProc(SAMPLE_PROCS, 0, 1);
    assert Evictable(SamplePtes(f), refs, SampleRmap(f), SAMPLE_PROCS, f, SAMPLE);
    assert CanEvict(SamplePtes(f), refs, SampleRmap(f), SAMPLE_PROCS, f);
  }

  /** Without references nothing is in memory any more. */
  lemma AllOut(ptes: Ptes, mem: seq<Page>, d: map<nat, Sector>, slots: seq<bool>, refs: seq<nat>, rmap: Rmaps,
               procs: seq<Proc>, k: Key)
    requires Good(ptes, mem, d, slots, refs, rmap, procs) && k in ptes && forall g :: 0 <= g < |refs| ==> refs[g] == 0
    ensures WasSwapped(ptes, k)
  {
    hide RmapOk, PidsUnique, SlotsOk, DiskOk;
    assert ptes[k].Present? ==> Maps(ptes, k, ptes[k].frame);
  }

  lemma SampleCaught()
    ensures Caught(AreasOf(SAMPLE_PROCS, 0), SAMPLE.v, false)
      && FirstContents(AreasOf(SAMPLE_PROCS, 0), SAMPLE.v) == ZEROED
  {
    assert Contains(SAMPLE_PROCS[0].areas[0], SAMPLE.v);
  }

  /** A process with one page, in an area of its own. */
  method OnePage(x: Page, disk: map<nat, Sector>) returns (w: Swapper)
    requires DiskOk(disk)
    ensures fresh(w) && fresh(w.pmm) && fresh(w.pmm.bitmap) && fresh(w.pmm.refcount)
    ensures w.Valid() && w.procs == SAMPLE_PROCS && IsPresent(w.ptes, SAMPLE)
      && View(w.ptes, w.mem, w.disk, SAMPLE) == x
    ensures Swappable(w.Now(), w.procs) && OnlyRef(w.pmm.refs, w.ptes[SAMPLE].frame) && |w.pmm.used| <= |w.pmm.refs|
  {
    hide Pmm.Allocator.Valid, FramesOk, RmapOk, PidsUnique, AboveKernel, DiskOk, CanSwap, Good, Taken;
    var pmm, f := OneFrame();
    UsedRefs(pmm);
    Pmm.UsedFit(pmm);
    SampleOk(f, pmm.refs);
    var mem: seq<Page> := seq(8, i => if i == f then x else BLANK);
    w := new Swapper(pmm, SAMPLE_PROCS, SamplePtes(f), mem, disk, SampleRmap(f));
    GoodShape(w.ptes, w.mem, w.disk, w.slots, pmm.refs, w.rmap, w.procs, SAMPLE, f);
    SampleSwaps(f, pmm.refs, w.slots);
  }

  const SAMPLE_LOAD := Load(0, SAMPLE.v, seq(25, _ => 8), true)

  /** The page is read, and then swapped out. */
  method PageOut(x: Page, disk: map<nat, Sector>) returns (w: Swapper, before: Answer)
    requires DiskOk(disk)
    ensures fresh(w) && fresh(w.pmm) && fresh(w.pmm.bitmap) && fresh(w.pmm.refcount)
    ensures w.Valid() && w.procs == SAMPLE_PROCS && before == Loaded(x)
    ensures WasSwapped(w.ptes, SAMPLE) && |w.pmm.used| < |w.pmm.refs|
  {
    hide Pmm.Allocator.Valid, Good, Quiet, CanSwap, Taken, AboveKernel, DiskOk, Outward, Seen, View;
    w := OnePage(x, disk);
    SeenView(w.ptes, w.mem, w.disk, SAMPLE);
    before := Access(w, SAMPLE_LOAD, SAMPLE);
    ghost var p, m, d := w.ptes, w.mem, w.disk;
    var r := w.EvictOne(8);
    assert SAMPLE in w.ptes;
    SwappedNow(w);
  }

  /** Swapped out of its area, the page comes back as zeros whatever it held. */
  method AreaPageLost(x: Page, disk: map<nat, Sector>) returns (before: Answer, after: Answer)
    requires DiskOk(disk)
    ensures before == Loaded(x) && after == Loaded(ZEROED)
  {
    hide Swapper.Valid, Step, Lost, FirstContents, DiskOk;
    var w;
    w, before := PageOut(x, disk);
    ghost var m := w.Now();
    SampleLost(m);
    after := Serve(w, SAMPLE_LOAD);
    LostAnswer(m, w.procs, SAMPLE_LOAD, after, w.Now());
    SampleCaught();
  }

  lemma SeenView(ptes: Ptes, mem: seq<Page>, d: map<nat, Sector>, k: Key)
    requires k in ptes
    ensures k in Seen(ptes, mem, d) && Seen(ptes, mem, d)[k] == View(ptes, mem, d, k)
  {
  }

  lemma SwappedNow(w: Swapper)
    requires w.Valid() && SAMPLE in w.ptes && forall g :: 0 <= g < |w.pmm.refs| ==> w.pmm.refs[g] == 0
    ensures WasSwapped(w.ptes, SAMPLE)
  {
    AllOut(w.ptes, w.mem, w.disk, w.slots, w.pmm.refs, w.rmap, w.procs, SAMPLE);
  }

  lemma SampleLost(m: Moment)
    requires WasSwapped(m.ptes, SAMPLE) && |m.used| < |m.refs|
    ensures Lost(m, SAMPLE_PROCS, SAMPLE_LOAD)
  {
    SampleCaught();
  }

  /** A lost load answers the area's first contents. */
  lemma LostAnswer(m: Moment, procs: seq<Proc>, q: Request, a: Answer, m': Moment)
    requires Step(m, procs, q, a, m') && q.Load? && Lost(m, procs, q)
    ensures a == Loaded(FirstContents(AreasOf(procs, q.who), q.v))
  {
    hide View, Available, FirstContents, Returns;
  }
}
