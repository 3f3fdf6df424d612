/** What swapping does to page tables, memory and disk (kernel/memory/swap.c), on values. */
module SwapState {
  import Journal
  import opened Bytes

  const SWAP_MAX_PAGES := 4096
  const SWAP_START_LBA := 32768
  const RMAP_MAX_PAGES := 131072

  type Sector = seq<byte>

  /** The eight sectors of a page. */
  type Page = s: seq<Sector> | |s| == 8 witness [[], [], [], [], [], [], [], []]

  /** A page-table entry of a user page. */
  datatype Pte = Present(frame: nat, accessed: bool, writable: bool) | Swapped(slot: nat)

  /** A virtual page of an address space. */
  datatype Key = Key(cr3: nat, v: nat)

  datatype Rmap = Rmap(pid: nat, v: nat)

  /** A private area of a process, and the pages its file has for it; the others start out zero. */
  datatype Area = Area(inUse: bool, start: nat, end: nat, writable: bool, file: map<nat, Page>)

  datatype Proc = Proc(used: bool, pid: nat, cr3: nat, areas: seq<Area>)

  type Ptes = map<Key, Pte>
  type Rmaps = map<nat, Rmap>

  /** The first sector of a slot. */
  function SlotLba(slot: nat): nat { SWAP_START_LBA + slot * 8 }

  predicate InSlot(slot: nat, lba: nat) { SlotLba(slot) <= lba < SlotLba(slot) + 8 }

  /** Slots never share a sector, and end where the journal begins. */
  lemma SlotsApart(s: nat, t: nat, lba: nat)
    requires s < SWAP_MAX_PAGES && InSlot(s, lba)
    ensures InSlot(t, lba) ==> s == t
    ensures SWAP_START_LBA <= lba < Journal.JOURNAL_START_LBA && !Journal.InJournal(lba)
  {
  }

  ghost predicate DiskOk(d: map<nat, Sector>) {
    forall lba :: SWAP_START_LBA <= lba < Journal.JOURNAL_START_LBA ==> lba in d
  }

  const ZEROED: Page := [Zeros(512), Zeros(512), Zeros(512), Zeros(512), Zeros(512), Zeros(512), Zeros(512), Zeros(512)]

  const BLANK: Page := [[], [], [], [], [], [], [], []]

  function SectorAt(d: map<nat, Sector>, lba: nat): Sector { if lba in d then d[lba] else [] }

  /** The page in a slot. */
  function Stored(d: map<nat, Sector>, slot: nat): Page {
    var a := SlotLba(slot);
    [SectorAt(d, a), SectorAt(d, a + 1), SectorAt(d, a + 2), SectorAt(d, a + 3),
     SectorAt(d, a + 4), SectorAt(d, a + 5), SectorAt(d, a + 6), SectorAt(d, a + 7)]
  }

  /** The disk after a page was written to a slot. */
  ghost predicate WrittenTo(d: map<nat, Sector>, d': map<nat, Sector>, slot: nat, page: Page) {
    && d'.Keys == d.Keys && Stored(d', slot) == page
    && forall lba :: lba in d && !InSlot(slot, lba) ==> d'[lba] == d[lba]
  }

  lemma OtherSlotsKept(d: map<nat, Sector>, d': map<nat, Sector>, slot: nat, page: Page, t: nat)
    requires DiskOk(d) && WrittenTo(d, d', slot, page) && slot < SWAP_MAX_PAGES && t < SWAP_MAX_PAGES && t != slot
    ensures Stored(d', t) == Stored(d, t)
  {
    forall lba | InSlot(t, lba) ensures SectorAt(d', lba) == SectorAt(d, lba) {
      SlotsApart(t, slot, lba);
    }
  }

  /** What the page holds, wherever it is. */
  ghost function View(ptes: Ptes, mem: seq<Page>, d: map<nat, Sector>, k: Key): Page {
    if k !in ptes then BLANK
    else match ptes[k]
      case Present(f, _, _) => if f < |mem| then mem[f] else BLANK
      case Swapped(s) => Stored(d, s)
  }

  ghost predicate SameView(ptes: Ptes, mem: seq<Page>, d: map<nat, Sector>, ptes': Ptes, mem': seq<Page>, d': map<nat,
                           Sector>) {
    ptes'.Keys == ptes.Keys && forall k :: k in ptes ==> View(ptes', mem', d', k) == View(ptes, mem, d, k)
  }

  predicate Maps(ptes: Ptes, k: Key, f: nat) { k in ptes && ptes[k].Present? && ptes[k].frame == f }

  predicate SwappedTo(ptes: Ptes, k: Key, s: nat) { k in ptes && ptes[k].Swapped? && ptes[k].slot == s }

  /** A frame mapped by two pages has two references; a mapped frame has one. */
  ghost predicate FramesOk(ptes: Ptes, refs: seq<nat>) {
    && (forall k, f: nat :: Maps(ptes, k, f) ==> 0 < f < |refs| && 1 <= refs[f])
    && (forall j, k, f: nat :: Maps(ptes, j, f) && Maps(ptes, k, f) && j != k ==> 2 <= refs[f])
  }

  /** A swapped page has a slot of its own, which is taken. */
  ghost predicate SlotsOk(ptes: Ptes, slots: seq<bool>) {
    && |slots| == SWAP_MAX_PAGES
    && (forall k, s: nat :: SwappedTo(ptes, k, s) ==> s < SWAP_MAX_PAGES && slots[s])
    && (forall j, k, s: nat :: SwappedTo(ptes, j, s) && SwappedTo(ptes, k, s) ==> j == k)
  }

  // ----- areas -----

  predicate Contains(a: Area, v: nat) { a.inUse && a.start <= v < a.end }

  /** The first area an address lies in, or the number of areas. */
  function AreaAt(areas: seq<Area>, v: nat): (i: nat)
    ensures i <= |areas| && (i < |areas| ==> Contains(areas[i], v)) && forall j :: 0 <= j < i ==> !Contains(areas[j], v)
  {
    if areas == [] then 0
    else
      var n := |areas| - 1;
      var i := AreaAt(areas[..n], v);
      if i < n || Contains(areas[n], v) then i else n + 1
  }

  /** The access falls into an area that allows it. */
  predicate Caught(areas: seq<Area>, v: nat, write: bool) {
    AreaAt(areas, v) < |areas| && (write ==> areas[AreaAt(areas, v)].writable)
  }

  /** What a page of an area holds before it is first written. */
  function FirstContents(areas: seq<Area>, v: nat): Page {
    if AreaAt(areas, v) < |areas| && v in areas[AreaAt(areas, v)].file then areas[AreaAt(areas, v)].file[v] else ZEROED
  }

  /** The index of the process with this pid: the first in the table. */
  predicate IsProc(procs: seq<Proc>, i: nat, pid: nat) {
    i < |procs| && procs[i].used && procs[i].pid == pid && forall j :: 0 <= j < i ==>
      !(procs[j].used && procs[j].pid == pid)
  }

  /** The page a reverse-map entry names, if its process is alive. */
  ghost predicate Names(procs: seq<Proc>, r: Rmap, k: Key) {
    r.pid != 0 && exists i: nat :: IsProc(procs, i, r.pid) && procs[i].cr3 != 0 && k == Key(procs[i].cr3, r.v)
  }

  /** A reverse-map entry names the page that maps the frame. */
  ghost predicate RmapOk(ptes: Ptes, rmap: Rmaps, procs: seq<Proc>) {
    && (forall f :: f in rmap ==> f < RMAP_MAX_PAGES)
    && forall f, k :: f in rmap && Names(procs, rmap[f], k) ==> Maps(ptes, k, f)
  }

  ghost predicate PidsUnique(procs: seq<Proc>) {
    forall i, j ::
      0 <= i < |procs| && 0 <= j < |procs| && procs[i].used && procs[j].used && procs[i].pid == procs[j].pid ==> i == j
  }

  ghost predicate Good(ptes: Ptes, mem: seq<Page>, d: map<nat, Sector>, slots: seq<bool>, refs: seq<nat>, rmap: Rmaps,
                       procs: seq<Proc>) {
    && |mem| == |refs| && DiskOk(d) && FramesOk(ptes, refs) && SlotsOk(ptes, slots) && RmapOk(ptes, rmap, procs)
    && PidsUnique(procs)
  }

  /** No user page lies in a frame of the kernel. */
  ghost predicate AboveKernel(ptes: Ptes, limit: nat) { forall k, f: nat :: Maps(ptes, k, f) ==> limit <= f }

  /** The frame can be evicted: one reference, and the reverse map leads to its page. */
  ghost predicate Evictable(ptes: Ptes, refs: seq<nat>, rmap: Rmaps, procs: seq<Proc>, f: nat, k: Key) {
    f < |refs| && refs[f] == 1 && f in rmap && Names(procs, rmap[f], k) && Maps(ptes, k, f)
  }

  ghost predicate CanEvict(ptes: Ptes, refs: seq<nat>, rmap: Rmaps, procs: seq<Proc>, f: nat) {
    exists k :: Evictable(ptes, refs, rmap, procs, f, k)
  }

  // ----- the accessed bit -----

  /** Clearing the accessed bit of a page. */
  function Unaccessed(ptes: Ptes, k: Key): Ptes {
    if k in ptes && ptes[k].Present? then ptes[k := ptes[k].(accessed := false)] else ptes
  }

  lemma UnaccessedMaps(ptes: Ptes, k: Key, j: Key, f: nat)
    ensures Maps(Unaccessed(ptes, k), j, f) == Maps(ptes, j, f)
      && SwappedTo(Unaccessed(ptes, k), j, f) == SwappedTo(ptes, j, f)
  {
  }

  lemma ClearAccessed(ptes: Ptes, mem: seq<Page>, d: map<nat, Sector>, slots: seq<bool>, refs: seq<nat>, rmap: Rmaps,
                      procs: seq<Proc>, k: Key)
    requires Good(ptes, mem, d, slots, refs, rmap, procs)
    ensures Good(Unaccessed(ptes, k), mem, d, slots, refs, rmap, procs)
    ensures SameView(ptes, mem, d, Unaccessed(ptes, k), mem, d)
    ensures forall f :: CanEvict(Unaccessed(ptes, k), refs, rmap, procs, f) <==> CanEvict(ptes, refs, rmap, procs, f)
  {
    var p := Unaccessed(ptes, k);
    forall j, f ensures Maps(p, j, f) == Maps(ptes, j, f) && SwappedTo(p, j, f) == SwappedTo(ptes, j, f) {
      UnaccessedMaps(ptes, k, j, f);
    }
    hide Maps, SwappedTo, Names, PidsUnique, DiskOk, Stored;
    forall f, j ensures Evictable(p, refs, rmap, procs, f, j) == Evictable(ptes, refs, rmap, procs, f, j) {
    }
  }

  // ----- eviction -----

  /** Evicting the page of a frame: its view moves to disk, and nothing else changes. */
  lemma Evicted(ptes: Ptes, mem: seq<Page>, d: map<nat, Sector>, slots: seq<bool>, refs: seq<nat>, rmap: Rmaps,
                procs: seq<Proc>, f: nat, k: Key, s: nat, ptes': Ptes, d': map<nat, Sector>, slots': seq<bool>,
                refs': seq<nat>, rmap': Rmaps)
    requires Good(ptes, mem, d, slots, refs, rmap, procs) && Evictable(ptes, refs, rmap, procs, f, k)
    requires s < SWAP_MAX_PAGES == |slots| && !slots[s] && WrittenTo(d, d', s, mem[f])
    requires ptes' == ptes[k := Swapped(s)] && slots' == slots[s := true] && refs' == refs[f := 0]
      && rmap' == rmap - {f}
    ensures Good(ptes', mem, d', slots', refs', rmap', procs)
    ensures SameView(ptes, mem, d, ptes', mem, d')
  {
    hide Names, PidsUnique;
    EvictedMaps(ptes, k, s, ptes');
    assert DiskOk(d');
    assert FramesOk(ptes', refs') by {
      hide Maps, SwappedTo, DiskOk, Stored;
      EvictedFrames(ptes, refs, rmap, procs, f, k, ptes', refs');
    }
    assert SlotsOk(ptes', slots') by { hide Maps, DiskOk, Stored; }
    assert RmapOk(ptes', rmap', procs) by { hide SwappedTo, DiskOk, Stored; }
    forall j | j in ptes ensures View(ptes', mem, d', j) == View(ptes, mem, d, j) {
      if j != k && ptes[j].Swapped? {
        assert SwappedTo(ptes, j, ptes[j].slot);
        OtherSlotsKept(d, d', s, mem[f], ptes[j].slot);
      }
    }
  }

  lemma EvictedMaps(ptes: Ptes, k: Key, s: nat, ptes': Ptes)
    requires ptes' == ptes[k := Swapped(s)]
    ensures forall j, f :: Maps(ptes', j, f) <==> j != k && Maps(ptes, j, f)
    ensures forall j, t :: SwappedTo(ptes', j, t) <==> if j == k then t == s else SwappedTo(ptes, j, t)
  {
  }

  lemma EvictedFrames(ptes: Ptes, refs: seq<nat>, rmap: Rmaps, procs: seq<Proc>, f: nat, k: Key, ptes': Ptes,
                      refs': seq<nat>)
    requires FramesOk(ptes, refs) && Evictable(ptes, refs, rmap, procs, f, k) && refs' == refs[f := 0]
    requires forall j, g :: Maps(ptes', j, g) <==> j != k && Maps(ptes, j, g)
    ensures FramesOk(ptes', refs')
  {
    hide Maps, Names;
    forall j, g: nat | Maps(ptes', j, g) ensures g != f && 0 < g < |refs'| && 1 <= refs'[g] {
      assert Maps(ptes, j, g) && Maps(ptes, k, f);
    }
  }

  // ----- bringing a page back -----

  /** The page comes back in a frame nobody maps. */
  lemma Restored(ptes: Ptes, mem: seq<Page>, d: map<nat, Sector>, slots: seq<bool>, refs: seq<nat>, rmap: Rmaps,
                 procs: seq<Proc>,
                 k: Key, s: nat, g: nat, ptes': Ptes, mem': seq<Page>, slots': seq<bool>, rmap': Rmaps)
    requires Good(ptes, mem, d, slots, refs, rmap, procs) && SwappedTo(ptes, k, s)
    requires 0 < g < |refs| && refs[g] == 1 && forall j :: !Maps(ptes, j, g)
    requires s < |slots| && ptes' == ptes[k := Present(g, false, true)] && mem' == mem[g := Stored(d, s)]
      && slots' == slots[s := false]
    requires rmap' == rmap || (g < RMAP_MAX_PAGES && g in rmap' && rmap' == rmap[g := rmap'[g]]
      && forall j :: Names(procs, rmap'[g], j) ==> j == k)
    ensures Good(ptes', mem', d, slots', refs, rmap', procs)
    ensures SameView(ptes, mem, d, ptes', mem', d)
  {
    hide Names, PidsUnique, DiskOk, Stored;
    assert forall j, f :: Maps(ptes', j, f) <==> if j == k then f == g else Maps(ptes, j, f);
    assert forall j, t :: SwappedTo(ptes', j, t) <==> j != k && SwappedTo(ptes, j, t);
    assert FramesOk(ptes', refs) by { hide SwappedTo; }
    assert SlotsOk(ptes', slots') by { hide Maps; }
    assert RmapOk(ptes', rmap', procs) by { hide SwappedTo; RestoredRmap(ptes, ptes', rmap, rmap', procs, k, g); }
    forall j | j in ptes && j != k ensures View(ptes', mem', d, j) == View(ptes, mem, d, j) {
      if ptes[j].Present? {
        assert Maps(ptes, j, ptes[j].frame);
      }
    }
  }

  /** A page that is not present is mapped to a frame nobody maps. */
  lemma Filled(ptes: Ptes, mem: seq<Page>, d: map<nat, Sector>, slots: seq<bool>, refs: seq<nat>, rmap: Rmaps,
               procs: seq<Proc>,
               k: Key, g: nat, page: Page, writable: bool, ptes': Ptes, mem': seq<Page>, rmap': Rmaps)
    requires Good(ptes, mem, d, slots, refs, rmap, procs) && (k in ptes ==> !ptes[k].Present?)
    requires 0 < g < |refs| && refs[g] == 1 && forall j :: !Maps(ptes, j, g)
    requires ptes' == ptes[k := Present(g, false, writable)] && mem' == mem[g := page]
    requires rmap' == rmap || (g < RMAP_MAX_PAGES && g in rmap' && rmap' == rmap[g := rmap'[g]]
      && forall j :: Names(procs, rmap'[g], j) ==> j == k)
    ensures Good(ptes', mem', d, slots, refs, rmap', procs)
    ensures forall j :: j in ptes' ==> View(ptes', mem', d, j) == if j == k then page else View(ptes, mem, d, j)
  {
    hide Names, PidsUnique, DiskOk, Stored;
    assert forall j, f :: Maps(ptes', j, f) <==> if j == k then f == g else Maps(ptes, j, f);
    assert forall j, t :: SwappedTo(ptes', j, t) <==> j != k && SwappedTo(ptes, j, t);
    assert FramesOk(ptes', refs) by { hide SwappedTo; }
    assert SlotsOk(ptes', slots) by { hide Maps; }
    assert RmapOk(ptes', rmap', procs) by { hide SwappedTo; RestoredRmap(ptes, ptes', rmap, rmap', procs, k, g); }
    forall j | j in ptes && j != k ensures View(ptes', mem', d, j) == View(ptes, mem, d, j) {
      if ptes[j].Present? {
        assert Maps(ptes, j, ptes[j].frame);
      }
    }
  }

  lemma RestoredRmap(ptes: Ptes, ptes': Ptes, rmap: Rmaps, rmap': Rmaps, procs: seq<Proc>, k: Key, g: nat)
    requires RmapOk(ptes, rmap, procs) && (forall j :: !Maps(ptes, j, g)) && (k in ptes ==> !ptes[k].Present?)
    requires forall j, f :: Maps(ptes', j, f) <==> if j == k then f == g else Maps(ptes, j, f)
    requires rmap' == rmap || (g < RMAP_MAX_PAGES && g in rmap' && rmap' == rmap[g := rmap'[g]]
      && forall j :: Names(procs, rmap'[g], j) ==> j == k)
    ensures RmapOk(ptes', rmap', procs)
  {
    hide Names;
    forall f, j | f in rmap' && Names(procs, rmap'[f], j) ensures Maps(ptes', j, f) {
      if f != g || rmap' == rmap {
        assert f in rmap && Names(procs, rmap[f], j);
        assert Maps(ptes, j, f);
      }
    }
  }

  // ----- counting slots -----

  function Taken(slots: seq<bool>): nat {
    if slots == [] then 0 else Taken(slots[..|slots| - 1]) + if slots[|slots| - 1] then 1 else 0
  }

  lemma {:induction false} TakenChanges(slots: seq<bool>, s: nat, b: bool)
    requires s < |slots|
    ensures Taken(slots[s := b]) == Taken(slots) - (if slots[s] then 1 else 0) + (if b then 1 else 0)
    ensures slots[s] ==> 0 < Taken(slots)
  {
    var n := |slots| - 1;
    if s < n {
      TakenChanges(slots[..n], s, b);
      assert slots[s := b][..n] == slots[..n][s := b];
    } else {
      assert slots[s := b][..n] == slots[..n];
    }
  }
}
