/**
 Whole runs of the copy-on-write kernel against the kernel that copies eagerly.
 `Run` executes any list of requests; what the processes observe, and what they
 could observe next, is what the eager kernel would have shown them.
 */
module VmRuns {
  import opened PageTable
  import opened UserVm
  import opened Holdings
  import AddressSpaces
  import Pmm

  const MAX_PROCESSES: nat := 64

  /** How many forks may leak before the 8-bit counts could overflow. */
  const MAX_LEAKS: nat := 96

  datatype Request =
    | Create(cr3: nat)
    | Fill(page: Node, contents: Page, flags: Flags)
    | Fork(parent: nat)
    | Destroy(root: nat)
    | Store(page: Node, i: nat, v: Word)
    | Load(page: Node, i: nat)

  /** What happened. `Leaked` is a fork that failed half-way, `Refused` a request without any effect a process sees. */
  datatype Event =
    | Created(root: nat)
    | Filled(page: Node, contents: Page, flags: Flags)
    | Forked(parent: nat, child: nat)
    | Leaked(parent: nat)
    | Destroyed(root: nat)
    | Stored(page: Node, i: nat, v: Word)
    | Loaded(page: Node, i: nat, v: Word)
    | LoadFault(page: Node)
    | Refused

  /** Every page of the parent is copied to the child. */
  ghost function EagerFork(s: PageMap, parent: nat, child: nat): PageMap {
    map q | q in s.Keys + (set p | p in s && p.root == parent :: Node(child, p.path)) ::
      if q.root == child && Node(parent, q.path) in s then s[Node(parent, q.path)] else s[q]
  }

  /** The eager kernel. */
  ghost function After(s: PageMap, e: Event): PageMap {
    match e
    case Filled(k, contents, flags) => s[k := Mapped(contents, flags)]
    case Forked(parent, child) => EagerFork(s, parent, child)
    case Destroyed(root) => map q | q in s && q.root != root :: s[q]
    case Stored(k, i, v) => if k in s && i < 512 then s[k := s[k].(page := s[k].page[i := v])] else s
    case _ => s
  }

  /** What the eager kernel would hold. */
  ghost function Replay(log: seq<Event>): PageMap {
    if log == [] then map[] else After(Replay(log[..|log| - 1]), log[|log| - 1])
  }

  function LiveAfter(live: set<nat>, e: Event): set<nat> {
    match e
    case Created(root) => live + {root}
    case Forked(_, child) => live + {child}
    case Destroyed(root) => live - {root}
    case _ => live
  }

  /** What a process was shown is what the eager kernel would have shown it. */
  ghost predicate Observes(s: PageMap, e: Event) {
    match e
    case Stored(k, i, v) => k in s && s[k].flags.writable && i < 512
    case Loaded(k, i, v) => k in s && i < 512 && v == s[k].page[i]
    case LoadFault(k) => k !in s
    case _ => true
  }

  /** What happened is what was asked for, or the request was refused. */
  ghost predicate Answers(req: Request, e: Event) {
    e.Refused? ||
    match req
    case Create(_) => e.Created?
    case Fill(k, contents, flags) => e == Filled(k, contents, Apparent(flags.(present := true)))
    case Fork(parent) => (e.Forked? && e.parent == parent) || e == Leaked(parent)
    case Destroy(root) => e == Destroyed(root)
    case Store(k, i, v) => e == Stored(k, i, v)
    case Load(k, i) => e == LoadFault(k) || (e.Loaded? && e.page == k && e.i == i)
  }

  /**
   * A moment of a run: what the live processes see, who is alive, how many forks have leaked,
   * how many frames are free, what the others hold, and the words of the kernel half in every
   * top table and in the boot PML4.
   */
  datatype Moment = Moment(pages: PageMap, live: set<nat>, leaked: nat, free: nat, estate: Estate, kernel: Halves,
                           boot: seq<Word>)

  type Halves = map<Node, seq<Word>>

  /** The words 256 to 511 of every top table. */
  ghost function UpperHalves(mem: Memory, tab: Tables): Halves {
    map n | n in tab && n.path == [] && tab[n] < |mem| :: mem[tab[n]][256..]
  }

  /** The frames a fork of `parent` takes: the child's top table and the tables its pages need. */
  ghost function ForkCost(m: Moment, parent: nat): nat { 1 + |Stems(m.pages, parent)| }

  /** The frames a new page takes: its own and the tables missing on its way. */
  ghost function FillCost(m: Moment, k: Node): nat { 1 + |Missing(m.estate, k)| }

  /** The frame of the page has other references, so that a store must copy it. */
  ghost predicate MustCopy(m: Moment, k: Node) { k in m.estate.frames && Refs(m.estate, k) != 1 }

  /** A page that may be filled. */
  ghost predicate Fillable(m: Moment, k: Node, flags: Flags) {
    k.Page?() && k.root in m.live && !(flags.writable && flags.cow) && k !in m.pages
  }

  /** The request asks for what nobody may have, or there are not the frames it takes. */
  ghost predicate Excused(req: Request, m: Moment) {
    match req
    case Create(_) => |m.live| >= MAX_PROCESSES || m.free == 0
    case Fill(k, _, flags) => !Fillable(m, k, flags) || m.free < FillCost(m, k)
    case Fork(parent) => parent !in m.live || |m.live| >= MAX_PROCESSES || m.free == 0
    case Destroy(root) => root !in m.live
    case Store(k, i, _) =>
      || !k.Page?() || k.root !in m.live || i >= 512 || k !in m.pages || !m.pages[k].flags.writable
      || (MustCopy(m, k) && m.free == 0)
    case Load(k, i) => !k.Page?() || k.root !in m.live || i >= 512
  }

  /** What a request does to what the processes hold. A fill that fails half-way leaves tables behind. */
  ghost predicate Moves(m: Moment, req: Request, e: Event, m': Moment) {
    var h, h' := m.estate, m'.estate;
    match e
    case Created(root) => Node(root, []) !in h.tables && h' == h.(tables := h.tables + {Node(root, [])})
    case Filled(k, _, _) => exists f :: Unused(h, f) && h' == WithPage(h, k, f)
    case Forked(parent, child) => Node(child, []) !in h.tables && h' == Copy(h, parent, child, Paths(h, parent))
    case Leaked(parent) =>
      m'.free == 0 && exists c, k, d :: Node(c, []) !in h.tables && Stopped(h, h', parent, c, k, d)
    case Destroyed(root) => h' == Gone(h, root)
    case Stored(k, _, _) => exists g :: Rehomed(h, h', k, g)
    case Refused =>
      if req.Fill? && Fillable(m, req.page, req.flags) && 0 < m.free
      then m'.free == 1 && exists d :: WithWay(h, h', req.page, d)
      else h' == h
    case _ => h' == h
  }

  /** One request takes the system from one moment to the next as the eager kernel would. */
  ghost predicate Step(m: Moment, req: Request, e: Event, m': Moment) {
    && Answers(req, e) && Observes(m.pages, e) && (e.Refused? <==> Excused(req, m))
    && (req.Fork? && !e.Refused? ==> (e.Leaked? <==> m.free < ForkCost(m, req.parent)))
    && m'.pages == After(m.pages, e) && m'.live == LiveAfter(m.live, e)
    && m'.leaked == m.leaked + (if e.Leaked? then 1 else 0) && Moves(m, req, e, m') && m'.boot == m.boot
  }

  /** The kernel is mapped alike wherever there is a top table, live or leaked: as in the boot PML4. */
  ghost predicate KernelEverywhere(m: Moment) {
    |m.boot| == 256 && forall r: nat :: Node(r, []) in m.estate.tables ==>
      Node(r, []) in m.kernel && m.kernel[Node(r, [])] == m.boot
  }

  /**
   * A moment is a state of the kernel: the pages of the living are held, no frame is unaccounted
   * for, and every address space maps the kernel.
   */
  ghost predicate Sound(m: Moment, room: int) {
    && m.free + Size(m.estate) == room && |m.live| <= MAX_PROCESSES && LiveRoots(m.live) <= m.estate.tables
    && (forall q: Node :: q.root in m.live ==> (q in m.pages <==> q in m.estate.frames))
    && (forall q: Node :: q in m.pages ==> q.root in m.live) && Rooted(m.estate)
    && KernelEverywhere(m)
  }

  /** The log tells a chain of steps from the first moment to the last, with room for so many frames. */
  ghost predicate Trace(reqs: seq<Request>, log: seq<Event>, ms: seq<Moment>, room: int) {
    && |log| <= |reqs| && |ms| == |log| + 1 && (forall j :: 0 <= j < |ms| ==> Sound(ms[j], room))
    && forall j :: 0 <= j < |log| ==> Step(ms[j], reqs[j], log[j], ms[j + 1])
  }

  ghost function Visible(s: PageMap, live: set<nat>): PageMap {
    map q | q in s && q.root in live :: s[q]
  }

  /** The kernel as it is now. */
  ghost function Now(vm: AddressSpaces.Kernel, live: set<nat>, leaked: nat): Moment
    reads vm, vm.pmm
  {
    Moment(Visible(vm.spec, live), live, leaked, vm.pmm.freePages, vm.Held(), UpperHalves(vm.mem, vm.tab),
           KernelHalf(vm))
  }

  /** The words 256 to 511 of the boot PML4. */
  ghost function KernelHalf(vm: AddressSpaces.Kernel): seq<Word>
    reads vm
  {
    if vm.boot < |vm.mem| then vm.mem[vm.boot][256..] else []
  }

  /** No process yet. */
  ghost function Beginning(free: nat, boot: seq<Word>): Moment {
    Moment(map[], {}, 0, free, Estate({}, map[], multiset{}), map[], boot)
  }

  ghost function KernelFrames(vm: AddressSpaces.Kernel): set<nat> { set f | f in vm.reserved && f < vm.pmm.total }

  /** How many frames are not the kernel's. */
  ghost function Room(vm: AddressSpaces.Kernel): int { vm.pmm.total - |KernelFrames(vm)| }

  ghost function LiveRoots(live: set<nat>): set<Node> { set r | r in live :: Node(r, []) }

  /** Every live process has its tables; what is there beyond them leaked. */
  ghost predicate Tracks(vm: AddressSpaces.Kernel, live: set<nat>, leaked: nat)
    reads vm, vm.pmm, vm.pmm.bitmap, vm.pmm.refcount
  {
    && vm.Valid() && LiveRoots(live) <= Roots(vm.tab)
    && |Roots(vm.tab)| == |live| + leaked && |vm.loose| == leaked && |live| <= MAX_PROCESSES
    && forall f: nat :: f in vm.loose ==> f < vm.pmm.total
  }

  /** Every frame that is not the kernel's is free or held. */
  lemma NowSound(vm: AddressSpaces.Kernel, live: set<nat>, leaked: nat)
    requires Tracks(vm, live, leaked)
    ensures Sound(Now(vm, live, leaked), Room(vm))
  {
    hide AddressSpaces.KernelMapped, Consistent, SharingOk, ReadsAs, Size;
    KeysOf(vm.Books(), vm.mem, vm.tab, vm.spec);
    FrameCount(vm.Books(), vm.mem, vm.tab, KernelFrames(vm));
    RootedNow(vm.Books(), vm.mem, vm.tab);
    assert LiveRoots(live) <= vm.Held().tables;
    KernelNow(vm.Books(), vm.mem, vm.tab, vm.boot, vm.first, Now(vm, live, leaked));
  }

  /** The boot PML4 has the kernel half it had at boot. */
  lemma Booted(vm: AddressSpaces.Kernel)
    requires vm.Valid()
    ensures KernelHalf(vm) == vm.first[256..]
  {
    hide AddressSpaces.KernelMapped, Good, Consistent, Pmm.Allocator.Valid;
    AddressSpaces.MappedBoot(vm.mem, vm.tab, vm.boot, vm.first);
  }

  lemma KernelNow(l: Ledger, mem: Memory, tab: Tables, boot: nat, first: Page, m: Moment)
    requires Consistent(l, mem, tab) && AddressSpaces.KernelMapped(mem, tab, boot, first)
    requires m.estate.tables == tab.Keys && m.kernel == UpperHalves(mem, tab) && m.boot == mem[boot][256..]
    ensures KernelEverywhere(m)
  {
    hide Consistent, AddressSpaces.KernelMapped;
    AddressSpaces.MappedBoot(mem, tab, boot, first);
    forall r: nat | Node(r, []) in tab
      ensures Node(r, []) in m.kernel && m.kernel[Node(r, [])] == m.boot
    {
      ProperNode(l, mem, tab, Node(r, []));
      AddressSpaces.HasKernel(l, mem, tab, boot, first, r);
      assert mem[r][256..] == first[256..];
    }
  }

  lemma {:induction false} CountLive(live: set<nat>)
    ensures |LiveRoots(live)| == |live|
  {
    if live != {} {
      var r :| r in live;
      CountLive(live - {r});
      assert Node(r, []) !in LiveRoots(live - {r});
      assert LiveRoots(live) == LiveRoots(live - {r}) + {Node(r, [])};
    }
  }

  lemma VisibleFork(s: PageMap, s': PageMap, live: set<nat>, parent: nat, child: nat)
    requires UserVm.Forked(s, s', parent, child) && parent in live && child !in live && NoneBelow(s, child, [])
    ensures Visible(s', live + {child}) == EagerFork(Visible(s, live), parent, child)
  {
    var a, b := Visible(s', live + {child}), EagerFork(Visible(s, live), parent, child);
    forall q: Node ensures q in a <==> q in b {
      if q.root == child && Node(parent, q.path) in s {
        assert Node(parent, q.path) in Visible(s, live);
      }
      assert [] <= q.path;
    }
    forall q: Node | q in a ensures a[q] == b[q] {
      assert [] <= q.path;
    }
  }

  lemma VisibleSurvives(tab: Tables, s: PageMap, tab': Tables, s': PageMap, live: set<nat>)
    requires Survives(tab, s, tab', s') && LiveRoots(live) <= Roots(tab)
    ensures Visible(s', live) == Visible(s, live) && LiveRoots(live) <= Roots(tab')
  {
    forall r | r in live ensures Node(r, []) in tab {
      assert Node(r, []) in LiveRoots(live);
    }
  }

  lemma StemsVisible(s: PageMap, live: set<nat>, root: nat)
    requires root in live
    ensures Stems(Visible(s, live), root) == Stems(s, root)
  {
    assert forall q: Node :: q.root == root ==> (q in Visible(s, live) <==> q in s);
  }

  /** One request; `event` says what happened. */
  method Serve(vm: AddressSpaces.Kernel, req: Request, live: set<nat>, ghost leaked: nat)
    returns (event: Event, live': set<nat>, ghost leaked': nat)
    requires Tracks(vm, live, leaked) && leaked < MAX_LEAKS
    modifies vm, vm.pmm, vm.pmm.bitmap, vm.pmm.refcount
    ensures Tracks(vm, live', leaked') && Step(old(Now(vm, live, leaked)), req, event, Now(vm, live', leaked'))
  {
    hide Tracks, Visible, EagerFork, Stems;
    event, live', leaked' := Refused, live, leaked;
    match req
    case Create(cr3) =>
      if |live| < MAX_PROCESSES {
        event, live' := ServeCreate(vm, cr3, live, leaked);
      }
    case Fill(k, contents, flags) =>
      if k.Page?() && k.root in live && !(flags.writable && flags.cow) {
        event := ServeFill(vm, k, contents, flags, live, leaked);
      }
    case Fork(parent) =>
      if parent in live && |live| < MAX_PROCESSES {
        event, live', leaked' := ServeFork(vm, parent, live, leaked);
      }
    case Destroy(root) =>
      if root in live {
        event, live' := ServeDestroy(vm, root, live, leaked);
      }
    case Store(k, i, v) =>
      if k.Page?() && k.root in live && i < 512 {
        event := ServeStore(vm, k, i, v, live, leaked);
      }
    case Load(k, i) =>
      if k.Page?() && k.root in live && i < 512 {
        event := ServeLoad(vm, k, i, live, leaked);
      }
  }

  lemma LiveRoot(vm: AddressSpaces.Kernel, live: set<nat>, leaked: nat, r: nat)
    requires Tracks(vm, live, leaked) && r in live
    ensures Node(r, []) in vm.tab
  {
    assert Node(r, []) in LiveRoots(live);
  }

  lemma TracksParts(vm: AddressSpaces.Kernel, live: set<nat>, leaked: nat)
    requires Tracks(vm, live, leaked)
    ensures vm.Valid() && LiveRoots(live) <= Roots(vm.tab) && |Roots(vm.tab)| == |live| + leaked && |vm.loose| == leaked
    ensures |live| <= MAX_PROCESSES && forall f: nat :: f in vm.loose ==> f < vm.pmm.total
  {
  }

  /** Nobody is born and nobody has died, though a fork may have leaked. */
  lemma TracksAgain(vm: AddressSpaces.Kernel, live: set<nat>, leaked: nat, tab: Tables, leaked': nat)
    requires vm.Valid() && LiveRoots(live) <= Roots(tab) <= Roots(vm.tab) && |Roots(tab)| == |live| + leaked
    requires |Roots(vm.tab)| == |Roots(tab)| + leaked' - leaked && |vm.loose| == leaked'
    requires |live| <= MAX_PROCESSES && forall f: nat :: f in vm.loose ==> f < vm.pmm.total
    ensures Tracks(vm, live, leaked')
  {
  }

  /** One more process. */
  lemma TracksMore(vm: AddressSpaces.Kernel, live: set<nat>, leaked: nat, tab: Tables, root: nat)
    requires vm.Valid() && LiveRoots(live) <= Roots(tab) && |Roots(tab)| == |live| + leaked && |vm.loose| == leaked
    requires |live| < MAX_PROCESSES && forall f: nat :: f in vm.loose ==> f < vm.pmm.total
    requires Roots(vm.tab) == Roots(tab) + {Node(root, [])} && Node(root, []) !in tab
    ensures Tracks(vm, live + {root}, leaked) && root !in live
  {
    hide LiveRoots, Roots;
    RootsGrown(tab, vm.tab, live, root);
  }

  method ServeLoad(vm: AddressSpaces.Kernel, k: Node, i: nat, live: set<nat>, ghost leaked: nat) returns (event: Event)
    requires Tracks(vm, live, leaked) && k.Page?() && k.root in live && i < 512
    ensures Step(Now(vm, live, leaked), Load(k, i), event, Now(vm, live, leaked)) && !event.Refused?
  {
    hide AddressSpaces.KernelMapped, Good, Consistent;
    LiveRoot(vm, live, leaked, k.root);
    var v, ok := vm.Load(k, i);
    event := if ok then Loaded(k, i, v) else LoadFault(k);
  }

  /** A creation while a live process runs, or before there is any. */
  method ServeCreate(vm: AddressSpaces.Kernel, cr3: nat, live: set<nat>, ghost leaked: nat)
    returns (event: Event, live': set<nat>)
    requires Tracks(vm, live, leaked) && |live| < MAX_PROCESSES
    modifies vm, vm.pmm, vm.pmm.bitmap, vm.pmm.refcount
    ensures Tracks(vm, live', leaked) && Step(old(Now(vm, live, leaked)), Create(cr3), event, Now(vm, live', leaked))
  {
    hide KernelHalf, UpperHalves, AddressSpaces.KernelMapped, Good, Consistent, Visible, LiveRoots, Roots,
         Pmm.Allocator.Valid, Step, EstateOf, Tracks;
    ghost var m := Now(vm, live, leaked);
    TracksParts(vm, live, leaked);
    EstateParts(vm.tab, vm.maps, vm.loose);
    NoPagesHere(vm.Books(), vm.mem, vm.tab, vm.spec);
    FramesCounted(vm);
    Booted(vm);
    if cr3 in live {
      LiveRoot(vm, live, leaked, cr3);
    }
    var root := vm.Create(if cr3 in live then cr3 else vm.boot);
    Booted(vm);
    FramesCounted(vm);
    if root == 0 {
      TracksAgain(vm, live, leaked, old(vm.tab), leaked);
      CreateRefused(m, cr3, Now(vm, live, leaked));
      return Refused, live;
    }
    NewRoot(old(vm.tab), vm.tab, root);
    TracksMore(vm, live, leaked, old(vm.tab), root);
    VisibleNew(vm.spec, old(vm.tab), live, root);
    EstateParts(vm.tab, vm.maps, vm.loose);
    CreatedStep(m, cr3, root, Now(vm, live + {root}, leaked));
    return Created(root), live + {root};
  }

  lemma CreatedStep(m: Moment, cr3: nat, root: nat, m': Moment)
    requires 0 < m.free && |m.live| < MAX_PROCESSES && Node(root, []) !in m.estate.tables
    requires m' == m.(live := m.live + {root}, free := m.free - 1, estate := m'.estate, kernel := m'.kernel)
    requires m'.estate.tables == m.estate.tables + {Node(root, [])} && m'.estate.frames == m.estate.frames
      && m'.estate.loose == m.estate.loose
    ensures Step(m, Create(cr3), Created(root), m')
  {
  }

  lemma CreateRefused(m: Moment, cr3: nat, m': Moment)
    requires m.free == 0 && m' == m.(kernel := m'.kernel)
    ensures Step(m, Create(cr3), Refused, m')
  {
  }

  lemma NewRoot(tab: Tables, tab': Tables, root: nat)
    requires tab' == tab[Node(root, []) := root]
    ensures Roots(tab') == Roots(tab) + {Node(root, [])}
  {
  }

  lemma VisibleNew(spec: PageMap, tab: Tables, live: set<nat>, root: nat)
    requires (forall q: Node :: q in spec ==> Node(q.root, []) in tab) && Node(root, []) !in tab
    ensures Visible(spec, live + {root}) == Visible(spec, live)
  {
  }

  lemma NoPagesHere(l: Ledger, mem: Memory, tab: Tables, spec: PageMap)
    requires Good(l, mem, tab, spec)
    ensures forall q: Node :: q in spec ==> Node(q.root, []) in tab
  {
    forall q: Node | q in spec ensures Node(q.root, []) in tab {
      RootOf(mem, tab, l.maps, q.Parent());
    }
  }

  lemma NoneBelowNew(spec: PageMap, tab: Tables, child: nat)
    requires (forall q: Node :: q in spec ==> Node(q.root, []) in tab) && Node(child, []) !in tab
    ensures NoneBelow(spec, child, [])
  {
  }

  /** A page is filled exactly if there are the frames it takes. */
  lemma FilledStep(m: Moment, k: Node, contents: Page, flags: Flags, f: nat, m': Moment, room: int)
    requires Sound(m, room) && Sound(m', room) && Fillable(m, k, flags)
    requires Unused(m.estate, f)
    requires m' == Moment(m.pages[k := Mapped(contents, Apparent(flags.(present := true)))], m.live, m.leaked, m'.free,
                          WithPage(m.estate, k, f), m'.kernel, m.boot)
    ensures Step(m, Fill(k, contents, flags), Filled(k, contents, Apparent(flags.(present := true))), m')
  {
    hide Size, Missing, Unused, WithPage;
    PageSize(m.estate, k, f);
  }

  /** A fill that comes short of frames has made tables only. */
  lemma FillRefused(m: Moment, k: Node, contents: Page, flags: Flags, d: nat, m': Moment, room: int)
    requires Sound(m, room) && Sound(m', room) && Fillable(m, k, flags)
    requires m' == m.(free := m'.free, estate := m'.estate, kernel := m'.kernel)
    requires if m.free == 0 then m' == m.(kernel := m'.kernel) else m'.free == 1 && WithWay(m.estate, m'.estate, k, d)
    ensures Step(m, Fill(k, contents, flags), Refused, m')
  {
    hide Size, Missing, WithWay;
    if m.free > 0 {
      WaySize(m.estate, m'.estate, k, d);
    }
  }

  method ServeFill(vm: AddressSpaces.Kernel, k: Node, contents: Page, flags: Flags, live: set<nat>, ghost leaked: nat)
    returns (event: Event)
    requires Tracks(vm, live, leaked) && k.Page?() && k.root in live && !(flags.writable && flags.cow)
    modifies vm, vm.pmm, vm.pmm.bitmap, vm.pmm.refcount
    ensures Tracks(vm, live, leaked)
      && Step(old(Now(vm, live, leaked)), Fill(k, contents, flags), event, Now(vm, live, leaked))
  {
    hide KernelHalf, UpperHalves, AddressSpaces.KernelMapped, Good, Consistent, Sound, Step, Unused, WithPage, WithWay,
         Pmm.Allocator.Valid;
    ghost var m := Now(vm, live, leaked);
    NowSound(vm, live, leaked);
    LiveRoot(vm, live, leaked, k.root);
    var v, mapped := vm.Load(k, 0);
    if mapped {
      PageThere(m, k, contents, flags);
      return Refused;
    }
    FramesCounted(vm);
    var ok;
    ghost var f, d;
    Booted(vm);
    ok, f, d := vm.MapFresh(k, contents, flags);
    Booted(vm);
    FramesCounted(vm);
    NowSound(vm, live, leaked);
    if !ok {
      FillRefused(m, k, contents, flags, d, Now(vm, live, leaked), Room(vm));
      return Refused;
    }
    var shown := Apparent(flags.(present := true));
    assert Visible(vm.spec, live) == Visible(old(vm.spec), live)[k := Mapped(contents, shown)];
    FilledStep(m, k, contents, flags, f, Now(vm, live, leaked), Room(vm));
    return Filled(k, contents, shown);
  }

  lemma PageThere(m: Moment, k: Node, contents: Page, flags: Flags)
    requires k in m.pages
    ensures Step(m, Fill(k, contents, flags), Refused, m)
  {
  }

  method ServeFork(vm: AddressSpaces.Kernel, parent: nat, live: set<nat>, ghost leaked: nat)
    returns (event: Event, live': set<nat>, ghost leaked': nat)
    requires Tracks(vm, live, leaked) && parent in live && |live| < MAX_PROCESSES && leaked < MAX_LEAKS
    modifies vm, vm.pmm, vm.pmm.bitmap, vm.pmm.refcount
    ensures Tracks(vm, live', leaked') && Step(old(Now(vm, live, leaked)), Fork(parent), event, Now(vm, live', leaked'))
  {
    hide KernelHalf, UpperHalves, AddressSpaces.KernelMapped, Good, Consistent, UserVm.Forked, Survives, Stems, Visible,
         LiveRoots, EagerFork, Roots, NoneBelow, Stopped, Copy, Paths, Pmm.Allocator.Valid, Tracks, Step, EstateOf;
    ghost var m := Now(vm, live, leaked);
    EstateParts(vm.tab, vm.maps, vm.loose);
    TracksParts(vm, live, leaked);
    LiveRoot(vm, live, leaked, parent);
    NoPagesHere(vm.Books(), vm.mem, vm.tab, vm.spec);
    StemsVisible(vm.spec, live, parent);
    var free := vm.pmm.freePages;
    FramesCounted(vm);
    var child;
    ghost var half, k, d;
    Booted(vm);
    child, half, k, d := vm.Fork(parent);
    Booted(vm);
    FramesCounted(vm);
    if child == 0 {
      VisibleSurvives(old(vm.tab), old(vm.spec), vm.tab, vm.spec, live);
      if free == 0 {
        TracksAgain(vm, live, leaked, old(vm.tab), leaked);
        ForkRefused(m, parent, Now(vm, live, leaked));
        return Refused, live, leaked;
      }
      TracksAgain(vm, live, leaked, old(vm.tab), leaked + 1);
      LeakedStep(m, parent, half, k, d, Now(vm, live, leaked + 1));
      return Leaked(parent), live, leaked + 1;
    }
    TracksMore(vm, live, leaked, old(vm.tab), child);
    NoneBelowNew(old(vm.spec), old(vm.tab), child);
    VisibleFork(old(vm.spec), vm.spec, live, parent, child);
    ForkedStep(m, parent, child, Now(vm, live + {child}, leaked));
    return Forked(parent, child), live + {child}, leaked;
  }

  lemma ForkedStep(m: Moment, parent: nat, child: nat, m': Moment)
    requires parent in m.live && |m.live| < MAX_PROCESSES && ForkCost(m, parent) <= m.free
    requires Node(child, []) !in m.estate.tables
    requires m' == Moment(EagerFork(m.pages, parent, child), m.live + {child}, m.leaked, m'.free,
                          Copy(m.estate, parent, child, Paths(m.estate, parent)), m'.kernel, m.boot)
    ensures Step(m, Fork(parent), Forked(parent, child), m')
  {
    hide Stems, EagerFork, Copy, Paths;
  }

  lemma LeakedStep(m: Moment, parent: nat, half: nat, k: Node, d: nat, m': Moment)
    requires parent in m.live && |m.live| < MAX_PROCESSES && 0 < m.free < ForkCost(m, parent)
    requires Node(half, []) !in m.estate.tables && Stopped(m.estate, m'.estate, parent, half, k, d)
    requires m' == m.(leaked := m.leaked + 1, free := 0, estate := m'.estate, kernel := m'.kernel)
    ensures Step(m, Fork(parent), Leaked(parent), m')
  {
    hide Stems, Stopped;
  }

  lemma ForkRefused(m: Moment, parent: nat, m': Moment)
    requires m.free == 0 && m' == m.(kernel := m'.kernel)
    ensures Step(m, Fork(parent), Refused, m')
  {
  }

  lemma RootsGrown(tab: Tables, tab': Tables, live: set<nat>, child: nat)
    requires Roots(tab') == Roots(tab) + {Node(child, [])} && LiveRoots(live) <= Roots(tab) && Node(child, []) !in tab
    ensures LiveRoots(live + {child}) <= Roots(tab') && child !in live && |Roots(tab')| == |Roots(tab)| + 1
  {
    assert child in live ==> Node(child, []) in LiveRoots(live);
  }

  method ServeDestroy(vm: AddressSpaces.Kernel, root: nat, live: set<nat>, ghost leaked: nat)
    returns (event: Event, live': set<nat>)
    requires Tracks(vm, live, leaked) && root in live
    modifies vm, vm.pmm, vm.pmm.bitmap, vm.pmm.refcount
    ensures Tracks(vm, live', leaked) && Step(old(Now(vm, live, leaked)), Destroy(root), event, Now(vm, live', leaked))
  {
    hide KernelHalf, UpperHalves, AddressSpaces.KernelMapped, Good, Consistent;
    LiveRoot(vm, live, leaked, root);
    Booted(vm);
    vm.Destroy(root);
    Booted(vm);
    live' := live - {root};
    RootsCut(old(vm.tab), vm.tab, live, root);
    event := Destroyed(root);
    assert Visible(vm.spec, live') == After(Visible(old(vm.spec), live), event);
  }

  lemma RootsCut(tab: Tables, tab': Tables, live: set<nat>, root: nat)
    requires Roots(tab') == Roots(tab) - {Node(root, [])} && LiveRoots(live) <= Roots(tab) && root in live
    ensures LiveRoots(live - {root}) <= Roots(tab') && |Roots(tab')| + 1 == |Roots(tab)|
  {
    assert Node(root, []) in LiveRoots(live);
  }

  method ServeStore(vm: AddressSpaces.Kernel, k: Node, i: nat, v: Word, live: set<nat>, ghost leaked: nat)
    returns (event: Event)
    requires Tracks(vm, live, leaked) && k.Page?() && k.root in live && i < 512
    modifies vm, vm.pmm, vm.pmm.bitmap, vm.pmm.refcount
    ensures Tracks(vm, live, leaked) && Step(old(Now(vm, live, leaked)), Store(k, i, v), event, Now(vm, live, leaked))
  {
    hide KernelHalf, UpperHalves, AddressSpaces.KernelMapped, Good, Consistent, Rehomed, Refs;
    LiveRoot(vm, live, leaked, k.root);
    FramesCounted(vm);
    Pmm.UsedFit(vm.pmm);
    var ok;
    ghost var g;
    Booted(vm);
    ok, g := vm.Store(k, i, v);
    Booted(vm);
    event := if ok then Stored(k, i, v) else Refused;
    assert Visible(vm.spec, live) == After(Visible(old(vm.spec), live), event);
  }

  /**
   Any list of requests. The log and the moments between its events are a chain of the
   eager kernel's steps, from the state before the run to the state after it, through states
   in which every frame is free, the kernel's, or held. The list is cut short only after
   MAX_LEAKS forks have leaked; with at most 64 processes the 8-bit reference counts cannot
   saturate before. When everybody is gone, all frames are back exactly if no fork leaked.
   */
  method Run(vm: AddressSpaces.Kernel, requests: seq<Request>)
    returns (log: seq<Event>, live: set<nat>, ghost leaked: nat, ghost moments: seq<Moment>)
    requires vm.Valid() && vm.tab == map[] && vm.loose == multiset{} && vm.spec == map[]
    modifies vm, vm.pmm, vm.pmm.bitmap, vm.pmm.refcount
    ensures Tracks(vm, live, leaked) && Trace(requests, log, moments, old(vm.pmm.freePages))
      && (leaked < MAX_LEAKS ==> |log| == |requests|)
    ensures moments[0] == Beginning(old(vm.pmm.freePages), old(KernelHalf(vm)))
      && moments[|log|] == Now(vm, live, leaked)
    ensures Visible(vm.spec, live) == Replay(log)
    ensures live == {} ==> (vm.pmm.freePages == old(vm.pmm.freePages) <==> leaked == 0)
  {
    hide Step, Tracks, Visible, Sound, Pmm.Allocator.Valid, Good, Consistent, UpperHalves, KernelHalf;
    log, live, leaked := [], {}, 0;
    Begins(vm);
    moments := [Now(vm, live, leaked)];
    ghost var room := Room(vm);
    NowSound(vm, live, leaked);
    var leaks := 0;
    while |log| < |requests| && leaks < MAX_LEAKS
      invariant leaks == leaked && Tracks(vm, live, leaked) && Trace(requests, log, moments, room)
      invariant moments[0] == Beginning(old(vm.pmm.freePages), old(KernelHalf(vm)))
      invariant moments[|log|] == Now(vm, live, leaked)
      invariant Visible(vm.spec, live) == Replay(log)
      decreases |requests| - |log|
    {
      var event;
      event, live, leaked := Serve(vm, requests[|log|], live, leaked);
      leaks := if event.Leaked? then leaks + 1 else leaks;
      NowSound(vm, live, leaked);
      TraceMore(requests, log, moments, room, event, Now(vm, live, leaked));
      ReplayMore(moments[|log|], requests[|log|], log, event, Now(vm, live, leaked));
      log, moments := log + [event], moments + [Now(vm, live, leaked)];
    }
    if live == {} {
      Leftover(vm, leaked, old(vm.pmm.used));
    }
    LastCount(vm, live, leaked);
  }

  /** Before the first request. */
  lemma Begins(vm: AddressSpaces.Kernel)
    requires vm.Valid() && vm.tab == map[] && vm.loose == multiset{} && vm.spec == map[]
    ensures Tracks(vm, {}, 0) && Room(vm) == vm.pmm.freePages && vm.pmm.freePages + |vm.pmm.used| == vm.pmm.total
    ensures Now(vm, {}, 0) == Beginning(vm.pmm.freePages, KernelHalf(vm))
    ensures forall f: nat :: f in vm.pmm.used <==> f < vm.pmm.total && f in vm.reserved
  {
    hide AddressSpaces.KernelMapped, Good, Consistent, Size;
    assert Roots(vm.tab) == {} && LiveRoots({}) == {};
    NothingLeaks(vm.Books(), vm.mem, vm.tab);
    KeysOf(vm.Books(), vm.mem, vm.tab, vm.spec);
    assert vm.Held() == Estate({}, map[], multiset{});
    assert Visible(vm.spec, {}) == map[];
    assert KernelFrames(vm) == vm.pmm.used;
  }

  lemma LastCount(vm: AddressSpaces.Kernel, live: set<nat>, leaked: nat)
    requires Tracks(vm, live, leaked)
    ensures vm.pmm.freePages + |vm.pmm.used| == vm.pmm.total
  {
    hide AddressSpaces.KernelMapped, Good, Consistent;
    FramesCounted(vm);
  }

  // ----- what requests cost -----

  lemma StemsCount(m: Moment, root: nat, room: int)
    requires Sound(m, room) && root in m.live
    ensures |Trunk(m.estate.frames.Keys, root)| == |Stems(m.pages, root)|
  {
    hide Size, LiveRoots, Rooted;
    CountPaths(Trunk(m.estate.frames.Keys, root), Stems(m.pages, root), root);
  }

  /**
   * What every request does to the free frames: a creation takes one, a page its own and the
   * tables missing on its way, a fork the tables of the parent's pages, a store one exactly if
   * the page is shared; a destruction gives back the tables and the frames nobody else holds.
   */
  ghost function FreeAfter(m: Moment, req: Request, e: Event): int {
    match e
    case Created(_) => m.free - 1
    case Filled(k, _, _) => m.free - FillCost(m, k)
    case Forked(parent, _) => m.free - ForkCost(m, parent)
    case Leaked(_) => 0
    case Destroyed(root) => m.free + |Top(m.estate, root)| + |Own(m.estate, root)|
    case Stored(k, _, _) => m.free - if MustCopy(m, k) then 1 else 0
    case Refused => if req.Fill? && Fillable(m, req.page, req.flags) && 0 < m.free then 1 else m.free
    case _ => m.free
  }

  lemma Costs(m: Moment, req: Request, e: Event, m': Moment, room: int)
    requires Step(m, req, e, m') && Sound(m, room) && Sound(m', room)
    ensures m'.free == FreeAfter(m, req, e)
  {
    hide Stems, Trunk, Copy, Paths, Unused, WithPage, Rehomed, Stopped, Missing, WithWay, Own, Top, Gone, After,
         LiveRoots, Refs, Observes, KernelEverywhere, Size, Rooted;
    var h := m.estate;
    match e
    case Created(root) => RootSize(h, root);
    case Filled(k, _, _) =>
      var f :| Unused(h, f) && m'.estate == WithPage(h, k, f);
      PageSize(h, k, f);
    case Forked(parent, child) => ForkedCost(m, parent, child, m', room);
    case Destroyed(root) => GoneSize(h, root);
    case Stored(k, _, _) =>
      var g :| Rehomed(h, m'.estate, k, g);
      HasFrame(h, m'.estate, k, g);
      MoveSize(h, m'.estate, k, g);
    case _ =>
  }

  lemma RootSize(h: Estate, root: nat)
    requires Node(root, []) !in h.tables
    ensures Size(h.(tables := h.tables + {Node(root, [])})) == Size(h) + 1
  {
    assert Data(h.(tables := h.tables + {Node(root, [])})) == Data(h);
  }

  lemma ForkedCost(m: Moment, parent: nat, child: nat, m': Moment, room: int)
    requires Sound(m, room) && Sound(m', room) && parent in m.live && Node(child, []) !in m.estate.tables
    requires m'.estate == Copy(m.estate, parent, child, Paths(m.estate, parent))
    ensures m'.free == m.free - ForkCost(m, parent)
  {
    hide Stems, Trunk, Copy, Paths, LiveRoots, KernelEverywhere, Size;
    NobodyThere(m.estate, child);
    ForkSize(m.estate, parent, child);
    StemsCount(m, parent, room);
  }

  lemma NobodyThere(h: Estate, child: nat)
    requires Rooted(h) && Node(child, []) !in h.tables
    ensures (forall n :: n in h.tables ==> n.root != child) && (forall q :: q in h.frames ==> q.root != child)
      && forall q :: q in h.frames ==> |q.path| == 4
  {
  }

  lemma HasFrame(h: Estate, h': Estate, k: Node, g: nat)
    requires Rehomed(h, h', k, g)
    ensures k in h.frames
  {
  }

  lemma FramesCounted(vm: AddressSpaces.Kernel)
    requires vm.Valid()
    ensures vm.pmm.freePages + |vm.pmm.used| == vm.pmm.total == |vm.pmm.refs|
  {
    hide AddressSpaces.KernelMapped, Good, Consistent;
  }

  /** A machine of eight frames, two of them the kernel's. */
  method SmallMachine() returns (vm: AddressSpaces.Kernel)
    ensures fresh(vm) && fresh(vm.pmm) && fresh(vm.pmm.bitmap) && fresh(vm.pmm.refcount)
    ensures vm.Valid() && vm.tab == map[] && vm.spec == map[] && vm.loose == multiset{}
    ensures vm.pmm.total == 8 && vm.pmm.used == vm.reserved == {0, 1} && vm.pmm.freePages == 6
  {
    var pmm := Pmm.EightFrames();
    vm := new AddressSpaces.Kernel(pmm, 1, seq(8, _ => ZERO_PAGE));
    hide AddressSpaces.KernelMapped, Good, Consistent, Pmm.Allocator.Valid;
    FramesCounted(vm);
  }

  /** A process with one page is all a machine of eight frames has room for, but for one frame. */
  method OneProcess() returns (vm: AddressSpaces.Kernel, parent: nat)
    ensures fresh(vm) && fresh(vm.pmm) && fresh(vm.pmm.bitmap) && fresh(vm.pmm.refcount)
    ensures vm.Valid() && Node(parent, []) in vm.tab && |Roots(vm.tab)| == 1 && vm.loose == multiset{}
    ensures vm.pmm.total == 8 && vm.reserved == {0, 1} && |vm.pmm.used| == 7 && |Stems(vm.spec, parent)| >= 3
  {
    vm := SmallMachine();
    hide AddressSpaces.KernelMapped, Good, Consistent, Stems;
    parent := vm.Create(vm.boot);
    NoPagesHere(vm.Books(), vm.mem, vm.tab, vm.spec);
    var k := Node(parent, [0, 0, 0, 0]);
    assert Roots(vm.tab) == {Node(parent, [])};
    var ok;
    ghost var f, d;
    ok, f, d := vm.MapFresh(k, ZERO_PAGE, TABLE_FLAGS);
    assert Node(parent, []) in Roots(vm.tab);
    PageCost(vm.Books(), vm.mem, vm.tab, vm.spec, k, {0, 1});
    PageStems(vm.spec, k);
  }

  /**
   A leaking fork: the process with one page forks. There is a frame for the child's top
   table but none for the tables below it; fork fails, and when the parent is gone as
   well, its frames are not all free again.
   */
  method ForkLeaks() returns (vm: AddressSpaces.Kernel, child: nat)
    ensures child == 0 && vm.Valid() && |Roots(vm.tab)| == 1 && |vm.loose| == 1
    ensures vm.pmm.freePages < 6
  {
    hide AddressSpaces.KernelMapped, Good, Consistent, Stems, Pmm.Allocator.Valid, Stopped, Copy, Paths, Survives, Gone;
    var parent;
    vm, parent := OneProcess();
    ghost var half, k, d;
    child, half, k, d := vm.Fork(parent);
    assert Node(parent, []) in Roots(vm.tab) && |Roots(vm.tab)| == 2;
    FramesCounted(vm);
    vm.Destroy(parent);
    assert |Roots(vm.tab)| == 1;
    FramesCounted(vm);
    SomethingLeaks(vm.Books(), vm.mem, vm.tab, {0, 1});
  }

  lemma TraceMore(reqs: seq<Request>, log: seq<Event>, ms: seq<Moment>, room: int, e: Event, m: Moment)
    requires |log| < |reqs| && Trace(reqs, log, ms, room) && Step(ms[|log|], reqs[|log|], e, m) && Sound(m, room)
    ensures Trace(reqs, log + [e], ms + [m], room)
  {
    hide Step, Sound;
  }

  // ----- what a process reads is what was last written -----

  /** The event gives the page `k` of a process, or word `i` of it, new contents. */
  ghost predicate Rewrites(e: Event, k: Node, i: nat) {
    || (e.Stored? && e.page == k && e.i == i) || (e.Filled? && e.page == k)
    || (e.Destroyed? && e.root == k.root) || (e.Forked? && e.child == k.root)
  }

  lemma WordKept(m: Moment, req: Request, e: Event, m': Moment, k: Node, i: nat)
    requires Step(m, req, e, m') && !Rewrites(e, k, i) && i < 512
    ensures k in m.pages <==> k in m'.pages
    ensures k in m.pages ==> m'.pages[k].page[i] == m.pages[k].page[i]
  {
    hide Answers, Observes, Excused, Moves, LiveAfter;
  }

  lemma {:induction false} WordStays(reqs: seq<Request>, log: seq<Event>, ms: seq<Moment>, room: int, a: nat, b: nat,
                                     k: Node, i: nat)
    requires Trace(reqs, log, ms, room) && a <= b <= |log| && i < 512
    requires forall x :: a <= x < b ==> !Rewrites(log[x], k, i)
    ensures k in ms[a].pages <==> k in ms[b].pages
    ensures k in ms[a].pages ==> ms[b].pages[k].page[i] == ms[a].pages[k].page[i]
    decreases b
  {
    hide Step, Sound, Rewrites;
    if a < b {
      WordStays(reqs, log, ms, room, a, b - 1, k, i);
      WordKept(ms[b - 1], reqs[b - 1], log[b - 1], ms[b], k, i);
    }
  }

  /** The event puts `v` in word `i` of page `k`. */
  ghost predicate Leaves(e: Event, k: Node, i: nat, v: Word) {
    e == Stored(k, i, v) || (e.Filled? && e.page == k && i < 512 && e.contents[i] == v)
  }

  /** A load shows the word last put there, whatever the other processes did in between. */
  lemma LoadsLastStore(reqs: seq<Request>, log: seq<Event>, ms: seq<Moment>, room: int, a: nat, b: nat, k: Node, i: nat,
                       v: Word)
    requires Trace(reqs, log, ms, room) && a < b < |log| && Leaves(log[a], k, i, v)
    requires log[b].Loaded? && log[b].page == k && log[b].i == i
    requires forall x :: a < x < b ==> !Rewrites(log[x], k, i)
    ensures log[b].v == v
  {
    var n := a + 1;
    assert Step(ms[a], reqs[a], log[a], ms[n]) && Step(ms[b], reqs[b], log[b], ms[b + 1]);
    hide Sound, Moves, Excused, Answers, Rewrites, LiveAfter;
    WordStays(reqs, log, ms, room, n, b, k, i);
  }

  /** A child shows the word its parent had at the fork, whatever the parent did since. */
  lemma LoadsParentsWord(reqs: seq<Request>, log: seq<Event>, ms: seq<Moment>, room: int, a: nat, b: nat, parent: nat,
                         k: Node, i: nat)
    requires Trace(reqs, log, ms, room) && a < b < |log| && log[a] == Forked(parent, k.root)
    requires log[b].Loaded? && log[b].page == k && log[b].i == i
    requires forall x :: a < x < b ==> !Rewrites(log[x], k, i)
    ensures i < 512 && Node(parent, k.path) in ms[a].pages && log[b].v == ms[a].pages[Node(parent, k.path)].page[i]
  {
    var n := a + 1;
    assert Sound(ms[a], room);
    assert Step(ms[a], reqs[a], log[a], ms[n]) && Step(ms[b], reqs[b], log[b], ms[b + 1]);
    assert k !in ms[a].pages by { NoOrphan(ms[a], k, room); }
    hide Sound, Excused, Answers, Rewrites, Copy, Paths, Stems;
    WordStays(reqs, log, ms, room, n, b, k, i);
  }

  /** Nobody has pages without a top table. */
  lemma NoOrphan(m: Moment, k: Node, room: int)
    requires Sound(m, room) && Node(k.root, []) !in m.estate.tables
    ensures k !in m.pages
  {
    assert k.root in m.live ==> Node(k.root, []) in LiveRoots(m.live);
  }

  lemma ReplayMore(m: Moment, req: Request, log: seq<Event>, e: Event, m': Moment)
    requires Step(m, req, e, m') && m.pages == Replay(log)
    ensures m'.pages == Replay(log + [e]) && m'.leaked == m.leaked + (if e.Leaked? then 1 else 0)
  {
    hide Answers, Observes, Excused, After, Moves;
    assert (log + [e])[..|log|] == log;
  }

  /** With no process left, the frames in use are those of the beginning exactly if nothing leaked. */
  lemma Leftover(vm: AddressSpaces.Kernel, leaked: nat, first: set<nat>)
    requires Tracks(vm, {}, leaked) && forall f: nat :: f in first <==> f < vm.pmm.total && f in vm.reserved
    ensures |vm.pmm.used| == |first| <==> leaked == 0
  {
    var l := vm.Books();
    if leaked == 0 {
      assert |vm.loose| == 0;
      NothingLeaks(l, vm.mem, vm.tab);
      assert vm.pmm.used == first;
    } else {
      SomethingLeaks(l, vm.mem, vm.tab, first);
    }
  }
}
