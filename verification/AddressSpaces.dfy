/** The operations of kernel/memory/user_vm.c on physical memory and the frame allocator. */
module AddressSpaces {
  import opened PageTable
  import opened UserVm
  import opened Holdings
  import Pmm

  /** The pages after word `i` of page `k` was stored. */
  function WordStored(spec: PageMap, k: Node, i: nat, v: Word): PageMap {
    if k in spec && i < 512 then spec[k := spec[k].(page := spec[k].page[i := v])] else spec
  }

  /** The page is mapped and its owner may write to it. */
  predicate MayStore(spec: PageMap, k: Node) { k in spec && spec[k].flags.writable }

  /** The upper 256 words of the page in frame `f` are those of `first`. */
  ghost predicate SameUpper(mem: Memory, f: nat, first: Page) {
    f < |mem| && forall i :: 256 <= i < 512 ==> mem[f][i] == first[i]
  }

  /** The boot PML4 is as it was, and every address space has its kernel half. */
  ghost predicate KernelMapped(mem: Memory, tab: Tables, boot: nat, first: Page) {
    boot < |mem| && mem[boot] == first && forall n :: n in tab && n.path == [] ==> SameUpper(mem, tab[n], first)
  }

  /** A write to a frame that is no top table, or to the user half of one. */
  lemma WriteBelow(mem: Memory, tab: Tables, boot: nat, first: Page, f: nat, page: Page)
    requires KernelMapped(mem, tab, boot, first) && f < |mem| && f != boot
    requires (forall n :: n in tab && n.path == [] ==> tab[n] != f)
          || forall i :: 256 <= i < 512 ==> page[i] == mem[f][i]
    ensures KernelMapped(mem[f := page], tab, boot, first)
  {
    forall n | n in tab && n.path == [] ensures SameUpper(mem[f := page], tab[n], first) {
      assert SameUpper(mem, tab[n], first);
    }
  }

  lemma FreshIsBelow(l: Ledger, mem: Memory, tab: Tables, boot: nat, f: nat)
    requires Consistent(l, mem, tab) && boot in l.reserved && boot < |mem| && f < |mem| && f !in l.used
    ensures f != boot && forall n :: n in tab ==> tab[n] != f
  {
    assert l.FrameOk(f) && l.FrameOk(boot);
    forall n | n in tab ensures tab[n] != f {
      assert tab[n] in tab.Values;
    }
  }

  lemma TableIsBelow(l: Ledger, mem: Memory, tab: Tables, boot: nat, n: Node)
    requires Consistent(l, mem, tab) && boot in l.reserved && boot < |mem| && n in tab
    ensures tab[n] < |mem| && tab[n] != boot
    ensures n.path != [] ==> forall r :: r in tab && r.path == [] ==> tab[r] != tab[n]
  {
    assert tab[n] in tab.Values && l.FrameOk(boot);
  }

  lemma DataIsBelow(l: Ledger, mem: Memory, tab: Tables, boot: nat, k: Node)
    requires Consistent(l, mem, tab) && boot in l.reserved && boot < |mem| && k in l.maps
    ensures l.maps[k].frame < |mem| && l.maps[k].frame != boot && forall n :: n in tab ==> tab[n] != l.maps[k].frame
  {
    DataFrame(l, mem, tab, k);
    forall n | n in tab ensures tab[n] != l.maps[k].frame {
      assert tab[n] in tab.Values;
    }
  }

  /** A word of a table changes; in a top table, a word of the user half. */
  lemma EntryBelow(l: Ledger, mem: Memory, tab: Tables, boot: nat, first: Page, n: Node, i: nat, w: Word)
    requires Consistent(l, mem, tab) && boot in l.reserved && KernelMapped(mem, tab, boot, first)
    requires n in tab && n.Has(i) && tab[n] < |mem|
    ensures KernelMapped(mem[tab[n] := mem[tab[n]][i := w]], tab, boot, first)
  {
    hide Consistent, KernelMapped;
    MappedBoot(mem, tab, boot, first);
    TableIsBelow(l, mem, tab, boot, n);
    WriteBelow(mem, tab, boot, first, tab[n], mem[tab[n]][i := w]);
  }

  lemma MappedBoot(mem: Memory, tab: Tables, boot: nat, first: Page)
    requires KernelMapped(mem, tab, boot, first)
    ensures boot < |mem| && mem[boot] == first
  {
  }

  lemma TableAdded(mem: Memory, tab: Tables, boot: nat, first: Page, n: Node, f: nat)
    requires KernelMapped(mem, tab, boot, first) && (n.path == [] ==> SameUpper(mem, f, first))
    ensures KernelMapped(mem, tab[n := f], boot, first)
  {
  }

  /** A new table with one entry pointing to it. */
  lemma TableKept(l: Ledger, mem: Memory, tab: Tables, boot: nat, first: Page, n: Node, i: nat, f: nat, w: Word)
    requires Consistent(l, mem, tab) && boot in l.reserved && KernelMapped(mem, tab, boot, first)
    requires n in tab && n.Has(i) && tab[n] < |mem| && f < |mem| && f !in l.used
    ensures KernelMapped(mem[f := ZERO_PAGE][tab[n] := mem[tab[n]][i := w]], tab[n.Child(i) := f], boot, first)
  {
    hide Consistent, KernelMapped;
    MappedBoot(mem, tab, boot, first);
    FreshIsBelow(l, mem, tab, boot, f);
    TableIsBelow(l, mem, tab, boot, n);
    WriteBelow(mem, tab, boot, first, f, ZERO_PAGE);
    WriteBelow(mem[f := ZERO_PAGE], tab, boot, first, tab[n], mem[tab[n]][i := w]);
    TableAdded(mem[f := ZERO_PAGE][tab[n] := mem[tab[n]][i := w]], tab, boot, first, n.Child(i), f);
  }

  lemma FreshKept(l: Ledger, mem: Memory, tab: Tables, boot: nat, first: Page, f: nat, page: Page)
    requires Consistent(l, mem, tab) && boot in l.reserved && KernelMapped(mem, tab, boot, first)
    requires f < |mem| && f !in l.used
    ensures KernelMapped(mem[f := page], tab, boot, first)
  {
    hide Consistent, KernelMapped;
    MappedBoot(mem, tab, boot, first);
    FreshIsBelow(l, mem, tab, boot, f);
    WriteBelow(mem, tab, boot, first, f, page);
  }

  lemma DataKept(l: Ledger, mem: Memory, tab: Tables, boot: nat, first: Page, k: Node, page: Page)
    requires Consistent(l, mem, tab) && boot in l.reserved && KernelMapped(mem, tab, boot, first) && k in l.maps
    ensures l.maps[k].frame < |mem| && KernelMapped(mem[l.maps[k].frame := page], tab, boot, first)
  {
    hide Consistent, KernelMapped;
    MappedBoot(mem, tab, boot, first);
    DataIsBelow(l, mem, tab, boot, k);
    WriteBelow(mem, tab, boot, first, l.maps[k].frame, page);
  }

  lemma LeafKept(l: Ledger, mem: Memory, tab: Tables, boot: nat, first: Page, k: Node, i: nat, t: nat, w: Word)
    requires Consistent(l, mem, tab) && boot in l.reserved && KernelMapped(mem, tab, boot, first)
    requires Locates(mem, tab, l.maps, k, t, i)
    ensures KernelMapped(mem[t := mem[t][i := w]], tab, boot, first)
  {
    hide Consistent, KernelMapped;
    EntryBelow(l, mem, tab, boot, first, k.Parent(), i, w);
  }

  /** The shared page of `k` is copied to a fresh frame and its entry pointed there. */
  lemma CopyKept(l: Ledger, mem: Memory, tab: Tables, boot: nat, first: Page, k: Node, i: nat, t: nat, g: nat,
                   page: Page, w: Word)
    requires Consistent(l, mem, tab) && boot in l.reserved && KernelMapped(mem, tab, boot, first)
    requires Locates(mem, tab, l.maps, k, t, i) && g < |mem| && g !in l.used
    ensures t != g && KernelMapped(mem[g := page][t := mem[t][i := w]], tab, boot, first)
  {
    hide Consistent, KernelMapped;
    MappedBoot(mem, tab, boot, first);
    FreshIsBelow(l, mem, tab, boot, g);
    TableIsBelow(l, mem, tab, boot, k.Parent());
    WriteBelow(mem, tab, boot, first, g, page);
    WriteBelow(mem[g := page], tab, boot, first, t, mem[t][i := w]);
  }

  lemma RootKept(l: Ledger, mem: Memory, tab: Tables, boot: nat, first: Page, root: nat, page: Page)
    requires Consistent(l, mem, tab) && boot in l.reserved && KernelMapped(mem, tab, boot, first)
    requires root < |mem| && root !in l.used && forall i :: 256 <= i < 512 ==> page[i] == mem[boot][i]
    ensures KernelMapped(mem[root := page], tab[Node(root, []) := root], boot, first)
  {
    FreshKept(l, mem, tab, boot, first, root, page);
    TableAdded(mem[root := page], tab, boot, first, Node(root, []), root);
  }

  lemma FramesHeld(l: Ledger, mem: Memory, tab: Tables)
    requires Consistent(l, mem, tab)
    ensures |mem| == |l.refs|
  {
  }

  lemma RootPlaced(l: Ledger, mem: Memory, tab: Tables, f: nat, p: Page, spec: PageMap)
    requires Good(l, mem, tab, spec) && f < |mem| && f !in l.used && forall i :: 0 <= i < 256 ==> !p[i].flags.present
    ensures var tab' := tab[Node(f, []) := f];
            var l' := l.(used := l.used + {f}, refs := l.refs[f := 1], tables := tab'.Values);
            Consistent(l', mem[f := p], tab') && Node(f, []) !in tab && Good(l', mem[f := p], tab', spec)
  {
    hide Tree, Ledger.Ok, ReadsAs;
    PlaceRoot(l, mem, tab, f, p, spec);
    forall k | k in l.maps ensures l.maps[k].frame != f {
      DataFrame(l, mem, tab, k);
    }
  }

  lemma HasKernel(l: Ledger, mem: Memory, tab: Tables, boot: nat, first: Page, r: nat)
    requires Consistent(l, mem, tab) && KernelMapped(mem, tab, boot, first) && Node(r, []) in tab
    ensures r < |mem| && forall i :: 256 <= i < 512 ==> mem[r][i] == first[i]
  {
    assert SameUpper(mem, tab[Node(r, [])], first);
  }

  /** The kernel half of whatever table is in CR3 is that of the boot PML4. */
  lemma InForce(l: Ledger, mem: Memory, tab: Tables, boot: nat, first: Page, cr3: nat)
    requires Consistent(l, mem, tab) && KernelMapped(mem, tab, boot, first) && (cr3 == boot || Node(cr3, []) in tab)
    ensures cr3 < |mem| && forall i :: 256 <= i < 512 ==> mem[cr3][i] == first[i]
    ensures Node(cr3, []) in tab ==> tab[Node(cr3, [])] == cr3
  {
    hide Consistent, KernelMapped;
    if Node(cr3, []) in tab {
      HasKernel(l, mem, tab, boot, first, cr3);
      ProperNode(l, mem, tab, Node(cr3, []));
    }
    MappedBoot(mem, tab, boot, first);
  }

  lemma CutKept(mem: Memory, tab: Tables, boot: nat, first: Page, n: Node)
    requires KernelMapped(mem, tab, boot, first)
    ensures KernelMapped(mem, Cut(tab, n), boot, first)
  {
  }

  class Kernel {
    const pmm: Pmm.Allocator
    const boot: nat                 // the boot PML4, whose kernel half every address space copies
    ghost const first: Page         // what the boot PML4 held at boot
    ghost const reserved: set<nat>  // frames of the kernel
    var mem: Memory

    ghost var tab: Tables
    ghost var maps: Mappings
    ghost var loose: multiset<nat>
    ghost var spec: PageMap

    ghost function Books(): Ledger
      reads this, pmm
    {
      Ledger(pmm.used, pmm.refs, reserved, tab.Values, maps, loose)
    }

    ghost function Held(): Estate
      reads this
    {
      EstateOf(tab, maps, loose)
    }

    /**
     The tables are trees, the books are right and every address space has the kernel half;
     what pages hold is not said.
     */
    ghost predicate Sound()
      reads this, pmm, pmm.bitmap, pmm.refcount
    {
      && pmm.Valid() && Consistent(Books(), mem, tab) && KernelMapped(mem, tab, boot, first)
      && 0 in reserved && boot in reserved && boot < |mem|
      && forall p: nat :: p < pmm.kernelLimit ==> p in reserved
    }

    ghost predicate Valid()
      reads this, pmm, pmm.bitmap, pmm.refcount
    {
      Sound() && Good(Books(), mem, tab, spec)
    }

    constructor (pmm: Pmm.Allocator, boot: nat, mem: Memory)
      requires pmm.Valid() && boot in pmm.used && |mem| == pmm.total
      ensures Valid() && this.pmm == pmm && spec == map[] && tab == map[] && loose == multiset{}
        && reserved == old(pmm.used) && this.boot == boot && first == mem[boot]
    {
      this.pmm, this.boot, this.first, this.reserved, this.mem := pmm, boot, mem[boot], pmm.used, mem;
      tab, maps, loose, spec := map[], map[], multiset{}, map[];
    }

    /** alloc_zeroed_page. */
    method AllocZeroed() returns (f: nat)
      requires Sound()
      modifies this`mem, pmm, pmm.bitmap, pmm.refcount
      ensures pmm.Valid() && pmm.kernelLimit == old(pmm.kernelLimit)
      ensures f == 0 <==> |old(pmm.used)| == pmm.total
      ensures f == 0 ==> mem == old(mem) && pmm.used == old(pmm.used) && pmm.refs == old(pmm.refs)
      ensures f != 0 ==> f < pmm.total && f !in old(pmm.used) && mem == old(mem)[f := ZERO_PAGE]
                         && pmm.used == old(pmm.used) + {f} && pmm.refs == old(pmm.refs)[f := 1]
    {
      f := pmm.Alloc();
      if f != 0 {
        mem := mem[f := ZERO_PAGE];
      }
    }

    /** The entry is empty: point it at a new table. */
    method NewTable(ghost n: Node, table: nat, i: nat) returns (next: nat)
      requires Sound() && n in tab && tab[n] == table && |n.path| < 3 && n.Has(i) && !mem[table][i].flags.present
      modifies this`mem, this`tab, pmm, pmm.bitmap, pmm.refcount
      ensures Sound() && Grew(n.root, old(Books()), old(mem), old(tab), Books(), mem, tab)
      ensures next != 0 ==>
        n.Child(i) in tab && tab[n.Child(i)] == next && |old(pmm.used)| <= |pmm.used| <= |old(pmm.used)| + 1
      ensures next == 0 ==> |pmm.used| == pmm.total && pmm.used == old(pmm.used) && n.Child(i) !in tab
      ensures OnWay(old(tab), tab, n.Child(i))
    {
      hide Tree, Ledger.Ok, Grew, OnWay, KernelMapped;
      ProperNode(Books(), mem, tab, n);
      EmptyEntry(Books(), mem, tab, n, i);
      OnWayOne(tab, n.Child(i), 0);
      next := AllocZeroed();
      if next != 0 {
        FreshIsBelow(old(Books()), old(mem), tab, boot, next);
        mem := mem[table := mem[table][i := Word(next, TABLE_FLAGS)]];
        OnWayOne(tab, n.Child(i), next);
        tab := tab[n.Child(i) := next];
        PlaceTable(old(Books()), old(mem), old(tab), n, i, next, Books(), mem, tab);
        TableKept(old(Books()), old(mem), old(tab), boot, first, n, i, next, Word(next, TABLE_FLAGS));
      } else {
        GrewNot(n.root, Books(), mem, tab);
      }
    }

    /** The entry points to a table: widen its permissions. */
    method WidenEntry(ghost n: Node, table: nat, i: nat) returns (next: nat)
      requires Sound() && n in tab && tab[n] == table && |n.path| < 3 && n.Has(i) && mem[table][i].flags.present
      modifies this`mem
      ensures Sound() && Grew(n.root, old(Books()), old(mem), old(tab), Books(), mem, tab)
      ensures next != 0 && n.Child(i) in tab && tab[n.Child(i)] == next
    {
      hide Consistent, Grew, KernelMapped;
      ProperNode(Books(), mem, tab, n);
      var w := mem[table][i];
      next := w.frame;
      w := w.(flags := w.flags.(user := true, writable := true));
      WidenedGrew(Books(), mem, tab, n, i, w);
      EntryBelow(Books(), mem, tab, boot, first, n, i, w);
      TableNotZero(Books(), mem, tab, n.Child(i));
      mem := mem[table := mem[table][i := w]];
    }

    /** One level of user_vm_map_page. */
    method EnsureTable(ghost n: Node, table: nat, i: nat) returns (next: nat)
      requires Sound() && n in tab && tab[n] == table && |n.path| < 3 && n.Has(i)
      modifies this`mem, this`tab, pmm, pmm.bitmap, pmm.refcount
      ensures Sound() && Grew(n.root, old(Books()), old(mem), old(tab), Books(), mem, tab)
      ensures next != 0 ==>
        n.Child(i) in tab && tab[n.Child(i)] == next && |old(pmm.used)| <= |pmm.used| <= |old(pmm.used)| + 1
      ensures next == 0 ==> |pmm.used| == pmm.total && pmm.used == old(pmm.used) && n.Child(i) !in tab
      ensures OnWay(old(tab), tab, n.Child(i))
    {
      if !mem[table][i].flags.present {
        next := NewTable(n, table, i);
      } else {
        next := WidenEntry(n, table, i);
      }
    }

    /** The upper levels of user_vm_map_page from depth `d` on; 0 when memory ran out. */
    method EnsureTables(k: Node, d: nat, table: nat) returns (pt: nat)
      requires Sound() && k.Page?() && d <= 3
      requires Node(k.root, k.path[..d]) in tab && tab[Node(k.root, k.path[..d])] == table != 0
      modifies this`mem, this`tab, pmm, pmm.bitmap, pmm.refcount
      ensures Sound() && Grew(k.root, old(Books()), old(mem), old(tab), Books(), mem, tab)
      ensures pt != 0 ==> k.Parent() in tab && tab[k.Parent()] == pt && |pmm.used| + d <= |old(pmm.used)| + 3
      ensures pt == 0 ==> |pmm.used| == pmm.total && |pmm.used| + d <= |old(pmm.used)| + 2 && WayBroken(tab, k)
      ensures OnWay(old(tab), tab, k) && |old(pmm.used)| <= |pmm.used|
      decreases 3 - d
    {
      hide KernelMapped, Consistent, Grew, OnWay, WayBroken;
      if d == 3 {
        GrewNot(k.root, Books(), mem, tab);
        OnWayOne(tab, k, 0);
        return table;
      }
      PathStep(k, d);
      var next := EnsureTable(Node(k.root, k.path[..d]), table, k.path[d]);
      assert k.path[..d + 1] <= k.path;
      if next == 0 {
        WayBreaks(tab, k, d + 1);
        OnWayOne(tab, k, 0);
        OnWayTrans(old(tab), tab, tab, Node(k.root, k.path[..d + 1]), k);
        return 0;
      }
      ghost var l, m, t := Books(), mem, tab;
      pt := EnsureTables(k, d + 1, next);
      OnWayTrans(old(tab), t, tab, Node(k.root, k.path[..d + 1]), k);
      GrewTrans(k.root, old(Books()), old(mem), old(tab), l, m, t, Books(), mem, tab);
    }

    /** user_vm_map_page: the page is mapped and nothing else is, or memory ran out and no mapping changed. */
    method MapPage(k: Node, frame: nat, flags: Flags) returns (ok: bool)
      requires Sound() && k.Page?() && k !in maps && Node(k.root, []) in tab
      requires frame < pmm.total && loose[frame] > 0
      modifies this`mem, this`tab, this`maps, this`loose, pmm, pmm.bitmap, pmm.refcount
      ensures Sound()
      ensures Grew(k.root, old(Books()), old(mem), old(tab), Books().(maps := old(maps), loose := old(loose)), mem, tab)
      ensures ok ==>
        maps == old(maps)[k := Word(frame, flags.(present := true))] && loose == old(loose) - multiset{frame}
      ensures !ok ==>
        maps == old(maps) && loose == old(loose) && |pmm.used| == pmm.total && |pmm.used| <= |old(pmm.used)| + 2
        && WayBroken(tab, k)
      ensures OnWay(old(tab), tab, k) && |old(pmm.used)| <= |pmm.used| <= |old(pmm.used)| + 3
    {
      assert k.path[..0] == [];
      assert k.root in tab.Values;
      assert Books().FrameOk(k.root);
      var table := EnsureTables(k, 0, k.root);
      if table == 0 {
        return false;
      }
      ghost var m := mem;
      ParentChild(k);
      SetEntry(k.Parent(), table, k.path[3], Word(frame, flags.(present := true)));
      assert table in tab.Values;
      GrewLeaf(k.root, old(Books()), old(mem), old(tab), Books().(maps := old(maps), loose := old(loose)), m, tab,
               table, mem[table]);
      return true;
    }

    /** The assignment to an empty leaf entry. */
    method SetEntry(ghost n: Node, table: nat, i: nat, w: Word)
      requires Sound() && n in tab && tab[n] == table && |n.path| == 3 && i < 512 && n.Child(i) !in maps
      requires w.flags.present && w.frame < pmm.total && loose[w.frame] > 0
      modifies this`mem, this`maps, this`loose
      ensures Sound()
      ensures maps == old(maps)[n.Child(i) := w] && loose == old(loose) - multiset{w.frame}
      ensures mem == old(mem)[table := old(mem)[table][i := w]]
    {
      hide KernelMapped, Tree, Ledger.Ok, Pmm.Allocator.Valid;
      Pmm.UsedFit(pmm);
      ProperNode(Books(), mem, tab, n);
      EntryBelow(Books(), mem, tab, boot, first, n, i, w);
      PlaceEntry(Books(), mem, tab, n, i, w);
      mem := mem[table := mem[table][i := w]];
      maps, loose := maps[n.Child(i) := w], loose - multiset{w.frame};
      assert Books() == old(Books()).(maps := maps, loose := loose);
    }

    /** The loop of user_vm_create_address_space over the kernel half. */
    method CopyKernel(zeroed: Page, cr3: nat) returns (page: Page)
      requires cr3 < |mem|
      ensures forall j :: 0 <= j < 512 ==> page[j] == if j < 256 then zeroed[j] else mem[cr3][j]
    {
      page := zeroed;
      for i := 256 to 512
        invariant forall j :: 0 <= j < 512 ==> page[j] == if j < 256 || j >= i then zeroed[j] else mem[cr3][j]
      {
        page := page[i := mem[cr3][i]];
      }
    }

    /**
     user_vm_create_address_space: 0 when no frame is left. The kernel half comes from the
     table in CR3, which is that of some process or the boot PML4.
     */
    method Create(cr3: nat) returns (root: nat)
      requires Valid() && (cr3 == boot || Node(cr3, []) in tab)
      modifies this`mem, this`tab, pmm, pmm.bitmap, pmm.refcount
      ensures Valid()
      ensures root == 0 <==> |old(pmm.used)| == pmm.total
      ensures root == 0 ==> tab == old(tab) && pmm.used == old(pmm.used)
      ensures root != 0 ==> |pmm.used| == |old(pmm.used)| + 1
      ensures root != 0 ==> Node(root, []) !in old(tab) && tab == old(tab)[Node(root, []) := root]
      ensures root != 0 ==> forall i :: 256 <= i < 512 ==> root < |mem| && mem[root][i] == old(mem)[boot][i]
    {
      hide KernelMapped, Good, Consistent, Pmm.Allocator.Valid;
      MappedBoot(mem, tab, boot, first);
      Pmm.UsedFit(pmm);
      FramesHeld(Books(), mem, tab);
      InForce(Books(), mem, tab, boot, first, cr3);
      root := AllocZeroed();
      if root != 0 {
        FreshIsBelow(old(Books()), old(mem), tab, boot, root);
        ghost var n := Node(cr3, []);
        assert n in tab ==> tab[n] != root && tab[n] == cr3;
        var page := CopyKernel(mem[root], cr3);
        RootKept(old(Books()), old(mem), tab, boot, first, root, page);
        RootPlaced(old(Books()), old(mem), tab, root, page, spec);
        assert mem[root := page] == old(mem)[root := page];
        mem := mem[root := page];
        tab := tab[Node(root, []) := root];
        assert Books() == old(Books()).(used := pmm.used, refs := pmm.refs, tables := tab.Values);
      }
    }

    /** A leaf entry is overwritten with the same frame and other flags. */
    method Reflag(ghost k: Node, table: nat, i: nat, flags: Flags)
      requires Valid() && Locates(mem, tab, maps, k, table, i)
      requires flags.present && Apparent(flags) == Apparent(maps[k].flags) && !(flags.writable && flags.cow)
      requires flags.writable && maps[k].frame < |pmm.refs| ==> pmm.refs[maps[k].frame] == 1
      modifies this`mem, this`maps
      ensures Valid() && maps == old(maps)[k := Word(old(maps)[k].frame, flags)] && Locates(mem, tab, maps, k, table, i)
    {
      hide KernelMapped, Consistent, SharingOk, ReadsAs;
      ghost var w := Word(maps[k].frame, flags);
      LeafKept(Books(), mem, tab, boot, first, k, i, table, w);
      ReflagEntry(Books(), mem, tab, spec, k, table, i, w);
      mem := mem[table := mem[table][i := Word(mem[table][i].frame, flags)]];
      maps := maps[k := w];
      assert Books() == old(Books()).(maps := maps);
    }

    /** The body of fork's innermost loop: share one page of the parent with the child. */
    method SharePage(ghost k: Node, table: nat, i: nat, c: Node) returns (ok: bool)
      requires Valid() && Locates(mem, tab, maps, k, table, i)
      requires c.path == k.path && c.root != k.root && c !in maps && Node(c.root, []) in tab
      requires |Roots(tab)| + |loose| <= MAX_REFS
      modifies this, pmm, pmm.bitmap, pmm.refcount
      ensures Valid() && ChildGrew(old(tab), tab, c.root)
      ensures Budget(old(tab), old(pmm.used), tab, pmm.used, c.root, Stems(old(spec), k.root))
      ensures Shares(old(maps), maps, k.root, c.root) && Wanted(old(tab), tab, spec, c.root, if ok then [] else c.path)
      ensures ok ==> k in old(spec) && spec == old(spec)[c := old(spec)[k]] && loose == old(loose)
      ensures !ok ==> spec == old(spec) && loose == old(loose) + multiset{old(maps)[k].frame} && |pmm.used| == pmm.total
      ensures !ok ==> Lacks(tab, c.root, Stems(old(spec), k.root)) && WayBroken(tab, c)
    {
      hide KernelMapped, Consistent, SharingOk, ReadsAs, ChildGrew, Budget, Lacks, Stems, Shares, Wanted, WayBroken;
      var phys := mem[table][i].frame;
      var flags := mem[table][i].flags;
      SharesRefl(maps, k.root, c.root);
      if flags.writable {
        flags := flags.(writable := false, cow := true);
        SharesFlags(maps, k, Word(phys, flags), k.root, c.root);
        Reflag(k, table, i, flags);
      }
      ghost var f := maps;
      HoldForChild(k, phys, c);
      ok := MapForChild(k, phys, flags, c);
      SharesTrans(old(maps), f, maps, k.root, c.root);
    }

    method MapForChild(ghost k: Node, phys: nat, flags: Flags, c: Node) returns (ok: bool)
      requires Valid() && k in maps && maps[k] == Word(phys, flags) && !flags.writable && flags.present
        && loose[phys] > 0
      requires c.Page?() && c.path == k.path && c !in maps && Node(c.root, []) in tab
      modifies this, pmm, pmm.bitmap, pmm.refcount
      ensures Valid() && ChildGrew(old(tab), tab, c.root)
      ensures Shares(old(maps), maps, k.root, c.root) && Wanted(old(tab), tab, spec, c.root, if ok then [] else c.path)
      ensures Budget(old(tab), old(pmm.used), tab, pmm.used, c.root, Stems(old(spec), k.root))
      ensures ok ==> k in old(spec) && spec == old(spec)[c := old(spec)[k]] && loose == old(loose) - multiset{phys}
      ensures !ok ==>
        spec == old(spec) && loose == old(loose) && |pmm.used| == pmm.total
        && Lacks(tab, c.root, Stems(old(spec), k.root)) && WayBroken(tab, c)
    {
      hide KernelMapped, Consistent, SharingOk, ReadsAs, Grew, ChildGrew, OnWay, WayBroken, Budget, Lacks, Stems,
           Shares, Wanted;
      SharesRefl(maps, k.root, c.root);
      SharesPage(maps, k, c, Word(phys, flags));
      DataFrame(Books(), mem, tab, k);
      KeysOf(Books(), mem, tab, spec);
      ok := MapPage(c, phys, flags);
      GrewChild(c.root, old(Books()), old(mem), old(tab), Books().(maps := old(maps), loose := old(loose)), mem, tab);
      ShortTables(Books(), mem, tab);
      WayBudget(old(Books()), old(mem), old(tab), Books().(maps := old(maps), loose := old(loose)), mem, tab, spec, k,
                c);
      if ok {
        SharedEntry(old(Books()), old(mem), old(tab), spec, k, c, Books(), mem, tab);
        spec := spec[c := spec[k]];
      } else {
        GrewGood(c.root, old(Books()), old(mem), old(tab), Books(), mem, tab, spec);
      }
      WantedWay(old(Books()), old(mem), old(tab), Books().(maps := old(maps), loose := old(loose)), mem, tab, spec, c,
                if ok then [] else c.path);
    }

    method HoldForChild(ghost k: Node, phys: nat, ghost c: Node)
      requires Valid() && k in maps && phys == maps[k].frame && !maps[k].flags.writable
      requires c.path == k.path && c !in maps && Node(c.root, []) in tab && |Roots(tab)| + |loose| <= MAX_REFS
      modifies pmm`refs, pmm.refcount, this`loose
      ensures Valid() && loose == old(loose) + multiset{phys}
    {
      hide KernelMapped, Consistent, SharingOk, ReadsAs;
      DataFrame(Books(), mem, tab, k);
      NotSaturated(Books(), mem, tab, k, c);
      HoldFrame(Books(), mem, tab, spec, k);
      pmm.Ref(phys);
      loose := loose + multiset{phys};
      assert Books() == old(Books()).(refs := pmm.refs, loose := loose);
    }

    /** The child has what the parent has below `n` before index `i`, and frames went into tables it needs. */
    ghost predicate Forking(s: PageMap, t: Tables, u: set<nat>, f: Mappings, n: Node, i: nat, child: nat)
      reads this, pmm, pmm.bitmap, pmm.refcount
    {
      && Valid() && ChildGrew(t, tab, child) && Copied(s, spec, n, i, child)
      && Budget(t, u, tab, pmm.used, child, Stems(s, n.root))
      && Shares(f, maps, n.root, child) && Wanted(t, tab, spec, child, [])
    }

    /** Memory ran out before the child had all the tables it needs: at page `k`, of which a reference is held. */
    ghost predicate ForkStuck(s: PageMap, t: Tables, u: set<nat>, f: Mappings, n: Node, k: Node, child: nat,
                              l: multiset<nat>)
      reads this, pmm, pmm.bitmap, pmm.refcount
    {
      && Valid() && ChildGrew(t, tab, child) && HalfCopied(s, spec, n, k, child) && |pmm.used| == pmm.total
      && Budget(t, u, tab, pmm.used, child, Stems(s, n.root)) && Lacks(tab, child, Stems(s, n.root))
      && Shares(f, maps, n.root, child) && Wanted(t, tab, spec, child, k.path) && WayBroken(tab, Node(child, k.path))
      && k in f && loose == l + multiset{f[k].frame}
    }

    /**
     The nested loops of user_vm_fork_address_space from the table at `n` downward.
     The child gets a copy of every page below `n`; nobody else notices.
     */
    method ForkTable(ghost n: Node, path: seq<nat>, table: nat, child: nat) returns (ok: bool, ghost k: Node)
      requires Valid() && n in tab && tab[n] == table && path == n.path
      requires child != n.root && Node(child, []) in tab && |Roots(tab)| + |loose| <= MAX_REFS
      requires NoneBelow(spec, child, path)
      modifies this, pmm, pmm.bitmap, pmm.refcount
      ensures ok ==> Forking(old(spec), old(tab), old(pmm.used), old(maps), n, 512, child) && loose == old(loose)
      ensures !ok ==> ForkStuck(old(spec), old(tab), old(pmm.used), old(maps), n, k, child, old(loose))
      decreases 4 - |path|, 2
    {
      hide KernelMapped, Good, Consistent, Forking, ForkStuck, NoneBelow;
      ProperNode(Books(), mem, tab, n);
      PagesOf(Books(), mem, tab, spec);
      KeysOf(Books(), mem, tab, spec);
      ForkingStarts(n, child);
      for i := 0 to if path == [] then 256 else 512
        invariant Forking(old(spec), old(tab), old(pmm.used), old(maps), n, i, child) && loose == old(loose)
      {
        ok, k := ForkSlot(n, path, table, i, child, old(spec), old(tab), old(pmm.used), old(maps));
        if !ok {
          return;
        }
      }
      ForkedAll(n, child, old(spec), old(tab), old(pmm.used), old(maps));
      return true, n;
    }

    lemma ForkingStarts(n: Node, child: nat)
      requires Valid() && n in tab && NoneBelow(spec, child, n.path)
      ensures Forking(spec, tab, pmm.used, maps, n, 0, child)
    {
      hide KernelMapped, Good, Consistent;
    }

    lemma ForkedAll(n: Node, child: nat, s: PageMap, t: Tables, u: set<nat>, f: Mappings)
      requires Forking(s, t, u, f, n, if n.path == [] then 256 else 512, child) && Pages(s)
      ensures Forking(s, t, u, f, n, 512, child)
    {
      hide KernelMapped, Consistent, SharingOk, ReadsAs, Copied, ChildGrew, Budget, Shares, Wanted;
      PagesOf(Books(), mem, tab, spec);
      CopiedAll(s, spec, n, child);
    }

    /** One turn of one of fork's loops. */
    method ForkSlot(ghost n: Node, path: seq<nat>, table: nat, i: nat, child: nat, ghost s: PageMap, ghost t: Tables,
                    ghost u: set<nat>, ghost f: Mappings)
      returns (ok: bool, ghost k: Node)
      requires Forking(s, t, u, f, n, i, child) && n in t && t[n] == table && path == n.path && |path| <= 3 && n.Has(i)
        && n.Proper() && f.Keys == s.Keys
      requires child != n.root && Node(child, []) in t && |Roots(t)| + |loose| <= MAX_REFS && NoneBelow(s, child, path)
        && Pages(s)
      modifies this, pmm, pmm.bitmap, pmm.refcount
      ensures ok ==> Forking(s, t, u, f, n, i + 1, child) && loose == old(loose)
      ensures !ok ==> ForkStuck(s, t, u, f, n, k, child, old(loose))
      decreases 4 - |path|, 1
    {
      hide KernelMapped, Good, Consistent, Copied, ChildGrew, Budget, ForkStuck, Shares, Wanted;
      ChildGrewKeeps(t, tab, child, n);
      ProperNode(Books(), mem, tab, n);
      var w := mem[table][i];
      if !w.flags.present || (1 <= |path| <= 2 && w.flags.huge) {
        SkipEntry(Books(), mem, tab, spec, n, i);
        CopiedSkip(s, spec, n, i, child);
        return true, n;
      }
      ok, k := ForkEntry(n, path, table, i, child, s, t, u, f);
    }

    /** A present entry: a page is shared, a table is descended into. */
    method ForkEntry(ghost n: Node, path: seq<nat>, table: nat, i: nat, child: nat, ghost s: PageMap, ghost t: Tables,
                     ghost u: set<nat>, ghost f: Mappings)
      returns (ok: bool, ghost k: Node)
      requires Forking(s, t, u, f, n, i, child) && n in tab && tab[n] == table && path == n.path && |path| <= 3
        && n.Has(i) && n.Proper() && f.Keys == s.Keys
      requires table < |mem| && mem[table][i].flags.present
      requires child != n.root && Node(child, []) in tab && |Roots(tab)| + |loose| <= MAX_REFS
      requires NoneBelow(s, child, path) && Pages(s)
      modifies this, pmm, pmm.bitmap, pmm.refcount
      ensures ok ==> Forking(s, t, u, f, n, i + 1, child) && loose == old(loose)
      ensures !ok ==> ForkStuck(s, t, u, f, n, k, child, old(loose))
      decreases 4 - |path|, 0
    {
      hide KernelMapped, Consistent, SharingOk, ReadsAs, Copied, ChildGrew, OthersSame, Budget, Lacks, Stems, Shares,
           Wanted, WayBroken, HalfCopied;
      ghost var s1, t1, u1, f1 := spec, tab, pmm.used, maps;
      k := n.Child(i);
      PagesOf(Books(), mem, tab, spec);
      ChildFree(s, spec, n, i, child);
      EnterEntry(Books(), mem, tab, n, i);
      StemsKept(s, s1, n, i, child);
      if |path| == 3 {
        assert Node(child, path + [i]) !in spec;
        KeysOf(Books(), mem, tab, spec);
        ok := SharePage(k, table, i, Node(child, path + [i]));
        if ok { CopiedPage(s, s1, n, i, child); } else { HalfHere(s, s1, n, i, child); }
      } else {
        ok, k := ForkTable(n.Child(i), path + [i], mem[table][i].frame, child);
        if ok {
          PagesOf(Books(), mem, tab, spec);
          CopiedBelow(s, s1, spec, n, i, child);
          CopiedKeys(s1, spec, n.Child(i), 512, child);
        } else {
          HalfBelow(s, s1, spec, n, i, k, child);
          HalfOthers(s1, spec, n.Child(i), k, child);
        }
      }
      ChildGrewTrans(t, t1, tab, child);
      BudgetTrans(t, u, t1, u1, tab, pmm.used, child, Stems(s, n.root));
      SharesTrans(f, f1, maps, n.root, child);
      WantedTrans(t, t1, tab, s1, spec, child, if ok then [] else k.path);
      if !ok {
        HalfOthers(s, spec, n, k, child);
        SharesAt(f, f1, n.root, child, k);
      }
    }

    /**
     user_vm_fork_address_space. It succeeds exactly if there is a frame for the child's
     top table and for every table its pages need. Otherwise no existing address space is
     disturbed; but unless no frame was free at all, the half-made child and one reference
     to a page are never given back.
     */
    method Fork(parent: nat) returns (child: nat, ghost half: nat, ghost k: Node, ghost d: nat)
      requires Valid() && Node(parent, []) in tab && |Roots(tab)| + 1 + |loose| <= MAX_REFS
      modifies this, pmm, pmm.bitmap, pmm.refcount
      ensures Valid()
      ensures child != 0 <==> |old(pmm.used)| + 1 + |Stems(old(spec), parent)| <= pmm.total
      ensures child != 0 ==> Node(child, []) !in old(tab) && Roots(tab) == Roots(old(tab)) + {Node(child, [])}
      ensures child != 0 ==> Forked(old(spec), spec, parent, child) && loose == old(loose)
      ensures child != 0 ==> |pmm.used| == |old(pmm.used)| + 1 + |Stems(old(spec), parent)|
      ensures child == 0 ==> Survives(old(tab), old(spec), tab, spec) && |pmm.used| == pmm.total
      ensures child == 0 && |old(pmm.used)| == pmm.total ==> tab == old(tab) && loose == old(loose) && spec == old(spec)
      ensures child == 0 && |old(pmm.used)| == pmm.total ==> maps == old(maps)
      ensures child == 0 && |old(pmm.used)| < pmm.total ==>
        Node(half, []) !in old(tab) && Roots(tab) == Roots(old(tab)) + {Node(half, [])}
        && Stopped(old(Held()), Held(), parent, half, k, d)
      ensures child == 0 && |old(pmm.used)| < pmm.total ==>
        k in old(maps) && old(maps)[k].frame < pmm.total && loose == old(loose) + multiset{old(maps)[k].frame}
        && |Roots(tab)| == |Roots(old(tab))| + 1
      ensures child != 0 ==> Held() == Copy(old(Held()), parent, child, Paths(old(Held()), parent))
      ensures child != 0 ==> forall i :: 256 <= i < 512 ==> child < |mem| && mem[child][i] == old(mem)[boot][i]
    {
      hide KernelMapped, Good, Consistent, Stems, NoneBelow, Shares, Stopped, Copy, Paths, Wanted, HalfCopied,
           WayBroken, Pmm.Allocator.Valid, UserVm.Forked, OthersSame, Survives, EstateOf, ChildGrew;
      half, k, d := 0, Node(0, []), 0;
      Pmm.UsedFit(pmm);
      KeysOf(Books(), mem, tab, spec);
      SurvivesRefl(tab, spec);
      MappedBoot(mem, tab, boot, first);
      child := Create(parent);
      if child == 0 {
        return;
      }
      assert Roots(tab) == Roots(old(tab)) + {Node(child, [])} && Node(child, []) !in Roots(old(tab));
      assert |Roots(tab)| == |Roots(old(tab))| + 1;
      NoPagesYet(old(Books()), old(mem), old(tab), spec, child);
      NewChild(old(Books()), old(mem), old(tab), child);
      ghost var t := tab;
      var ok;
      ok, k := ForkInto(parent, child);
      if ok {
        HasKernel(Books(), mem, tab, boot, first, child);
        ForkDone(Books(), mem, old(tab), old(maps), old(loose), t, old(spec), tab, spec, parent, child);
      } else {
        HalfOthers(old(spec), spec, Node(parent, []), k, child);
        DataFrame(old(Books()), old(mem), old(tab), k);
        PagesOf(Books(), mem, tab, spec);
        d := ForkStopped(Books(), mem, old(tab), old(maps), old(loose), t, old(spec), tab, spec, parent, child, k);
        SurvivesFailure(old(tab), t, tab, old(spec), spec, child);
        half, child := child, 0;
      }
    }

    /** The user half of fork, for a child that has only its top table. */
    method ForkInto(parent: nat, child: nat) returns (ok: bool, ghost k: Node)
      requires Valid() && Node(parent, []) in tab && Node(child, []) in tab && child != parent
        && |Roots(tab)| + |loose| <= MAX_REFS
      requires NoneBelow(spec, child, []) && forall n :: n in tab && n.root == child ==> n.path == []
      modifies this, pmm, pmm.bitmap, pmm.refcount
      ensures Valid() && ChildGrew(old(tab), tab, child) && Roots(tab) == Roots(old(tab))
      ensures ok <==> |old(pmm.used)| + |Stems(old(spec), parent)| <= pmm.total
      ensures ok ==> Forked(old(spec), spec, parent, child) && loose == old(loose)
      ensures ok ==> |pmm.used| == |old(pmm.used)| + |Stems(old(spec), parent)|
      ensures old(tab).Keys <= tab.Keys && Shares(old(maps), maps, parent, child)
        && Wanted(old(tab), tab, spec, child, if ok then [] else k.path)
      ensures !ok ==> HalfCopied(old(spec), spec, Node(parent, []), k, child) && |pmm.used| == pmm.total
      ensures !ok ==>
        k in old(maps) && loose == old(loose) + multiset{old(maps)[k].frame} && WayBroken(tab, Node(child, k.path))
    {
      ProperNode(Books(), mem, tab, Node(parent, []));
      hide KernelMapped, Consistent, SharingOk, ReadsAs, Stems, Copied, ChildGrew, Lacks, NoneBelow, Shares, Wanted,
           HalfCopied, WayBroken;
      ghost var stems := Stems(spec, parent);
      PagesOf(Books(), mem, tab, spec);
      ok, k := ForkTable(Node(parent, []), [], parent, child);
      StemsLong(old(spec), parent);
      FramesTaken(old(Books()), old(mem), old(tab), Books(), mem, tab, child, stems);
      Pmm.UsedFit(pmm);
      ChildRoots(old(tab), tab, child);
      if ok {
        PagesOf(Books(), mem, tab, spec);
        CopiedIsForked(old(spec), spec, parent, child);
        ChildStems(Books(), mem, tab, old(spec), spec, parent, child);
      }
    }

    /**
     A frame is allocated, filled and mapped, as in syscall_brk; the frame is given back
     when mapping fails, the tables made by then are not. Four free frames suffice: the
     page's and three tables'.
     */
    method MapFresh(k: Node, page: Page, flags: Flags) returns (ok: bool, ghost f: nat, ghost d: nat)
      requires Valid() && k.Page?() && k !in spec && Node(k.root, []) in tab && !(flags.writable && flags.cow)
      modifies this, pmm, pmm.bitmap, pmm.refcount
      ensures Valid() && loose == old(loose) && Roots(tab) == Roots(old(tab))
      ensures ok ==> spec == old(spec)[k := Mapped(page, Apparent(flags.(present := true)))]
      ensures ok ==> |old(pmm.used)| < |pmm.used| <= |old(pmm.used)| + 4
      ensures ok ==> Unused(old(Held()), f) && Held() == WithPage(old(Held()), k, f)
      ensures !ok ==> spec == old(spec) && pmm.total <= |old(pmm.used)| + 3
      ensures !ok ==> if |old(pmm.used)| == pmm.total then Held() == old(Held()) && pmm.used == old(pmm.used) else
        |pmm.used| == pmm.total - 1 && WithWay(old(Held()), Held(), k, d)
    {
      hide KernelMapped, Consistent, SharingOk, ReadsAs, Unused, WithPage, WithWay;
      KeysOf(Books(), mem, tab, spec);
      d := 0;
      var g := AllocFilled(page);
      f := g;
      if g == 0 {
        return false, f, 0;
      }
      UnusedIs(old(tab), maps, old(loose), f);
      ok, d := MapLoose(k, g, flags);
      if !ok {
        Discard(g);
      }
      assert loose == old(loose);
      if ok {
        PageMade(old(tab), old(maps), loose, tab, maps, k, f);
      } else {
        WayMade(old(tab), maps, loose, tab, k, d);
      }
    }

    /** A frame with the given contents, not mapped anywhere; 0 when memory ran out. */
    method AllocFilled(page: Page) returns (f: nat)
      requires Valid()
      modifies this`mem, this`loose, pmm, pmm.bitmap, pmm.refcount
      ensures Valid()
      ensures f == 0 ==> loose == old(loose) && |old(pmm.used)| == pmm.total && pmm.used == old(pmm.used)
      ensures f != 0 ==> |pmm.used| == |old(pmm.used)| + 1
      ensures f != 0 ==>
        f < |mem| && mem[f] == page && loose == old(loose) + multiset{f} && loose[f] == 1 && Users(maps, f) == {}
        && old(loose)[f] == 0
    {
      hide KernelMapped, Tree, Ledger.Ok, SharingOk, ReadsAs;
      f := pmm.Alloc();
      if f != 0 {
        FreshFrame(old(Books()), mem, tab, spec, f, page);
        FreshKept(old(Books()), mem, tab, boot, first, f, page);
        mem := mem[f := page];
        loose := loose + multiset{f};
        assert Books() == old(Books()).(used := pmm.used, refs := pmm.refs, loose := loose);
      }
    }

    method Discard(f: nat)
      requires Valid() && f < |mem| && loose[f] == 1 && Users(maps, f) == {}
      modifies this`loose, pmm, pmm.bitmap, pmm.refcount
      ensures Valid() && loose == old(loose) - multiset{f} && f in old(pmm.used) && pmm.used == old(pmm.used) - {f}
    {
      DropFrame(Books(), mem, tab, spec, f);
      hide KernelMapped, Tree, Ledger.Ok, SharingOk, ReadsAs;
      pmm.Unref(f);
      loose := loose - multiset{f};
      assert Books() == old(Books()).(used := pmm.used, refs := pmm.refs, loose := loose);
    }

    method MapLoose(k: Node, f: nat, flags: Flags) returns (ok: bool, ghost d: nat)
      requires Valid() && k.Page?() && k !in maps && Node(k.root, []) in tab && !(flags.writable && flags.cow)
      requires f < |mem| && loose[f] == 1 && Users(maps, f) == {}
      modifies this, pmm, pmm.bitmap, pmm.refcount
      ensures Valid() && |mem| == old(|mem|) && Roots(tab) == Roots(old(tab))
      ensures ok ==>
        spec == old(spec)[k := Mapped(old(mem)[f], Apparent(flags.(present := true)))]
        && loose == old(loose) - multiset{f}
      ensures !ok ==>
        spec == old(spec) && loose == old(loose) && Users(maps, f) == {} && pmm.total <= |old(pmm.used)| + 2
      ensures |old(pmm.used)| <= |pmm.used| <= |old(pmm.used)| + 3
      ensures maps == if ok then old(maps)[k := Word(f, flags.(present := true))] else old(maps)
      ensures d <= 3 && (ok ==> d == 3) && tab.Keys == old(tab).Keys + Way(k.root, k.path, d)
      ensures !ok ==> |pmm.used| == pmm.total && d < 3 && Node(k.root, k.path[..d + 1]) !in tab
    {
      hide KernelMapped, Good, Consistent, OnWay, WayBroken, Way, Shape, Grew, Users, Pmm.Allocator.Valid, Roots,
           ChildGrew;
      TreeShape(Books(), mem, tab);
      Pmm.UsedFit(pmm);
      ok := MapPage(k, f, flags);
      TreeShape(Books(), mem, tab);
      GrewChild(k.root, old(Books()), old(mem), old(tab), Books().(maps := old(maps), loose := old(loose)), mem, tab);
      ChildRoots(old(tab), tab, k.root);
      d := MapTables(old(Books()), old(mem), old(tab), Books().(maps := old(maps), loose := old(loose)), mem, tab, maps,
                     k);
      ghost var l := Books();
      if ok {
        FirstEntry(old(Books()), old(mem), old(tab), spec, k, Word(f, flags.(present := true)), Books(), mem, tab);
        spec := spec[k := Mapped(old(mem)[f], Apparent(flags.(present := true)))];
        assert Books() == l;
        assert Good(l, mem, tab, spec);
        assert pmm.Valid();
        assert Sound();
      } else {
        assert Books().(maps := old(maps), loose := old(loose)) == l;
        GrewGood(k.root, old(Books()), old(mem), old(tab), l, mem, tab, spec);
        assert Valid();
      }
    }

    /** user_vm_get_pte for a user page. */
    method GetPte(k: Node) returns (s: Slot)
      requires Valid() && k.Page?() && Node(k.root, []) in tab
      ensures s == if k.Parent() in tab then Slot(tab[k.Parent()], k.Last()) else NoSlot
      ensures s.Slot? ==> s.frame < |mem| && s.index < 512
      ensures k in maps <==> s.Slot? && s.frame < |mem| && s.index < 512 && mem[s.frame][s.index].flags.present
      ensures k in maps ==> Locates(mem, tab, maps, k, s.frame, s.index)
    {
      s := Walk(mem, k.root, k.path);
      WalkFinds(mem, tab, maps, Node(k.root, []), k.path);
      assert [] + k.path == k.path;
      if k in maps {
        PresentEntry(mem, tab, maps, k);
      }
      if k.Parent() in tab {
        ParentChild(k);
        ProperParent(k);
        assert EntryOk(mem, tab, maps, k.Parent(), k.Last());
      }
    }

    /** cow_handle_fault: no process notices, and afterwards the page may be written in place. */
    method CowFault(k: Node) returns (ok: bool, ghost g: nat)
      requires Valid() && k.Page?() && Node(k.root, []) in tab
      modifies this, pmm, pmm.bitmap, pmm.refcount
      ensures Valid() && spec == old(spec) && tab == old(tab) && loose == old(loose)
      ensures ok ==> k in maps && maps[k].flags.writable && k in old(maps) && old(maps)[k].flags.cow
      ensures !ok ==> maps == old(maps) && pmm.used == old(pmm.used)
      ensures |old(pmm.used)| <= |pmm.used| <= |old(pmm.used)| + 1
      ensures !ok && k in maps && maps[k].flags.cow ==> |pmm.used| == pmm.total && Refs(Held(), k) != 1
      ensures ok ==> Rehomed(old(Held()), Held(), k, g) && (Refs(old(Held()), k) == 1 || |old(pmm.used)| < pmm.total)
    {
      hide KernelMapped, Consistent, SharingOk, ReadsAs, Locates, Users, Pmm.Allocator.Valid, Refs, Rehomed;
      g := 0;
      var s := GetPte(k);
      if s.NoSlot? {
        return false, 0;
      }
      var w := mem[s.frame][s.index];
      if !w.flags.present || !w.flags.cow {
        return false, 0;
      }
      RefsCounted(Books(), mem, tab, k);
      DataFrame(Books(), mem, tab, k);
      var flags := w.flags.(cow := false, writable := true);
      var refs := pmm.Refcount(w.frame);
      if refs == 1 {
        Stays(tab, maps, loose, k, Word(w.frame, flags));
        Reflag(k, s.frame, s.index, flags);
        return true, 0;
      }
      ok, g := CopyPage(k, s, w, flags);
    }

    /** The second half of cow_handle_fault: several owners, so copy. */
    method CopyPage(ghost k: Node, s: Slot, w: Word, flags: Flags) returns (ok: bool, ghost h: nat)
      requires Valid() && s.Slot? && Locates(mem, tab, maps, k, s.frame, s.index) && w == maps[k] && w.frame < |mem|
      requires flags.present && flags.writable && !flags.cow && Apparent(flags) == Apparent(w.flags)
      requires pmm.refs[w.frame] != 1
      modifies this, pmm, pmm.bitmap, pmm.refcount
      ensures Valid() && spec == old(spec) && tab == old(tab) && loose == old(loose)
      ensures ok ==> maps == old(maps)[k := maps[k]] && maps[k].flags == flags
      ensures !ok ==> maps == old(maps) && pmm.used == old(pmm.used) && |pmm.used| == pmm.total
      ensures ok ==> |pmm.used| == |old(pmm.used)| + 1 <= pmm.total && Rehomed(old(Held()), Held(), k, h)
    {
      hide KernelMapped, Consistent, SharingOk, ReadsAs, Users, Pmm.Allocator.Valid, Rehomed;
      DataFrame(Books(), mem, tab, k);
      Pmm.UsedFit(pmm);
      var g := pmm.Alloc();
      h := g;
      if g == 0 {
        return false, 0;
      }
      RefsCounted(old(Books()), mem, tab, k);
      MovesTo(old(Books()), mem, tab, k, Word(g, flags));
      CopyKept(old(Books()), mem, tab, boot, first, k, s.index, s.frame, g, mem[w.frame], Word(g, flags));
      mem := mem[g := mem[w.frame]];
      pmm.Unref(w.frame);
      mem := mem[s.frame := mem[s.frame][s.index := Word(g, flags)]];
      maps := maps[k := Word(g, flags)];
      CopyEntry(old(Books()), old(mem), tab, spec, k, s.frame, s.index, g, Word(g, flags), Books(), mem);
      return true, g;
    }

    /** A store by a process: the hardware checks the entry, and a copy-on-write fault is handled and retried. */
    method Store(k: Node, i: nat, v: Word) returns (ok: bool, ghost g: nat)
      requires Valid() && k.Page?() && Node(k.root, []) in tab && i < 512
      modifies this, pmm, pmm.bitmap, pmm.refcount
      ensures Valid() && tab == old(tab) && loose == old(loose)
      ensures spec == if ok then WordStored(old(spec), k, i, v) else old(spec)
      ensures MayStore(old(spec), k) ==> k in old(Held()).frames
      ensures ok <==> MayStore(old(spec), k) && (Refs(old(Held()), k) == 1 || |old(pmm.used)| < pmm.total)
      ensures ok ==> Rehomed(old(Held()), Held(), k, g)
      ensures !ok ==> pmm.used == old(pmm.used) && Held() == old(Held())
    {
      hide KernelMapped, Consistent, SharingOk, ReadsAs, Refs, Rehomed, Locates, Pmm.Allocator.Valid;
      g := 0;
      KeysOf(Books(), mem, tab, spec);
      if k in maps {
        StoreRight(Books(), mem, tab, spec, k);
        RefsCounted(Books(), mem, tab, k);
      }
      var s := GetPte(k);
      if s.NoSlot? || !mem[s.frame][s.index].flags.present {
        return false, 0;
      }
      if !mem[s.frame][s.index].flags.writable {
        var handled;
        handled, g := CowFault(k);
        if !handled {
          return false, 0;
        }
        s := GetPte(k);
      } else {
        AloneIs(Books(), mem, tab, spec, k);
        Stays(tab, maps, loose, k, maps[k]);
        assert maps[k := maps[k]] == maps;
      }
      StoreThrough(k, s, i, v);
      return true, g;
    }

    method StoreThrough(ghost k: Node, s: Slot, i: nat, v: Word)
      requires Valid() && s.Slot? && Locates(mem, tab, maps, k, s.frame, s.index) && maps[k].flags.writable && i < 512
      modifies this`mem, this`spec
      ensures Valid() && k in old(spec) && spec == WordStored(old(spec), k, i, v)
    {
      hide KernelMapped, Tree, Ledger.Ok, SharingOk;
      DataFrame(Books(), mem, tab, k);
      var f := mem[s.frame][s.index].frame;
      ghost var p := mem[f][i := v];
      StoreGood(Books(), mem, tab, spec, k, p);
      DataKept(Books(), mem, tab, boot, first, k, p);
      mem := mem[f := mem[f][i := v]];
      spec := spec[k := spec[k].(page := p)];
    }

    /** A load by a process. */
    method Load(k: Node, i: nat) returns (v: Word, ok: bool)
      requires Valid() && k.Page?() && Node(k.root, []) in tab && i < 512
      ensures ok <==> k in spec
      ensures ok ==> v == spec[k].page[i]
    {
      var s := GetPte(k);
      hide KernelMapped, Tree, Ledger.Ok, SharingOk;
      if s.NoSlot? || !mem[s.frame][s.index].flags.present {
        return ZERO, false;
      }
      return mem[mem[s.frame][s.index].frame][i], true;
    }

    /** The nested loops of user_vm_destroy_address_space from the table at `n` downward. */
    method DestroyTable(ghost n: Node, depth: nat, table: nat, ghost rt: Tables, ghost rm: Mappings)
      requires Taking(rt, rm) && Submaps(tab, maps, rt, rm) && Intact(tab, maps, rt, rm, n)
      requires n in tab && tab[n] == table && depth == |n.path| <= 3 && n.Proper() && table < |mem|
      modifies pmm, pmm.bitmap, pmm.refcount
      ensures Taking(Cut(rt, n), Cut(rm, n)) && pmm.used <= old(pmm.used)
      decreases 4 - depth
    {
      hide Clearing, Pmm.Allocator.Valid, Submaps;
      assert Prune(rt, n, 0) == rt && Prune(rm, n, 0) == rm;
      for i := 0 to if depth == 0 then 256 else 512
        invariant Taking(Prune(rt, n, i), Prune(rm, n, i)) && pmm.used <= old(pmm.used)
      {
        var w := mem[table][i];
        if !w.flags.present || (1 <= depth <= 2 && w.flags.huge) {
          ClearingSkip(Left(Prune(rt, n, i), Prune(rm, n, i)), mem, tab, maps, rt, rm, n, i);
          SameLeft(Left(Prune(rt, n, i), Prune(rm, n, i)), mem, tab, maps, Prune(rt, n, i + 1), Prune(rm, n, i + 1));
        } else if depth == 3 {
          ClearingPage(Left(Prune(rt, n, i), Prune(rm, n, i)), mem, tab, maps, rt, rm, n, i);
          ghost var l := Left(Prune(rt, n, i), Prune(rm, n, i));
          pmm.Unref(w.frame);
          l := l.(used := pmm.used, refs := pmm.refs, maps := Prune(rm, n, i + 1));
          SameLeft(l, mem, tab, maps, Prune(rt, n, i + 1), Prune(rm, n, i + 1));
        } else {
          ClearingEnter(tab, maps, rt, rm, n, i);
          TableBelow(Left(Prune(rt, n, i), Prune(rm, n, i)), mem, tab, maps, Prune(rt, n, i), Prune(rm, n, i), n, i);
          DestroyTable(n.Child(i), depth + 1, w.frame, Prune(rt, n, i), Prune(rm, n, i));
          PruneNext(rt, n, i);
          PruneNext(rm, n, i);
        }
      }
      ClearingTable(Left(Prune(rt, n, if depth == 0 then 256 else 512), Prune(rm, n, if depth == 0 then 256 else 512)),
                    mem, tab, maps, rt, rm, n);
      pmm.Free(table);
    }

    /**
     * user_vm_destroy_address_space: this address space is gone, no other notices, and its
     * frames are accounted for.
     */
    method Destroy(root: nat)
      requires Valid() && Node(root, []) in tab
      modifies this, pmm, pmm.bitmap, pmm.refcount
      ensures Valid() && loose == old(loose)
      ensures spec == Cut(old(spec), Node(root, []))
      ensures Roots(tab) == Roots(old(tab)) - {Node(root, [])} && |pmm.used| < |old(pmm.used)|
      ensures Held() == Gone(old(Held()), root)
    {
      hide KernelMapped, Consistent, SharingOk, ReadsAs, Clearing, Cut, Submaps, Intact, Pmm.Allocator.Valid;
      ghost var r := Node(root, []);
      ProperNode(Books(), mem, tab, r);
      ClearingStart(Books(), mem, tab, spec, r);
      assert Left(tab, maps) == Books();
      DestroyTable(r, 0, root, tab, maps);
      CutKept(mem, tab, boot, first, r);
      CutGood(old(Books()), mem, tab, spec, r, Left(Cut(tab, r), Cut(maps, r)));
      spec, tab, maps := Cut(spec, r), Cut(tab, r), Cut(maps, r);
      assert Books() == Ledger(pmm.used, pmm.refs, reserved, tab.Values, maps, loose);
      CutRoot(old(Books()), mem, old(tab), r);
      RootFreed(old(Books()), mem, old(tab), r, Books(), tab);
      CutGone(old(tab), old(maps), loose, root);
    }

    /** The books while only `rt` and `rm` are left. */
    ghost function Left(rt: Tables, rm: Mappings): Ledger
      reads this, pmm
    {
      Ledger(pmm.used, pmm.refs, reserved, rt.Values, rm, loose)
    }

    ghost predicate Taking(rt: Tables, rm: Mappings)
      reads this, pmm, pmm.bitmap, pmm.refcount
    {
      && pmm.Valid() && Clearing(Left(rt, rm), mem, tab, maps, rt, rm)
      && 0 in reserved && boot in reserved && boot < |mem|
      && forall p: nat :: p < pmm.kernelLimit ==> p in reserved
    }
  }
}
