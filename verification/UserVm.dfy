/**
 Copy-on-write address spaces over the frame allocator (kernel/memory/user_vm.c).

 `spec` is the memory a kernel without sharing would have: every mapped page of
 every address space has contents of its own, and fork copies all of them.
 */
module UserVm {
  import opened PageTable

  const MAX_REFS: nat := 255

  /** A page as its owner sees it: its contents, and its flags with copy-on-write read as writable. */
  datatype Mapped = Mapped(page: Page, flags: Flags)
  type PageMap = map<Node, Mapped>

  function Apparent(f: Flags): Flags { f.(writable := f.writable || f.cow, cow := false) }

  ghost function Users(maps: Mappings, f: nat): set<Node> { set k | k in maps && maps[k].frame == f }

  ghost function Roots(tab: Tables): set<Node> { set n | n in tab && n.path == [] }

  // ----- accounting for every frame -----

  type Frames = set<nat>
  type Bag = multiset<nat>   // frames, as often as they are referred to

  /**
   The allocator's books next to what they should record.  `reserved` frames belong
   to the kernel, `tables` hold page tables, and `loose` counts the references that
   no entry accounts for: a frame allocated or shared but not mapped yet, and what a
   fork that ran out of memory never gave back.
   */
  datatype Ledger = Ledger(used: Frames, refs: seq<nat>, reserved: Frames, tables: Frames, maps: Mappings, loose: Bag) {

    /**
     * The frame's reference count is the number of entries that map it, and it is in use
     * exactly if that is positive.
     */
    ghost predicate FrameOk(f: nat)
      requires f < |refs|
    {
      if f in reserved || f in tables then
        && f in used && (f in reserved <==> f !in tables)
        && (f in tables ==> refs[f] == 1)
        && Users(maps, f) == {} && loose[f] == 0
      else
        refs[f] == |Users(maps, f)| + loose[f] && (f in used <==> refs[f] > 0)
    }

    ghost predicate Ok() {
      forall f: nat :: f < |refs| ==> FrameOk(f)
    }

    /** An entry changes its flags but not its frame. */
    lemma SetFlags(k: Node, w: Word)
      requires Ok() && k in maps && w.frame == maps[k].frame
      ensures this.(maps := maps[k := w]).Ok()
    {
      var l := this.(maps := maps[k := w]);
      forall f: nat | f < |refs| ensures l.FrameOk(f) {
        assert FrameOk(f);
        assert Users(l.maps, f) == Users(maps, f);
      }
    }

    /** A frame in use gains a reference that is not accounted for yet. */
    lemma Hold(g: nat)
      requires Ok() && g < |refs| && g in used && g !in reserved && g !in tables
      ensures this.(refs := refs[g := refs[g] + 1], loose := loose + multiset{g}).Ok()
    {
      var l := this.(refs := refs[g := refs[g] + 1], loose := loose + multiset{g});
      forall f: nat | f < |refs| ensures l.FrameOk(f) {
        assert FrameOk(f);
      }
    }

    /** A new entry accounts for a loose reference. */
    lemma Attach(k: Node, w: Word)
      requires Ok() && k !in maps && w.frame < |refs| && loose[w.frame] > 0
      ensures w.frame !in reserved && w.frame !in tables && w.frame in used
      ensures this.(maps := maps[k := w], loose := loose - multiset{w.frame}).Ok()
    {
      assert FrameOk(w.frame);
      var l := this.(maps := maps[k := w], loose := loose - multiset{w.frame});
      forall f: nat | f < |refs| ensures l.FrameOk(f) {
        assert FrameOk(f);
        if f == w.frame {
          assert Users(l.maps, f) == Users(maps, f) + {k};
          assert l.loose[f] == loose[f] - 1;
        } else {
          assert Users(l.maps, f) == Users(maps, f);
          assert l.loose[f] == loose[f];
        }
      }
    }

    /** A frame just allocated: its one reference is loose, or the frame becomes a table. */
    lemma Fresh(g: nat)
      requires Ok() && g < |refs| && g !in used
      ensures g !in reserved && g !in tables && Users(maps, g) == {} && loose[g] == 0
      ensures this.(used := used + {g}, refs := refs[g := 1], loose := loose + multiset{g}).Ok()
      ensures this.(used := used + {g}, refs := refs[g := 1], tables := tables + {g}).Ok()
    {
      assert FrameOk(g);
      var a := this.(used := used + {g}, refs := refs[g := 1], loose := loose + multiset{g});
      var b := this.(used := used + {g}, refs := refs[g := 1], tables := tables + {g});
      forall f: nat | f < |refs| ensures a.FrameOk(f) && b.FrameOk(f) {
        assert FrameOk(f);
      }
      assert a.Ok() && b.Ok();
    }

    /** A loose reference is given back. */
    lemma DropLoose(g: nat)
      requires Ok() && g < |refs| && loose[g] > 0
      ensures g !in reserved && g !in tables && refs[g] > 0 && g in used
      ensures this.(used := if refs[g] == 1 then used - {g} else used, refs := refs[g := refs[g] - 1],
                     loose := loose - multiset{g}).Ok()
    {
      assert FrameOk(g);
      var l := this.(used := if refs[g] == 1 then used - {g} else used, refs := refs[g := refs[g] - 1],
                     loose := loose - multiset{g});
      forall f: nat | f < |refs| ensures l.FrameOk(f) {
        assert FrameOk(f);
      }
    }

    /** An entry goes away and its frame loses a reference. */
    lemma Drop(k: Node)
      requires Ok() && k in maps && maps[k].frame < |refs|
      ensures var f := maps[k].frame;
              && f !in reserved && f !in tables && refs[f] > 0 && f in used
              && this.(used := if refs[f] == 1 then used - {f} else used, refs := refs[f := refs[f] - 1],
                     maps := maps - {k}).Ok()
    {
      var g := maps[k].frame;
      assert FrameOk(g) && k in Users(maps, g);
      var l := this.(used := if refs[g] == 1 then used - {g} else used, refs := refs[g := refs[g] - 1],
                     maps := maps - {k});
      forall f: nat | f < |refs| ensures l.FrameOk(f) {
        assert FrameOk(f);
        assert Users(l.maps, f) == Users(maps, f) - {k};
        assert f != g ==> Users(maps, f) - {k} == Users(maps, f);
      }
      assert l.Ok();
    }

    /** A table frame is given back. */
    lemma FreeTable(t: nat)
      requires Ok() && t in tables && t < |refs|
      ensures t in used && t !in reserved
      ensures this.(used := used - {t}, refs := refs[t := 0], tables := tables - {t}).Ok()
    {
      assert FrameOk(t);
      var l := this.(used := used - {t}, refs := refs[t := 0], tables := tables - {t});
      forall f: nat | f < |refs| ensures l.FrameOk(f) {
        assert FrameOk(f);
      }
    }
  }

  // ----- sharing -----

  /** Entries for one frame sit at the same virtual page of different address spaces, and a writable one is alone. */
  ghost predicate SharingOk(maps: Mappings, loose: multiset<nat>) {
    && (forall k :: k in maps ==> !(maps[k].flags.writable && maps[k].flags.cow))
    && (forall k, m :: k in maps && m in maps && maps[k].frame == maps[m].frame ==> k.path == m.path)
    && (forall k, m :: k in maps && m in maps && maps[k].flags.writable && maps[m].frame == maps[k].frame ==> m == k)
    && (forall k :: k in maps && maps[k].flags.writable ==> loose[maps[k].frame] == 0)
  }

  ghost predicate ReadsAs(mem: Memory, maps: Mappings, spec: PageMap) {
    && maps.Keys == spec.Keys
    && forall k :: k in maps ==> maps[k].frame < |mem| && spec[k] == Mapped(mem[maps[k].frame], Apparent(maps[k].flags))
  }

  /** A frame never has more users than there are address spaces, and fewer if some address space does not use it. */
  lemma {:induction false} UsersBounded(us: set<Node>, roots: set<Node>, r: Node)
    requires forall k, m :: k in us && m in us ==> k.path == m.path
    requires forall k :: k in us ==> Node(k.root, []) in roots
    requires r in roots && r.path == []
    ensures |us| <= |roots|
    ensures (forall k :: k in us ==> k.root != r.root) ==> |us| < |roots|
  {
    var rs := set k | k in us :: Node(k.root, []);
    SameSize(us, rs);
    SubsetSize(rs, roots);
    if forall k :: k in us ==> k.root != r.root {
      assert r !in rs;
      SubsetSize(rs + {r}, roots);
    }
  }

  lemma {:induction false} RootOf(mem: Memory, tab: Tables, maps: Mappings, n: Node)
    requires Shape(mem, tab, maps) && n in tab
    ensures Node(n.root, []) in tab
    decreases |n.path|
  {
    if n.path != [] {
      RootOf(mem, tab, maps, n.Parent());
    }
  }

  lemma {:induction false} SubsetSize<T>(a: set<T>, b: set<T>)
    requires a <= b
    ensures |a| <= |b|
    decreases a
  {
    if a != {} {
      var x :| x in a;
      SubsetSize(a - {x}, b - {x});
    }
  }

  /** Pages at one path in different address spaces are told apart by their roots. */
  lemma {:induction false} SameSize(us: set<Node>, rs: set<Node>)
    requires forall k, m :: k in us && m in us ==> k.path == m.path
    requires rs == set k | k in us :: Node(k.root, [])
    ensures |us| == |rs|
    decreases us
  {
    if us == {} {
      assert rs == {};
    } else {
      var x :| x in us;
      var us' := us - {x};
      var rs' := set k | k in us' :: Node(k.root, []);
      SameSize(us', rs');
      assert Node(x.root, []) !in rs';
      assert rs == rs' + {Node(x.root, [])};
    }
  }

  // ----- growing the tables -----

  /** Between two states only new tables of the address space `r` appeared, in frames that were free before. */
  ghost predicate Grew(r: nat, l: Ledger, mem: Memory, tab: Tables, l': Ledger, mem': Memory, tab': Tables) {
    && |mem'| == |mem| && l' == l.(used := l'.used, refs := l'.refs, tables := l'.tables)
    && tab.Keys <= tab'.Keys && (forall n :: n in tab ==> tab'[n] == tab[n])
    && (forall n :: n in tab' && n !in tab ==> n.root == r && n.path != [])
    && Roots(tab') == Roots(tab)
    && l.used <= l'.used && l'.used - l'.tables == l.used - l.tables
    && (forall f: nat :: f < |mem| && f in l.used && f !in tab.Values ==> mem'[f] == mem[f] && f !in tab'.Values)
  }

  /** The new tables lie on the way to the page. */
  ghost predicate OnWay(tab: Tables, tab': Tables, k: Node) {
    forall n :: n in tab' && n !in tab ==> n.path <= k.path
  }

  /** A table on the way to the page is missing. */
  ghost predicate WayBroken(tab: Tables, k: Node) {
    exists d :: 1 <= d <= 3 && d <= |k.path| && Node(k.root, k.path[..d]) !in tab
  }

  lemma OnWayOne(tab: Tables, c: Node, f: nat)
    ensures OnWay(tab, tab, c) && OnWay(tab, tab[c := f], c)
  {
  }

  /** First a table at `c` above the page, then tables further down. */
  lemma OnWayTrans(tab: Tables, tab1: Tables, tab2: Tables, c: Node, k: Node)
    requires OnWay(tab, tab1, c) && c.path <= k.path && OnWay(tab1, tab2, k)
    ensures OnWay(tab, tab2, k)
  {
  }

  lemma WayBreaks(tab: Tables, k: Node, d: nat)
    requires 1 <= d <= 3 && d <= |k.path| && Node(k.root, k.path[..d]) !in tab
    ensures WayBroken(tab, k)
  {
  }

  lemma EmptyEntry(l: Ledger, mem: Memory, tab: Tables, n: Node, i: nat)
    requires Consistent(l, mem, tab) && n in tab && |n.path| < 3 && n.Has(i) && tab[n] < |mem|
      && !mem[tab[n]][i].flags.present
    ensures n.Child(i) !in tab
  {
    assert EntryOk(mem, tab, l.maps, n, i);
  }

  /** Only the child's tables changed. */
  ghost predicate ChildGrew(tab: Tables, tab': Tables, child: nat) {
    && Roots(tab') == Roots(tab)
    && forall n: Node :: n.root != child ==> (n in tab' <==> n in tab) && (n in tab && n in tab' ==> tab'[n] == tab[n])
  }

  lemma ChildGrewTrans(tab: Tables, tab1: Tables, tab2: Tables, child: nat)
    requires ChildGrew(tab, tab1, child) && ChildGrew(tab1, tab2, child)
    ensures ChildGrew(tab, tab2, child)
  {
  }

  lemma ChildGrewKeeps(tab: Tables, tab': Tables, child: nat, n: Node)
    requires ChildGrew(tab, tab', child) && n in tab && n.root != child && Node(child, []) in tab
    ensures n in tab' && tab'[n] == tab[n] && Roots(tab') == Roots(tab) && Node(child, []) in tab'
  {
    assert Node(child, []) in Roots(tab);
  }

  lemma GrewTrans(r: nat, l: Ledger, mem: Memory, tab: Tables, l1: Ledger, mem1: Memory, tab1: Tables, l2: Ledger,
                  mem2: Memory, tab2: Tables)
    requires Grew(r, l, mem, tab, l1, mem1, tab1) && Grew(r, l1, mem1, tab1, l2, mem2, tab2)
    ensures Grew(r, l, mem, tab, l2, mem2, tab2)
  {
  }

  lemma GrewLeaf(r: nat, l: Ledger, mem: Memory, tab: Tables, l': Ledger, mem': Memory, tab': Tables, t: nat, p: Page)
    requires Grew(r, l, mem, tab, l', mem', tab') && t in tab'.Values && t < |mem'|
    ensures Grew(r, l, mem, tab, l', mem'[t := p], tab')
  {
  }

  /** The tables in memory are trees and the books are right. */
  ghost predicate Consistent(l: Ledger, mem: Memory, tab: Tables) {
    && |mem| == |l.refs| && l.tables == tab.Values && Tree(mem, tab, l.maps) && l.Ok()
    && forall k :: k in l.maps ==> l.maps[k].frame < |mem|
  }

  /** A mapped frame is in use, holds no table and has as many references as its users and loose references. */
  lemma DataFrame(l: Ledger, mem: Memory, tab: Tables, k: Node)
    requires Consistent(l, mem, tab) && k in l.maps
    ensures var f := l.maps[k].frame;
            f < |mem| == |l.refs| && f in l.used && f !in l.tables && f !in l.reserved
            && l.refs[f] == |Users(l.maps, f)| + l.loose[f] && k in Users(l.maps, f)
  {
    assert l.FrameOk(l.maps[k].frame);
    assert k in Users(l.maps, l.maps[k].frame);
  }

  /** New tables do not disturb what any page holds. */
  lemma GrewReads(r: nat, l: Ledger, mem: Memory, tab: Tables, l': Ledger, mem': Memory, tab': Tables, spec: PageMap)
    requires Consistent(l, mem, tab) && Grew(r, l, mem, tab, l', mem', tab') && ReadsAs(mem, l.maps, spec)
    ensures ReadsAs(mem', l.maps, spec)
  {
    forall k | k in l.maps ensures mem'[l.maps[k].frame] == mem[l.maps[k].frame] {
      DataFrame(l, mem, tab, k);
    }
  }

  /** An empty leaf entry is set to map a frame that has a loose reference. */
  lemma PlaceEntry(l: Ledger, mem: Memory, tab: Tables, n: Node, i: nat, w: Word)
    requires Consistent(l, mem, tab)
    requires n in tab && |n.path| == 3 && i < 512 && n.Child(i) !in l.maps
    requires w.flags.present && w.frame < |mem| && l.loose[w.frame] > 0
    ensures Consistent(l.(maps := l.maps[n.Child(i) := w], loose := l.loose - multiset{w.frame}),
                       mem[tab[n] := mem[tab[n]][i := w]], tab)
  {
    l.Attach(n.Child(i), w);
    SetLeaf(mem, tab, l.maps, n, i, w);
  }

  /** A fresh frame with an empty user half becomes the top table of a new address space. */
  lemma PlaceRoot(l: Ledger, mem: Memory, tab: Tables, f: nat, p: Page, spec: PageMap)
    requires Consistent(l, mem, tab) && ReadsAs(mem, l.maps, spec)
    requires f < |mem| && f !in l.used
    requires forall i :: 0 <= i < 256 ==> !p[i].flags.present
    ensures var tab' := tab[Node(f, []) := f];
            var l' := l.(used := l.used + {f}, refs := l.refs[f := 1], tables := tab'.Values);
            Consistent(l', mem[f := p], tab') && Node(f, []) !in tab && ReadsAs(mem[f := p], l.maps, spec)
  {
    l.Fresh(f);
    forall k | k in l.maps ensures l.maps[k].frame != f {
      DataFrame(l, mem, tab, k);
    }
    DataWrite(mem, tab, l.maps, f, p);
    AddRoot(mem[f := p], tab, l.maps, f);
    ValuesPlus(tab, Node(f, []), f);
  }

  /** A fresh, cleared frame becomes the table below an empty entry. */
  lemma PlaceTable(l: Ledger, mem: Memory, tab: Tables, n: Node, i: nat, f: nat, l': Ledger, mem': Memory, tab': Tables)
    requires Consistent(l, mem, tab)
    requires n in tab && |n.path| < 3 && n.Has(i) && tab[n] < |mem| && !mem[tab[n]][i].flags.present
    requires f < |mem| && f !in l.used
    requires tab' == tab[n.Child(i) := f]
    requires var mem1 := mem[f := ZERO_PAGE]; mem' == mem1[tab[n] := mem1[tab[n]][i := Word(f, TABLE_FLAGS)]]
    requires l' == l.(used := l.used + {f}, refs := l.refs[f := 1], tables := tab'.Values)
    ensures Consistent(l', mem', tab') && Grew(n.root, l, mem, tab, l', mem', tab')
  {
    hide Tree, Ledger.Ok;
    var w := Word(f, TABLE_FLAGS);
    l.Fresh(f);
    DataWrite(mem, tab, l.maps, f, ZERO_PAGE);
    var mem1 := mem[f := ZERO_PAGE];
    assert tab[n] in tab.Values;
    AddTable(mem1, tab, l.maps, n, i, f, w);
    ValuesPlus(tab, n.Child(i), f);
  }

  lemma ValuesPlus(tab: Tables, c: Node, f: nat)
    requires c !in tab
    ensures tab[c := f].Values == tab.Values + {f}
  {
    forall v | v in tab.Values ensures v in tab[c := f].Values {
      var n :| n in tab && tab[n] == v;
      assert tab[c := f][n] == v;
    }
    assert tab[c := f][c] == f;
  }

  lemma GrewNot(r: nat, l: Ledger, mem: Memory, tab: Tables)
    ensures Grew(r, l, mem, tab, l, mem, tab)
  {
  }

  /** Everything the class below keeps true. */
  ghost predicate Good(l: Ledger, mem: Memory, tab: Tables, spec: PageMap) {
    Consistent(l, mem, tab) && SharingOk(l.maps, l.loose) && ReadsAs(mem, l.maps, spec)
  }

  /** New tables do not disturb anything a process sees. */
  lemma GrewGood(r: nat, l: Ledger, mem: Memory, tab: Tables, l': Ledger, mem': Memory, tab': Tables, spec: PageMap)
    requires Good(l, mem, tab, spec) && Grew(r, l, mem, tab, l', mem', tab') && Consistent(l', mem', tab')
    ensures Good(l', mem', tab', spec)
  {
    GrewReads(r, l, mem, tab, l', mem', tab', spec);
    hide Consistent, SharingOk, ReadsAs;
  }

  lemma GrewChild(r: nat, l: Ledger, mem: Memory, tab: Tables, l': Ledger, mem': Memory, tab': Tables)
    requires Grew(r, l, mem, tab, l', mem', tab')
    ensures ChildGrew(tab, tab', r) && |mem'| == |mem|
  {
  }

  /** Widening an entry that leads to a table is no change but for that table's frame. */
  lemma WidenedGrew(l: Ledger, mem: Memory, tab: Tables, n: Node, i: nat, w: Word)
    requires Consistent(l, mem, tab) && n in tab && |n.path| < 3 && n.Has(i) && tab[n] < |mem|
    requires mem[tab[n]][i].flags.present
      && w == Word(mem[tab[n]][i].frame, mem[tab[n]][i].flags.(user := true, writable := true))
    ensures Consistent(l, mem[tab[n] := mem[tab[n]][i := w]], tab)
      && Grew(n.root, l, mem, tab, l, mem[tab[n] := mem[tab[n]][i := w]], tab)
    ensures n.Child(i) in tab && tab[n.Child(i)] == w.frame
  {
    hide Ledger.Ok;
    assert EntryOk(mem, tab, l.maps, n, i);
    TouchEntry(mem, tab, l.maps, n, i, w);
    hide Tree;
    assert tab[n] in tab.Values;
  }

  /** Only page frame 0 is never a table. */
  lemma TableNotZero(l: Ledger, mem: Memory, tab: Tables, c: Node)
    requires Consistent(l, mem, tab) && c in tab && 0 in l.reserved && 0 < |mem|
    ensures tab[c] != 0
  {
    assert tab[c] in l.tables;
    assert l.FrameOk(0);
  }

  /** A leaf entry keeps its frame and changes its flags without its owner noticing. */
  lemma ReflagEntry(l: Ledger, mem: Memory, tab: Tables, spec: PageMap, k: Node, t: nat, i: nat, w: Word)
    requires Good(l, mem, tab, spec) && Locates(mem, tab, l.maps, k, t, i) && w.frame == l.maps[k].frame
      && w.flags.present
    requires Apparent(w.flags) == Apparent(l.maps[k].flags) && !(w.flags.writable && w.flags.cow)
    requires w.flags.writable && w.frame < |l.refs| ==> l.refs[w.frame] == 1
    ensures Good(l.(maps := l.maps[k := w]), mem[t := mem[t][i := w]], tab, spec)
    ensures Locates(mem[t := mem[t][i := w]], tab, l.maps[k := w], k, t, i)
  {
    hide Tree, Ledger.Ok, SharingOk, ReadsAs;
    ReflagTree(l, mem, tab, k, t, i, w);
    ReflagSharing(l, mem, tab, k, w);
    ReflagReads(l, mem, tab, spec, k, t, w, mem[t][i := w]);
  }

  lemma ReflagTree(l: Ledger, mem: Memory, tab: Tables, k: Node, t: nat, i: nat, w: Word)
    requires Consistent(l, mem, tab) && Locates(mem, tab, l.maps, k, t, i) && w.frame == l.maps[k].frame
      && w.flags.present
    ensures Consistent(l.(maps := l.maps[k := w]), mem[t := mem[t][i := w]], tab)
  {
    hide Tree, Ledger.Ok;
    ParentChild(k);
    l.SetFlags(k, w);
    SetLeaf(mem, tab, l.maps, k.Parent(), k.Last(), w);
  }

  lemma ReflagSharing(l: Ledger, mem: Memory, tab: Tables, k: Node, w: Word)
    requires Consistent(l, mem, tab) && SharingOk(l.maps, l.loose) && k in l.maps && w.frame == l.maps[k].frame
    requires !(w.flags.writable && w.flags.cow) && (w.flags.writable ==> l.refs[w.frame] == 1)
    ensures SharingOk(l.maps[k := w], l.loose)
  {
    hide SharingOk;
    DataFrame(l, mem, tab, k);
    hide Consistent;
    if w.flags.writable {
      SoleUser(l.maps, w.frame, k);
    }
    SharingReflag(l.maps, l.loose, k, w);
  }

  lemma SharingReflag(maps: Mappings, loose: multiset<nat>, k: Node, w: Word)
    requires SharingOk(maps, loose) && k in maps && w.frame == maps[k].frame
    requires !(w.flags.writable && w.flags.cow)
    requires w.flags.writable ==> loose[w.frame] == 0 && forall m :: m in maps && maps[m].frame == w.frame ==> m == k
    ensures SharingOk(maps[k := w], loose)
  {
  }

  lemma ReflagReads(l: Ledger, mem: Memory, tab: Tables, spec: PageMap, k: Node, t: nat, w: Word, p: Page)
    requires Consistent(l, mem, tab) && ReadsAs(mem, l.maps, spec) && k in l.maps && w.frame == l.maps[k].frame
    requires Apparent(w.flags) == Apparent(l.maps[k].flags) && t in l.tables && t < |mem|
    ensures ReadsAs(mem[t := p], l.maps[k := w], spec)
  {
    hide Consistent;
    forall m | m in l.maps ensures l.maps[m].frame != t {
      DataFrame(l, mem, tab, m);
    }
  }

  lemma SoleUser(maps: Mappings, f: nat, k: Node)
    requires k in Users(maps, f) && |Users(maps, f)| <= 1
    ensures forall m :: m in maps && maps[m].frame == f ==> m == k
  {
    forall m | m in maps && maps[m].frame == f ensures m == k {
      if m != k {
        SubsetSize({m, k}, Users(maps, f));
      }
    }
  }

  /** pmm_page_ref on a frame nobody may write. */
  lemma HoldFrame(l: Ledger, mem: Memory, tab: Tables, spec: PageMap, k: Node)
    requires Good(l, mem, tab, spec) && k in l.maps && !l.maps[k].flags.writable
    ensures var f := l.maps[k].frame;
        Good(l.(refs := l.refs[f := l.refs[f] + 1], loose := l.loose + multiset{f}), mem, tab, spec)
  {
    hide Tree, ReadsAs;
    DataFrame(l, mem, tab, k);
    l.Hold(l.maps[k].frame);
    hide Ledger.Ok;
    SharingHold(l.maps, l.loose, k);
    hide SharingOk;
  }

  lemma SharingHold(maps: Mappings, loose: multiset<nat>, k: Node)
    requires SharingOk(maps, loose) && k in maps && !maps[k].flags.writable
    ensures SharingOk(maps, loose + multiset{maps[k].frame})
  {
  }

  lemma SharingAdd(maps: Mappings, loose: multiset<nat>, k: Node, c: Node)
    requires SharingOk(maps, loose) && k in maps && c !in maps && c.path == k.path
    requires !maps[k].flags.writable && loose[maps[k].frame] > 0
    ensures SharingOk(maps[c := maps[k]], loose - multiset{maps[k].frame})
  {
  }

  /** A second address space maps, at the same place, a frame held for it. */
  lemma SharedEntry(l: Ledger, mem: Memory, tab: Tables, spec: PageMap, k: Node, c: Node, l': Ledger, mem': Memory,
                    tab': Tables)
    requires Good(l, mem, tab, spec) && k in l.maps && c !in l.maps && c.path == k.path
    requires !l.maps[k].flags.writable && l.loose[l.maps[k].frame] > 0
    requires Grew(c.root, l, mem, tab, l'.(maps := l.maps, loose := l.loose), mem', tab') && Consistent(l', mem', tab')
    requires l'.maps == l.maps[c := l.maps[k]] && l'.loose == l.loose - multiset{l.maps[k].frame}
    ensures Good(l', mem', tab', spec[c := spec[k]])
  {
    hide Consistent;
    GrewReads(c.root, l, mem, tab, l'.(maps := l.maps, loose := l.loose), mem', tab', spec);
    hide Grew;
    SharingAdd(l.maps, l.loose, k, c);
    hide SharingOk;
  }

  // ----- what fork does to the memory a process sees -----

  predicate Before(n: Node, i: nat, path: seq<nat>) { n.path < path && path[|n.path|] < i }

  ghost predicate NoneBelow(s: PageMap, root: nat, path: seq<nat>) {
    forall q: Node :: q in s && q.root == root ==> !(path <= q.path)
  }

  ghost predicate OthersSame(s: PageMap, s': PageMap, root: nat) {
    forall q: Node :: q.root != root ==> (q in s' <==> q in s) && (q in s && q in s' ==> s'[q] == s[q])
  }

  /** The child has its own copy of each of the parent's pages below `n` with an index less than `i`. */
  ghost predicate Copied(s: PageMap, s': PageMap, n: Node, i: nat, child: nat) {
    && (forall q: Node :: q in s ==> q in s' && s'[q] == s[q])
    && (forall q: Node :: q in s' && q !in s ==> q.root == child && Before(n, i, q.path))
    && (forall q: Node :: q.root == child && Before(n, i, q.path) ==> (q in s' <==> Node(n.root, q.path) in s))
    && (forall q: Node :: q.root == child && Before(n, i, q.path) && q in s' && Node(n.root, q.path) in s ==>
          s'[q] == s[Node(n.root, q.path)])
  }

  ghost predicate Pages(s: PageMap) { forall q: Node :: q in s ==> q.Page?() }

  lemma PagesOf(l: Ledger, mem: Memory, tab: Tables, spec: PageMap)
    requires Good(l, mem, tab, spec)
    ensures Pages(spec)
  {
  }

  lemma PrefixStep(p: seq<nat>, i: nat)
    ensures forall q: seq<nat> :: p + [i] <= q ==> p < q && q[|p|] == i
  {
    forall q: seq<nat> | p + [i] <= q ensures p < q && q[|p|] == i {
      assert q[..|p|] == (p + [i])[..|p|];
    }
  }

  lemma ChildFree(s: PageMap, s': PageMap, n: Node, i: nat, child: nat)
    requires Copied(s, s', n, i, child) && NoneBelow(s, child, n.path)
    ensures NoneBelow(s', child, n.path + [i])
  {
    PrefixStep(n.path, i);
  }

  lemma CopiedSkip(s: PageMap, s': PageMap, n: Node, i: nat, child: nat)
    requires Copied(s, s', n, i, child) && NoneBelow(s, child, n.path) && NoneBelow(s', n.root, n.path + [i])
    ensures Copied(s, s', n, i + 1, child)
  {
    ChildFree(s, s', n, i, child);
    forall q: Node | q.root == child && Before(n, i + 1, q.path) && !Before(n, i, q.path)
      ensures q !in s' && Node(n.root, q.path) !in s
    {
      assert n.path + [i] <= q.path;
    }
  }

  lemma CopiedPage(s: PageMap, s': PageMap, n: Node, i: nat, child: nat)
    requires Copied(s, s', n, i, child) && NoneBelow(s, child, n.path) && child != n.root
    requires Pages(s) && Pages(s') && |n.path| == 3 && n.Child(i) in s'
    ensures Copied(s, s'[Node(child, n.path + [i]) := s'[n.Child(i)]], n, i + 1, child)
  {
    var c := Node(child, n.path + [i]);
    ChildFree(s, s', n, i, child);
    assert c !in s';
    assert n.Child(i) in s;
    forall q: Node | q.root == child && Before(n, i + 1, q.path) && !Before(n, i, q.path) && q != c
      ensures q !in s' && Node(n.root, q.path) !in s
    {
      assert n.path + [i] <= q.path;
      assert |q.path| == 4 && q.path != n.path + [i] ==> !(n.path + [i] <= q.path);
    }
    assert Before(n, i + 1, c.path);
  }

  lemma CopiedBelow(s: PageMap, s1: PageMap, s2: PageMap, n: Node, i: nat, child: nat)
    requires Copied(s, s1, n, i, child) && NoneBelow(s, child, n.path) && child != n.root && |n.path| < 3
    requires Copied(s1, s2, n.Child(i), 512, child) && Pages(s) && Pages(s1) && Pages(s2)
    ensures Copied(s, s2, n, i + 1, child)
  {
    var c := n.Child(i);
    ChildFree(s, s1, n, i, child);
    forall q: Node | q.Page?() ensures Before(c, 512, q.path) <==> (Before(n, i + 1, q.path) && !Before(n, i, q.path)) {
      if Before(n, i + 1, q.path) && !Before(n, i, q.path) {
        assert n.path + [i] <= q.path;
      }
      if Before(c, 512, q.path) {
        assert q.path[..|n.path|] == n.path && q.path[|n.path|] == i;
      }
    }
    CopiedBelowAt(s, s1, s2, n, i, child);
  }

  lemma CopiedBelowAt(s: PageMap, s1: PageMap, s2: PageMap, n: Node, i: nat, child: nat)
    requires Copied(s, s1, n, i, child) && NoneBelow(s, child, n.path) && child != n.root
    requires Copied(s1, s2, n.Child(i), 512, child) && Pages(s) && Pages(s1) && Pages(s2)
    requires forall q: Node :: q.Page?() ==>
      (Before(n.Child(i), 512, q.path) <==> (Before(n, i + 1, q.path) && !Before(n, i, q.path)))
    ensures Copied(s, s2, n, i + 1, child)
  {
    var c := n.Child(i);
    forall q: Node | q.root == child && Before(n, i + 1, q.path)
      ensures q in s2 <==> Node(n.root, q.path) in s
      ensures q in s2 && Node(n.root, q.path) in s ==> s2[q] == s[Node(n.root, q.path)]
    {
      var p := Node(n.root, q.path);
      assert p in s1 <==> p in s;
      if q.Page?() {
        if Before(n, i, q.path) {
          assert !Before(c, 512, q.path);
        }
      } else {
        assert !p.Page?();
      }
    }
  }

  lemma CopiedAll(s: PageMap, s': PageMap, n: Node, child: nat)
    requires Copied(s, s', n, if n.path == [] then 256 else 512, child) && Pages(s) && Pages(s')
    ensures Copied(s, s', n, 512, child)
  {
    if n.path == [] {
      forall q: Node | q.Page?() && Before(n, 512, q.path) ensures Before(n, 256, q.path) {
      }
      forall q: Node | q.root == child && Before(n, 512, q.path) && !q.Page?()
        ensures q !in s' && Node(n.root, q.path) !in s {
        assert !Node(n.root, q.path).Page?();
      }
    }
  }

  /** The walk comes to `p` before it comes to `q`. */
  predicate Sooner(p: seq<nat>, q: seq<nat>) {
    exists d: nat :: d < |p| && d < |q| && p[..d] == q[..d] && p[d] < q[d]
  }

  /** The walk below `n` stopped at page `k`: the child has the pages before it and no more. */
  ghost predicate HalfCopied(s: PageMap, s': PageMap, n: Node, k: Node, child: nat) {
    && k in s && k.root == n.root && n.path < k.path
    && (forall q: Node :: q in s ==> q in s' && s'[q] == s[q])
    && (forall q: Node :: q in s' && q !in s ==> q.root == child)
    && forall q: Node :: q.root == child && q !in s ==>
         (q in s' <==> n.path < q.path && Node(n.root, q.path) in s && Sooner(q.path, k.path))
  }

  lemma SoonerBefore(n: Node, i: nat, p: seq<nat>, q: seq<nat>)
    requires n.path + [i] <= q && n.path < p
    ensures Before(n, i, p) ==> Sooner(p, q)
    ensures Sooner(p, q) ==> Before(n, i, p) || n.path + [i] < p || (n.path + [i] == p && |p| < |q|)
  {
    PrefixStep(n.path, i);
    var e := |n.path|;
    assert q[..e] == n.path && q[e] == i && p[..e] == n.path;
    if Sooner(p, q) {
      var d: nat :| d < |p| && d < |q| && p[..d] == q[..d] && p[d] < q[d];
      if d > e {
        assert p[e] == p[..d][e] == q[..d][e] == i;
        assert n.path + [i] == p[..e + 1];
      }
    }
  }

  /** The walk stopped below one of the entries of `n`. */
  lemma HalfBelow(s: PageMap, s1: PageMap, s2: PageMap, n: Node, i: nat, k: Node, child: nat)
    requires Copied(s, s1, n, i, child) && HalfCopied(s1, s2, n.Child(i), k, child) && NoneBelow(s, child, n.path)
    requires child != n.root && Pages(s1) && |n.path| < 3
    ensures HalfCopied(s, s2, n, k, child)
  {
    PrefixStep(n.path, i);
    assert k in s;
    forall q: Node | q.root == child && q !in s
      ensures q in s2 <==> n.path < q.path && Node(n.root, q.path) in s && Sooner(q.path, k.path)
    {
      var p := Node(n.root, q.path);
      assert p in s1 <==> p in s;
      if n.path < q.path {
        SoonerBefore(n, i, q.path, k.path);
      }
      if p in s {
        assert |q.path| == 4;
      }
    }
  }

  /** It stopped at one of the pages of `n` itself. */
  lemma HalfHere(s: PageMap, s1: PageMap, n: Node, i: nat, child: nat)
    requires Copied(s, s1, n, i, child) && NoneBelow(s, child, n.path) && child != n.root
    requires Pages(s1) && |n.path| == 3 && n.Child(i) in s1
    ensures HalfCopied(s, s1, n, n.Child(i), child)
  {
    var k := n.Child(i);
    PrefixStep(n.path, i);
    assert k in s;
    forall q: Node | q.root == child && q !in s
      ensures q in s1 <==> n.path < q.path && Node(n.root, q.path) in s && Sooner(q.path, k.path)
    {
      var p := Node(n.root, q.path);
      assert p in s1 <==> p in s;
      if n.path < q.path {
        SoonerBefore(n, i, q.path, k.path);
      }
      if p in s {
        assert |q.path| == 4;
      }
    }
  }

  lemma HalfOthers(s: PageMap, s': PageMap, n: Node, k: Node, child: nat)
    requires HalfCopied(s, s', n, k, child)
    ensures OthersSame(s, s', child) && k in s && s.Keys <= s'.Keys
  {
  }

  lemma CopiedKeys(s: PageMap, s': PageMap, n: Node, i: nat, child: nat)
    requires Copied(s, s', n, i, child)
    ensures s.Keys <= s'.Keys
  {
  }

  // ----- what fork does to the frames -----

  /** Every page keeps its frame, and a new page of the child has that of the parent's page. */
  ghost predicate Shares(maps: Mappings, maps': Mappings, parent: nat, child: nat) {
    && (forall q :: q in maps ==> q in maps' && maps'[q].frame == maps[q].frame)
    && forall q :: q in maps' && q !in maps ==>
         q.root == child && Node(parent, q.path) in maps && maps'[q].frame == maps[Node(parent, q.path)].frame
  }

  lemma SharesRefl(maps: Mappings, parent: nat, child: nat)
    ensures Shares(maps, maps, parent, child)
  {
  }

  lemma SharesTrans(maps: Mappings, maps1: Mappings, maps2: Mappings, parent: nat, child: nat)
    requires Shares(maps, maps1, parent, child) && Shares(maps1, maps2, parent, child) && parent != child
    ensures Shares(maps, maps2, parent, child)
  {
  }

  lemma SharesAt(maps: Mappings, maps': Mappings, parent: nat, child: nat, k: Node)
    requires Shares(maps, maps', parent, child) && k in maps
    ensures k in maps' && maps'[k].frame == maps[k].frame
  {
  }

  lemma SharesFlags(maps: Mappings, k: Node, w: Word, parent: nat, child: nat)
    requires k in maps && w.frame == maps[k].frame
    ensures Shares(maps, maps[k := w], parent, child)
  {
  }

  lemma SharesPage(maps: Mappings, k: Node, c: Node, w: Word)
    requires k in maps && c !in maps && c.path == k.path && w.frame == maps[k].frame
    ensures Shares(maps, maps[c := w], k.root, c.root)
  {
    assert Node(k.root, c.path) == k;
  }

  /** Every new table is the child's, on the way to a page it has or to the page at `p`. */
  ghost predicate Wanted(tab: Tables, tab': Tables, s: PageMap, child: nat, p: seq<nat>) {
    forall n :: n in tab' && n !in tab ==> n.root == child && n.path != [] && (n.path <= p || OnStem(s, n))
  }

  ghost predicate OnStem(s: PageMap, n: Node) { exists q :: q in s && q.root == n.root && n.path <= q.path }

  lemma WantedTrans(tab: Tables, tab1: Tables, tab2: Tables, s1: PageMap, s2: PageMap, child: nat, p: seq<nat>)
    requires Wanted(tab, tab1, s1, child, []) && Wanted(tab1, tab2, s2, child, p) && s1.Keys <= s2.Keys
    ensures Wanted(tab, tab2, s2, child, p)
  {
    forall n | n in tab2 && n !in tab ensures n.root == child && n.path != [] && (n.path <= p || OnStem(s2, n)) {
      if n in tab1 {
        var q :| q in s1 && q.root == n.root && n.path <= q.path;
        assert q in s2;
      }
    }
  }

  /** Tables made while mapping page `c`. */
  lemma WantedWay(l: Ledger, mem: Memory, tab: Tables, l': Ledger, mem': Memory, tab': Tables, s: PageMap, c: Node,
                  p: seq<nat>)
    requires Grew(c.root, l, mem, tab, l', mem', tab') && OnWay(tab, tab', c) && (c in s || c.path == p)
    ensures Wanted(tab, tab', s, c.root, p)
  {
    forall n | n in tab' && n !in tab ensures n.path <= p || OnStem(s, n) {
      if c in s {
        assert OnStem(s, n);
      }
    }
  }

  lemma ProperNode(l: Ledger, mem: Memory, tab: Tables, n: Node)
    requires Consistent(l, mem, tab) && n in tab
    ensures n.Proper() && |n.path| <= 3 && tab[n] < |mem| && (n.path == [] ==> tab[n] == n.root)
  {
  }

  /** An empty entry has no pages below it. */
  lemma SkipEntry(l: Ledger, mem: Memory, tab: Tables, spec: PageMap, n: Node, i: nat)
    requires Good(l, mem, tab, spec) && n in tab && n.Has(i) && tab[n] < |mem|
    requires !mem[tab[n]][i].flags.present || (1 <= |n.path| <= 2 && mem[tab[n]][i].flags.huge)
    ensures NoneBelow(spec, n.root, n.path + [i])
  {
    assert EntryOk(mem, tab, l.maps, n, i);
    var c := n.Child(i);
    forall q: Node | q in spec && q.root == n.root ensures !(c.path <= q.path) {
      if |n.path| == 3 {
        assert c.path <= q.path && |q.path| == 4 ==> q.path == c.path;
      } else if c.path <= q.path {
        NothingBelow(mem, tab, l.maps, c, q);
      }
    }
  }

  /** A present entry leads to the table, or is the page, that belongs there. */
  lemma EnterEntry(l: Ledger, mem: Memory, tab: Tables, n: Node, i: nat)
    requires Consistent(l, mem, tab) && n in tab && n.Has(i) && tab[n] < |mem| && mem[tab[n]][i].flags.present
    ensures |n.path| < 3 ==> n.Child(i) in tab && tab[n.Child(i)] == mem[tab[n]][i].frame
    ensures |n.path| == 3 ==> Locates(mem, tab, l.maps, n.Child(i), tab[n], i)
  {
    assert EntryOk(mem, tab, l.maps, n, i);
    ChildParent(n, i);
    ProperChild(n, i);
  }

  /** The eager fork: the child has a copy of every page of the parent, and everybody else is untouched. */
  ghost predicate Forked(s: PageMap, s': PageMap, parent: nat, child: nat) {
    && (forall q: Node :: q in s' <==> q in s || (q.root == child && Node(parent, q.path) in s))
    && (forall q: Node :: q in s && q in s' ==> s'[q] == s[q])
    && (forall q: Node :: q in s' && q.root == child && Node(parent, q.path) in s ==> s'[q] == s[Node(parent, q.path)])
  }

  lemma CopiedIsForked(s: PageMap, s': PageMap, parent: nat, child: nat)
    requires Copied(s, s', Node(parent, []), 512, child) && Pages(s) && Pages(s') && NoneBelow(s, child, [])
    ensures Forked(s, s', parent, child)
  {
    var n := Node(parent, []);
    forall q: Node | q.Page?() ensures Before(n, 512, q.path) {
    }
    forall q: Node | !q.Page?() ensures q !in s && q !in s' {
    }
    forall q: Node | q.root == child && !q.Page?() ensures Node(parent, q.path) !in s {
      assert !Node(parent, q.path).Page?();
    }
  }

  // ----- what fork costs -----

  /** The tables below the top one that the pages of an address space need. */
  ghost function Stems(s: PageMap, root: nat): set<seq<nat>> {
    set q, d | q in s && q.root == root && 1 <= d <= 3 && d <= |q.path| :: q.path[..d]
  }

  /** Since `tab`, frames were taken for tables only, and each new table is one of the child's on a stem. */
  ghost predicate Budget(tab: Tables, used: set<nat>, tab': Tables, used': set<nat>, child: nat, stems: set<seq<nat>>) {
    && used' - tab'.Values == used - tab.Values && used <= used'
    && tab.Keys <= tab'.Keys && (forall n :: n in tab ==> tab'[n] == tab[n])
    && forall n :: n in tab' && n !in tab ==> n.root == child && n.path in stems
  }

  /** The child lacks a table on a stem. */
  ghost predicate Lacks(tab: Tables, child: nat, stems: set<seq<nat>>) {
    exists p :: p in stems && Node(child, p) !in tab
  }

  lemma BudgetTrans(tab: Tables, used: set<nat>, tab1: Tables, used1: set<nat>, tab2: Tables, used2: set<nat>,
                    child: nat, stems: set<seq<nat>>)
    requires Budget(tab, used, tab1, used1, child, stems) && Budget(tab1, used1, tab2, used2, child, stems)
    ensures Budget(tab, used, tab2, used2, child, stems)
  {
  }

  /** Mapping a copy of page `k` takes tables on stems of its owner. */
  lemma WayBudget(l: Ledger, mem: Memory, tab: Tables, l': Ledger, mem': Memory, tab': Tables, s: PageMap, k: Node,
                  c: Node)
    requires Grew(c.root, l, mem, tab, l', mem', tab') && l.tables == tab.Values && l'.tables == tab'.Values
      && OnWay(tab, tab', c)
    requires k in s && c.path == k.path && |k.path| == 4 && forall n :: n in tab' ==> |n.path| <= 3
    ensures Budget(tab, l.used, tab', l'.used, c.root, Stems(s, k.root))
    ensures WayBroken(tab', c) ==> Lacks(tab', c.root, Stems(s, k.root))
  {
    forall n | n in tab' && n !in tab ensures n.path in Stems(s, k.root) {
      assert n.path == k.path[..|n.path|];
    }
    if WayBroken(tab', c) {
      var d :| 1 <= d <= 3 && d <= |c.path| && Node(c.root, c.path[..d]) !in tab';
      assert k.path[..d] in Stems(s, k.root);
    }
  }

  lemma ShortTables(l: Ledger, mem: Memory, tab: Tables)
    requires Consistent(l, mem, tab)
    ensures forall n :: n in tab ==> |n.path| <= 3
  {
  }

  /** Copying pages to the child leaves the parent's stems as they are. */
  lemma StemsKept(s: PageMap, s': PageMap, n: Node, i: nat, child: nat)
    requires Copied(s, s', n, i, child) && child != n.root
    ensures Stems(s', n.root) == Stems(s, n.root)
  {
    assert forall q: Node :: q.root == n.root ==> (q in s' <==> q in s);
  }

  lemma StemsLong(s: PageMap, root: nat)
    ensures forall p :: p in Stems(s, root) ==> p != []
  {
  }

  /** The child's stems are those of the parent, and it has them all. */
  lemma ChildStems(l: Ledger, mem: Memory, tab: Tables, s: PageMap, s': PageMap, parent: nat, child: nat)
    requires Good(l, mem, tab, s') && Forked(s, s', parent, child)
    ensures forall p :: p in Stems(s, parent) ==> Node(child, p) in tab
  {
    forall p | p in Stems(s, parent) ensures Node(child, p) in tab {
      var q, d :| q in s && q.root == parent && 1 <= d <= 3 && d <= |q.path| && p == q.path[..d];
      var c := Node(child, q.path);
      assert Node(parent, c.path) == q;
      assert c.path[..d] in Stems(s', child);
      StemsAreTables(l, mem, tab, s', child, p);
    }
  }

  /** A new address space has its top table only. */
  lemma NewChild(l: Ledger, mem: Memory, tab: Tables, child: nat)
    requires Consistent(l, mem, tab) && Node(child, []) !in tab
    ensures forall n :: n in tab ==> n.root != child
  {
    forall n | n in tab ensures n.root != child {
      RootOf(mem, tab, l.maps, n);
    }
  }

  lemma ChildRoots(tab: Tables, tab': Tables, child: nat)
    requires ChildGrew(tab, tab', child)
    ensures Roots(tab') == Roots(tab)
  {
  }

  /** Every stem of an address space is a table of it. */
  lemma StemsAreTables(l: Ledger, mem: Memory, tab: Tables, s: PageMap, root: nat, p: seq<nat>)
    requires Good(l, mem, tab, s) && p in Stems(s, root)
    ensures Node(root, p) in tab
  {
    hide Ledger.Ok, SharingOk;
    var q, d :| q in s && q.root == root && 1 <= d <= 3 && d <= |q.path| && p == q.path[..d];
    if Node(root, p) !in tab {
      NothingBelow(mem, tab, l.maps, Node(root, p), q);
    }
  }

  lemma {:induction false} CountValues(tab: Tables)
    requires forall m, n :: m in tab && n in tab && m != n ==> tab[m] != tab[n]
    ensures |tab.Values| == |tab.Keys|
    decreases |tab|
  {
    if tab.Keys == {} {
      assert tab.Values == {};
    } else {
      var x :| x in tab;
      var rest := tab - {x};
      assert rest.Keys == tab.Keys - {x};
      CountValues(rest);
      forall v | v in tab.Values && v != tab[x] ensures v in rest.Values {
        var n :| n in tab && tab[n] == v;
        assert rest[n] == v;
      }
      assert tab[x] in tab.Values && tab[x] !in rest.Values;
      assert tab.Values == rest.Values + {tab[x]};
    }
  }

  lemma {:induction false} CountPaths(ns: set<Node>, ps: set<seq<nat>>, root: nat)
    requires forall n :: n in ns ==> n.root == root && n.path in ps
    requires forall p :: p in ps ==> Node(root, p) in ns
    ensures |ns| == |ps|
    decreases |ns|
  {
    if ns != {} {
      var x :| x in ns;
      CountPaths(ns - {x}, ps - {x.path}, root);
    } else {
      assert forall p :: p in ps ==> Node(root, p) in ns;
    }
  }

  /** The frames a fork has taken are one for the child's top table and one for each new table below it. */
  lemma FramesTaken(l: Ledger, mem: Memory, tab: Tables, l': Ledger, mem': Memory, tab': Tables, child: nat,
                    stems: set<seq<nat>>)
    requires Consistent(l, mem, tab) && Consistent(l', mem', tab') && Budget(tab, l.used, tab', l'.used, child, stems)
    requires forall n :: n in tab && n.root == child ==> n.path == []
    requires forall p :: p in stems ==> p != []
    ensures |l'.used| <= |l.used| + |stems|
    ensures Lacks(tab', child, stems) ==> |l'.used| < |l.used| + |stems|
    ensures (forall p :: p in stems ==> Node(child, p) in tab') ==> |l'.used| == |l.used| + |stems|
  {
    var got := set p | p in stems && Node(child, p) in tab';
    FramesForTables(l, mem, tab, l', mem', tab', child, stems);
    var more := set n | n in tab' && n !in tab;
    forall n | n in more ensures n.path in got {
      assert n == Node(child, n.path);
    }
    CountPaths(more, got, child);
    SubsetSize(got, stems);
    if Lacks(tab', child, stems) {
      var p :| p in stems && Node(child, p) !in tab';
      SubsetSize(got + {p}, stems);
    }
    if forall p :: p in stems ==> Node(child, p) in tab' {
      assert got == stems;
    }
  }

  lemma FramesForTables(l: Ledger, mem: Memory, tab: Tables, l': Ledger, mem': Memory, tab': Tables, child: nat,
                        stems: set<seq<nat>>)
    requires Consistent(l, mem, tab) && Consistent(l', mem', tab') && Budget(tab, l.used, tab', l'.used, child, stems)
    ensures |l'.used| == |l.used| + |set n | n in tab' && n !in tab|
  {
    TablesUsed(l, mem, tab);
    TablesUsed(l', mem', tab');
    hide Consistent;
    assert tab'.Keys - tab.Keys == set n | n in tab' && n !in tab;
    CountUsed(l.used, tab.Values, tab.Keys, l'.used, tab'.Values, tab'.Keys);
  }

  lemma CountUsed(used: set<nat>, values: set<nat>, keys: set<Node>, used': set<nat>, values': set<nat>,
                  keys': set<Node>)
    requires values <= used && values' <= used' && |values| == |keys| && |values'| == |keys'| && keys <= keys'
    requires used' - values' == used - values
    ensures |used'| == |used| + |keys' - keys|
  {
    var data := used - values;
    assert used == data + values && used' == data + values' && keys' == keys + (keys' - keys);
  }

  lemma TablesUsed(l: Ledger, mem: Memory, tab: Tables)
    requires Consistent(l, mem, tab)
    ensures tab.Values <= l.used && |tab.Values| == |tab.Keys|
  {
    forall f | f in tab.Values ensures f in l.used {
      assert l.FrameOk(f);
    }
    hide Ledger.Ok;
    CountValues(tab);
  }

  // ----- fresh pages, faults and stores -----

  /** A page allocated and filled, not mapped yet. */
  lemma FreshFrame(l: Ledger, mem: Memory, tab: Tables, spec: PageMap, f: nat, p: Page)
    requires Good(l, mem, tab, spec) && f < |mem| && f !in l.used
    ensures Good(l.(used := l.used + {f}, refs := l.refs[f := 1], loose := l.loose + multiset{f}), mem[f := p], tab,
                 spec)
    ensures l.loose[f] == 0 && f !in l.tables && f !in l.reserved && Users(l.maps, f) == {}
  {
    hide Tree, SharingOk;
    l.Fresh(f);
    DataWrite(mem, tab, l.maps, f, p);
    forall k | k in l.maps ensures l.maps[k].frame != f {
      DataFrame(l, mem, tab, k);
    }
    hide Ledger.Ok;
    SharingLoose(l.maps, l.loose, f);
  }

  lemma SharingLoose(maps: Mappings, loose: multiset<nat>, f: nat)
    requires SharingOk(maps, loose) && forall k :: k in maps ==> maps[k].frame != f
    ensures SharingOk(maps, loose + multiset{f})
  {
  }

  /** The first entry for a frame. */
  lemma FirstEntry(l: Ledger, mem: Memory, tab: Tables, spec: PageMap, c: Node, w: Word, l': Ledger, mem': Memory,
                   tab': Tables)
    requires Good(l, mem, tab, spec) && c !in l.maps
    requires w.frame < |mem| && l.loose[w.frame] == 1 && Users(l.maps, w.frame) == {}
      && !(w.flags.writable && w.flags.cow)
    requires Grew(c.root, l, mem, tab, l'.(maps := l.maps, loose := l.loose), mem', tab') && Consistent(l', mem', tab')
    requires l'.maps == l.maps[c := w] && l'.loose == l.loose - multiset{w.frame}
    ensures Good(l', mem', tab', spec[c := Mapped(mem[w.frame], Apparent(w.flags))])
  {
    hide Tree, SharingOk;
    assert l.FrameOk(w.frame);
    hide Ledger.Ok;
    GrewReads(c.root, l, mem, tab, l'.(maps := l.maps, loose := l.loose), mem', tab', spec);
    hide Consistent;
    SharingFirst(l.maps, l.loose, c, w);
  }

  lemma SharingFirst(maps: Mappings, loose: multiset<nat>, c: Node, w: Word)
    requires SharingOk(maps, loose) && c !in maps && Users(maps, w.frame) == {} && loose[w.frame] == 1
    requires !(w.flags.writable && w.flags.cow)
    ensures SharingOk(maps[c := w], loose - multiset{w.frame})
  {
    assert forall k :: k in maps ==> k !in Users(maps, w.frame);
  }

  /** A copy-on-write entry moves to a private copy of its frame. */
  lemma CopyEntry(l: Ledger, mem: Memory, tab: Tables, spec: PageMap, k: Node, t: nat, i: nat, g: nat, w: Word,
                  l': Ledger, mem': Memory)
    requires Good(l, mem, tab, spec) && Locates(mem, tab, l.maps, k, t, i) && w.frame == g < |mem| && g !in l.used
    requires w.flags.present && Apparent(w.flags) == Apparent(l.maps[k].flags) && !(w.flags.writable && w.flags.cow)
    requires l.maps[k].frame < |l.refs| == |mem| && l.refs[l.maps[k].frame] > 1
    requires l' == l.(used := l.used + {g}, refs := l.refs[g := 1][l.maps[k].frame := l.refs[l.maps[k].frame] - 1],
                      maps := l.maps[k := w])
    requires var mem1 := mem[g := mem[l.maps[k].frame]]; mem' == mem1[t := mem1[t][i := w]]
    ensures Good(l', mem', tab, spec)
  {
    hide Tree, Ledger.Ok, SharingOk, ReadsAs;
    var f := l.maps[k].frame;
    DataFrame(l, mem, tab, k);
    assert t in l.tables;
    FreshFrame(l, mem, tab, spec, g, mem[f]);
    var l1 := l.(used := l.used + {g}, refs := l.refs[g := 1], loose := l.loose + multiset{g});
    var mem1 := mem[g := mem[f]];
    assert l'.loose == l1.loose - multiset{g};
    TableIntact(l, mem, tab, t, g);
    MoveTree(l1, mem1, tab, k, t, i, g, w);
    CopySharing(l, mem, tab, spec, k, g, w);
    CopyReads(l, mem, tab, spec, k, t, g, w, mem1[t][i := w], mem', l'.maps);
  }

  lemma TableIntact(l: Ledger, mem: Memory, tab: Tables, t: nat, g: nat)
    requires Consistent(l, mem, tab) && t in l.tables && g !in l.used
    ensures t in l.used && t != g && t < |mem|
  {
    assert exists n :: n in tab && tab[n] == t;
    assert l.FrameOk(t);
  }

  lemma MoveTree(l: Ledger, mem: Memory, tab: Tables, k: Node, t: nat, i: nat, g: nat, w: Word)
    requires Consistent(l, mem, tab) && Locates(mem, tab, l.maps, k, t, i)
    requires w.frame == g < |mem| && l.loose[g] > 0 && w.flags.present
    requires l.maps[k].frame < |l.refs| && l.refs[l.maps[k].frame] > 1 && l.maps[k].frame != g
    ensures var f := l.maps[k].frame;
            Consistent(l.(refs := l.refs[f := l.refs[f] - 1], maps := l.maps[k := w], loose := l.loose - multiset{g}),
                       mem[t := mem[t][i := w]], tab)
  {
    hide Tree, Ledger.Ok;
    var f := l.maps[k].frame;
    l.Drop(k);
    var l1 := l.(refs := l.refs[f := l.refs[f] - 1], maps := l.maps - {k});
    l1.Attach(k, w);
    assert l1.maps[k := w] == l.maps[k := w];
    ParentChild(k);
    SetLeaf(mem, tab, l.maps, k.Parent(), k.Last(), w);
  }

  lemma CopySharing(l: Ledger, mem: Memory, tab: Tables, spec: PageMap, k: Node, g: nat, w: Word)
    requires Good(l, mem, tab, spec) && k in l.maps && w.frame == g && Users(l.maps, g) == {} && l.loose[g] == 0
    requires !(w.flags.writable && w.flags.cow)
    ensures SharingOk(l.maps[k := w], l.loose)
  {
    hide Consistent, ReadsAs;
    assert forall m :: m in l.maps ==> m !in Users(l.maps, g);
  }

  lemma CopyReads(l: Ledger, mem: Memory, tab: Tables, spec: PageMap, k: Node, t: nat, g: nat, w: Word, p: Page,
                  mem': Memory, maps': Mappings)
    requires k in l.maps && w.frame == g < |mem| && t != g && t < |mem| && l.maps[k].frame < |mem|
    requires Users(l.maps, g) == {} && t in l.tables && Apparent(w.flags) == Apparent(l.maps[k].flags)
    requires mem' == mem[g := mem[l.maps[k].frame]][t := p] && maps' == l.maps[k := w]
    requires Good(l, mem, tab, spec)
    ensures ReadsAs(mem', maps', spec)
  {
    hide Consistent, SharingOk;
    forall m | m in l.maps ensures l.maps[m].frame != t && l.maps[m].frame != g {
      DataFrame(l, mem, tab, m);
      assert m !in Users(l.maps, g);
    }
  }

  /** A store through a writable entry changes the page of its owner alone. */
  lemma StoreGood(l: Ledger, mem: Memory, tab: Tables, spec: PageMap, k: Node, p: Page)
    requires Good(l, mem, tab, spec) && k in l.maps && l.maps[k].flags.writable && l.maps[k].frame < |mem|
    ensures k in spec && Good(l, mem[l.maps[k].frame := p], tab, spec[k := spec[k].(page := p)])
  {
    hide Tree, Ledger.Ok;
    DataFrame(l, mem, tab, k);
    DataWrite(mem, tab, l.maps, l.maps[k].frame, p);
    hide Consistent;
    StoreReads(mem, l.maps, l.loose, spec, k, p);
    hide SharingOk, ReadsAs;
  }

  lemma StoreReads(mem: Memory, maps: Mappings, loose: multiset<nat>, spec: PageMap, k: Node, p: Page)
    requires SharingOk(maps, loose) && ReadsAs(mem, maps, spec) && k in maps && maps[k].flags.writable
    ensures k in spec && maps[k].frame < |mem| && ReadsAs(mem[maps[k].frame := p], maps, spec[k := spec[k].(page := p)])
  {
    forall m | m in maps && m != k ensures maps[m].frame != maps[k].frame {
    }
  }

  /** Every address space that existed before still exists and holds what it held. */
  ghost predicate Survives(tab: Tables, spec: PageMap, tab': Tables, spec': PageMap) {
    && Roots(tab) <= Roots(tab')
    && forall q: Node :: Node(q.root, []) in tab ==>
      (q in spec' <==> q in spec) && (q in spec && q in spec' ==> spec'[q] == spec[q])
  }

  lemma SurvivesRefl(tab: Tables, spec: PageMap)
    ensures Survives(tab, spec, tab, spec)
  {
  }

  lemma SurvivesFailure(tab: Tables, tab1: Tables, tab2: Tables, s: PageMap, s': PageMap, child: nat)
    requires Node(child, []) !in tab && tab1 == tab[Node(child, []) := child] && ChildGrew(tab1, tab2, child)
      && OthersSame(s, s', child)
    ensures Survives(tab, s, tab2, s')
  {
    assert Roots(tab1) == Roots(tab) + {Node(child, [])};
  }

  /** An address space that does not exist yet has no pages. */
  lemma NoPagesYet(l: Ledger, mem: Memory, tab: Tables, spec: PageMap, child: nat)
    requires Good(l, mem, tab, spec) && Node(child, []) !in tab
    ensures NoneBelow(spec, child, [])
  {
    hide Ledger.Ok, SharingOk;
    forall q: Node | q in spec ensures Node(q.root, []) in tab {
      RootOf(mem, tab, l.maps, q.Parent());
    }
    hide Tree;
  }

  /** A loose frame that was never mapped is given back. */
  lemma DropFrame(l: Ledger, mem: Memory, tab: Tables, spec: PageMap, f: nat)
    requires Good(l, mem, tab, spec) && f < |mem| && l.loose[f] == 1 && Users(l.maps, f) == {}
    ensures f in l.used && f !in l.reserved && l.refs[f] == 1
    ensures Good(l.(used := l.used - {f}, refs := l.refs[f := 0], loose := l.loose - multiset{f}), mem, tab, spec)
  {
    hide Tree, ReadsAs;
    assert l.FrameOk(f);
    l.DropLoose(f);
    hide Ledger.Ok;
  }

  // ----- taking an address space apart -----

  /** What is left when everything below `n` with an index less than `i` is gone. */
  ghost function Prune<V>(m: map<Node, V>, n: Node, i: nat): map<Node, V> {
    map q | q in m && !(q.root == n.root && Before(n, i, q.path)) :: m[q]
  }

  /** What is left when `n` and everything below it is gone. */
  ghost function Cut<V>(m: map<Node, V>, n: Node): map<Node, V> {
    map q | q in m && !Under(n, q) :: m[q]
  }

  lemma PruneNext<V>(m: map<Node, V>, n: Node, i: nat)
    ensures Cut(Prune(m, n, i), n.Child(i)) == Prune(m, n, i + 1)
  {
    PrefixStep(n.path, i);
    forall q: Node | q.root == n.root ensures Under(n.Child(i), q) <==>
      Before(n, i + 1, q.path) && !Before(n, i, q.path) {
      if Before(n, i + 1, q.path) && !Before(n, i, q.path) {
        assert n.path + [i] <= q.path;
      }
    }
  }

  lemma PruneSkip<V>(m: map<Node, V>, n: Node, i: nat)
    requires forall q: Node :: q in m ==> !Under(n.Child(i), q)
    ensures Prune(m, n, i + 1) == Prune(m, n, i)
  {
    PruneNext(m, n, i);
    assert Cut(Prune(m, n, i), n.Child(i)) == Prune(m, n, i);
  }

  lemma PruneDone<V>(m: map<Node, V>, n: Node)
    requires forall q: Node :: q in m ==> q.Proper()
    ensures Prune(m, n, if n.path == [] then 256 else 512) - {n} == Cut(m, n)
  {
    var b := if n.path == [] then 256 else 512;
    forall q: Node | q in m ensures Under(n, q) <==> q == n || (q.root == n.root && Before(n, b, q.path)) {
      if Under(n, q) && q != n {
        assert n.path < q.path;
      }
    }
  }

  /** The books agree with what is left (`rt`, `rm`) of the tables and mappings while they are taken apart. */
  ghost predicate Clearing(l: Ledger, mem: Memory, tab: Tables, maps: Mappings, rt: Tables, rm: Mappings) {
    && |mem| == |l.refs| && Tree(mem, tab, maps) && (forall k :: k in maps ==> maps[k].frame < |mem|)
    && l.maps == rm && l.tables == rt.Values && l.Ok()
    && (forall q :: q in rt ==> q in tab && rt[q] == tab[q]) && (forall q :: q in rm ==> q in maps && rm[q] == maps[q])
  }

  /** Nothing below `n` has been touched yet. */
  ghost predicate Intact(tab: Tables, maps: Mappings, rt: Tables, rm: Mappings, n: Node) {
    && (forall q :: q in tab && Under(n, q) ==> q in rt)
    && (forall q :: q in maps && Under(n, q) ==> q in rm)
  }

  lemma ClearingSkip(l: Ledger, mem: Memory, tab: Tables, maps: Mappings, rt: Tables, rm: Mappings, n: Node, i: nat)
    requires Clearing(l, mem, tab, maps, Prune(rt, n, i), Prune(rm, n, i))
    requires n in tab && n.Has(i) && tab[n] < |mem| && Submaps(tab, maps, rt, rm)
    requires !mem[tab[n]][i].flags.present || (1 <= |n.path| <= 2 && mem[tab[n]][i].flags.huge)
    ensures Clearing(l, mem, tab, maps, Prune(rt, n, i + 1), Prune(rm, n, i + 1))
  {
    var c := n.Child(i);
    assert EntryOk(mem, tab, maps, n, i);
    forall q: Node | q in tab || q in maps ensures !Under(c, q) {
      if |n.path| == 3 {
        assert Under(c, q) && |q.path| == 4 ==> q.path == c.path;
      } else if Under(c, q) {
        NothingBelow(mem, tab, maps, c, q);
      }
    }
    PruneSkip(rt, n, i);
    PruneSkip(rm, n, i);
  }

  ghost predicate Submaps(tab: Tables, maps: Mappings, rt: Tables, rm: Mappings) {
    (forall q :: q in rt ==> q in tab && rt[q] == tab[q]) && (forall q :: q in rm ==> q in maps && rm[q] == maps[q])
  }

  lemma PrunePage(rt: Tables, rm: Mappings, n: Node, i: nat)
    requires |n.path| == 3 && (forall q :: q in rt ==> |q.path| <= 3) && (forall q :: q in rm ==> |q.path| == 4)
    ensures Prune(rt, n, i + 1) == Prune(rt, n, i)
    ensures Prune(rm, n, i + 1) == Prune(rm, n, i) - {n.Child(i)}
  {
    PruneSkip(rt, n, i);
    PruneNext(rm, n, i);
    forall q: Node | q in rm && Under(n.Child(i), q) ensures q == n.Child(i) {
      assert q.path == n.Child(i).path;
    }
  }

  /** A page entry is dropped. */
  lemma ClearingPage(l: Ledger, mem: Memory, tab: Tables, maps: Mappings, rt: Tables, rm: Mappings, n: Node, i: nat)
    requires Clearing(l, mem, tab, maps, Prune(rt, n, i), Prune(rm, n, i)) && Intact(tab, maps, rt, rm, n)
      && Submaps(tab, maps, rt, rm)
    requires n in tab && n.Has(i) && tab[n] < |mem| && |n.path| == 3 && mem[tab[n]][i].flags.present
    ensures var f := mem[tab[n]][i].frame;
            && f < |l.refs| && f !in l.reserved && l.refs[f] > 0 && f in l.used
            && Clearing(l.(used := if l.refs[f] == 1 then l.used - {f} else l.used, refs := l.refs[f := l.refs[f] - 1],
                           maps := Prune(rm, n, i + 1)),
                        mem, tab, maps, Prune(rt, n, i + 1), Prune(rm, n, i + 1))
  {
    hide Clearing, Intact, Submaps;
    ClearingEntry(l, mem, tab, maps, rt, rm, n, i);
    PrunePage(rt, rm, n, i);
    ClearingDrop(l, mem, tab, maps, Prune(rt, n, i), Prune(rm, n, i), n.Child(i));
  }

  /** The page of a present leaf entry is among those still to be dropped. */
  lemma ClearingEntry(l: Ledger, mem: Memory, tab: Tables, maps: Mappings, rt: Tables, rm: Mappings, n: Node, i: nat)
    requires n in tab && n.Has(i) && tab[n] < |mem| && |n.path| == 3 && mem[tab[n]][i].flags.present
    requires Intact(tab, maps, rt, rm, n) && Submaps(tab, maps, rt, rm)
    requires Clearing(l, mem, tab, maps, Prune(rt, n, i), Prune(rm, n, i))
    ensures var k := n.Child(i); k in rm && k in Prune(rm, n, i) && Prune(rm, n, i)[k] == mem[tab[n]][i]
    ensures (forall q :: q in rt ==> |q.path| <= 3) && (forall q :: q in rm ==> |q.path| == 4)
  {
    hide Ledger.Ok, Tree;
    LeafMapped(mem, tab, maps, n, i);
    assert n.Child(i) in rm;
    assert Prune(rm, n, i)[n.Child(i)] == maps[n.Child(i)];
  }

  lemma LeafMapped(mem: Memory, tab: Tables, maps: Mappings, n: Node, i: nat)
    requires n in tab && n.Has(i) && tab[n] < |mem| && |n.path| == 3 && mem[tab[n]][i].flags.present
    requires Tree(mem, tab, maps)
    ensures n.Child(i) in maps && maps[n.Child(i)] == mem[tab[n]][i]
    ensures (forall q :: q in tab ==> |q.path| <= 3) && (forall q :: q in maps ==> |q.path| == 4)
  {
    assert EntryOk(mem, tab, maps, n, i);
  }

  lemma ClearingDrop(l: Ledger, mem: Memory, tab: Tables, maps: Mappings, rt: Tables, rm: Mappings, k: Node)
    requires Clearing(l, mem, tab, maps, rt, rm) && k in rm
    ensures var f := rm[k].frame;
            && k in maps && maps[k] == rm[k] && f < |l.refs| && f !in l.reserved && l.refs[f] > 0 && f in l.used
            && Clearing(l.(used := if l.refs[f] == 1 then l.used - {f} else l.used, refs := l.refs[f := l.refs[f] - 1],
                           maps := rm - {k}),
                        mem, tab, maps, rt, rm - {k})
  {
    hide Tree, Ledger.Ok;
    l.Drop(k);
  }

  /** The table at `n` itself is given back last. */
  lemma ClearingTable(l: Ledger, mem: Memory, tab: Tables, maps: Mappings, rt: Tables, rm: Mappings, n: Node)
    requires var b := if n.path == [] then 256 else 512; Clearing(l, mem, tab, maps, Prune(rt, n, b), Prune(rm, n, b))
    requires n in tab && n in rt && |n.path| <= 3 && Submaps(tab, maps, rt, rm)
    ensures tab[n] < |l.refs| && tab[n] in l.used && tab[n] !in l.reserved
    ensures Clearing(l.(used := l.used - {tab[n]}, refs := l.refs[tab[n] := 0], tables := Cut(rt, n).Values,
                        maps := Cut(rm, n)),
                     mem, tab, maps, Cut(rt, n), Cut(rm, n))
  {
    hide Clearing;
    var b := if n.path == [] then 256 else 512;
    SubKeys(l, mem, tab, maps, rt, rm, Prune(rt, n, b), Prune(rm, n, b));
    hide Submaps;
    PruneDone(rt, n);
    PruneDone(rm, n);
    assert Prune(rm, n, b) - {n} == Prune(rm, n, b);
    assert n in Prune(rt, n, b);
    hide Prune, Cut;
    ClearingFree(l, mem, tab, maps, Prune(rt, n, b), Prune(rm, n, b), n);
  }

  lemma SubKeys(l: Ledger, mem: Memory, tab: Tables, maps: Mappings, rt: Tables, rm: Mappings, pt: Tables, pm: Mappings)
    requires Clearing(l, mem, tab, maps, pt, pm) && Submaps(tab, maps, rt, rm)
    ensures forall q :: q in rt ==> q.Proper() && |q.path| <= 3
    ensures forall q :: q in rm ==> q.Proper() && |q.path| == 4
    ensures l.maps == pm
  {
  }

  lemma ClearingFree(l: Ledger, mem: Memory, tab: Tables, maps: Mappings, rt: Tables, rm: Mappings, n: Node)
    requires Clearing(l, mem, tab, maps, rt, rm) && n in rt
    ensures n in tab && tab[n] < |l.refs| && tab[n] in l.used && tab[n] !in l.reserved
    ensures Clearing(l.(used := l.used - {tab[n]}, refs := l.refs[tab[n] := 0], tables := (rt - {n}).Values),
                     mem, tab, maps, rt - {n}, rm)
  {
    hide Ledger.Ok;
    OneTable(mem, tab, maps, rt, n);
    hide Tree;
    l.FreeTable(tab[n]);
  }

  /** No other table shares the frame of the table at `n`. */
  lemma OneTable(mem: Memory, tab: Tables, maps: Mappings, rt: Tables, n: Node)
    requires Shape(mem, tab, maps) && n in rt && forall q :: q in rt ==> q in tab && rt[q] == tab[q]
    ensures tab[n] < |mem| && tab[n] in rt.Values && (rt - {n}).Values == rt.Values - {tab[n]}
  {
    var rest := rt - {n};
    forall v | v in rt.Values - {tab[n]} ensures v in rest.Values {
      var q :| q in rt && rt[q] == v;
      assert q in rest && rest[q] == v;
    }
    forall v | v in rest.Values ensures v in rt.Values - {tab[n]} {
      var q :| q in rest && rest[q] == v;
      assert q in rt && q != n;
    }
  }

  /** Below an entry the recursion takes over. */
  lemma ClearingEnter(tab: Tables, maps: Mappings, rt: Tables, rm: Mappings, n: Node, i: nat)
    requires Intact(tab, maps, rt, rm, n)
    ensures Intact(tab, maps, Prune(rt, n, i), Prune(rm, n, i), n.Child(i))
  {
    PrefixStep(n.path, i);
  }

  lemma TableBelow(l: Ledger, mem: Memory, tab: Tables, maps: Mappings, rt: Tables, rm: Mappings, n: Node, i: nat)
    requires Clearing(l, mem, tab, maps, rt, rm) && n in tab && n.Has(i) && |n.path| < 3 && tab[n] < |mem|
    requires mem[tab[n]][i].flags.present
    ensures n.Child(i) in tab && tab[n.Child(i)] == mem[tab[n]][i].frame && n.Child(i).Proper()
      && tab[n.Child(i)] < |mem|
    ensures Submaps(tab, maps, rt, rm)
  {
    assert EntryOk(mem, tab, maps, n, i);
  }

  lemma SameLeft(l: Ledger, mem: Memory, tab: Tables, maps: Mappings, rt: Tables, rm: Mappings)
    requires Clearing(l, mem, tab, maps, rt, rm)
    ensures l == l.(tables := rt.Values, maps := rm)
  {
  }

  lemma ClearingStart(l: Ledger, mem: Memory, tab: Tables, spec: PageMap, n: Node)
    requires Good(l, mem, tab, spec)
    ensures Clearing(l, mem, tab, l.maps, tab, l.maps) && Submaps(tab, l.maps, tab, l.maps)
      && Intact(tab, l.maps, tab, l.maps, n)
  {
  }

  /** What remains when one address space is gone is as good as before. */
  lemma CutGood(l: Ledger, mem: Memory, tab: Tables, spec: PageMap, r: Node, l': Ledger)
    requires Good(l, mem, tab, spec) && r.path == []
    requires Clearing(l', mem, tab, l.maps, Cut(tab, r), Cut(l.maps, r)) && l'.loose == l.loose
    ensures Good(l', mem, Cut(tab, r), Cut(spec, r))
    ensures Roots(Cut(tab, r)) == Roots(tab) - {r}
  {
    hide Tree, Ledger.Ok, SharingOk, ReadsAs;
    CutTree(mem, tab, l.maps, r);
    SharingCut(l.maps, l.loose, r);
    ReadsCut(mem, l.maps, spec, r);
    RootsCut(tab, r);
    hide Cut;
  }

  lemma ReadsCut(mem: Memory, maps: Mappings, spec: PageMap, r: Node)
    requires ReadsAs(mem, maps, spec)
    ensures ReadsAs(mem, Cut(maps, r), Cut(spec, r))
  {
  }

  lemma RootsCut(tab: Tables, r: Node)
    requires r.path == []
    ensures Roots(Cut(tab, r)) == Roots(tab) - {r}
  {
    assert forall n: Node :: n.path == [] ==> (Under(r, n) <==> n == r);
  }

  lemma SharingCut(maps: Mappings, loose: multiset<nat>, r: Node)
    requires SharingOk(maps, loose)
    ensures SharingOk(Cut(maps, r), loose)
  {
  }

  lemma CutTree(mem: Memory, tab: Tables, maps: Mappings, r: Node)
    requires Tree(mem, tab, maps) && r.path == []
    ensures Tree(mem, Cut(tab, r), Cut(maps, r))
  {
    assert forall n: Node :: Under(r, n) <==> n.root == r.root;
    forall n, i: nat | n in Cut(tab, r) && n.Has(i) ensures EntryOk(mem, Cut(tab, r), Cut(maps, r), n, i) {
      assert EntryOk(mem, tab, maps, n, i);
    }
  }

  /** Conservation: with every address space destroyed and no reference lost, exactly the kernel's frames are in use. */
  lemma NothingLeaks(l: Ledger, mem: Memory, tab: Tables)
    requires Consistent(l, mem, tab) && Roots(tab) == {} && l.loose == multiset{}
    ensures forall f: nat :: f < |l.refs| ==> (f in l.used <==> f in l.reserved)
  {
    forall n | n in tab ensures Node(n.root, []) in Roots(tab) {
      RootOf(mem, tab, l.maps, n);
    }
    assert tab == map[];
    assert l.maps == map[];
    forall f: nat | f < |l.refs| ensures f in l.used <==> f in l.reserved {
      assert l.FrameOk(f);
      assert Users(l.maps, f) == {};
    }
  }

  /** An address space that is still there holds a frame beyond the kernel's. */
  lemma SomethingLeaks(l: Ledger, mem: Memory, tab: Tables, first: set<nat>)
    requires Consistent(l, mem, tab) && Roots(tab) != {} && forall f: nat :: f in first <==>
      f < |l.refs| && f in l.reserved
    ensures |first| < |l.used|
  {
    var r :| r in Roots(tab);
    assert tab[r] in tab.Values && l.FrameOk(tab[r]);
    forall f | f in first ensures f in l.used {
      assert l.FrameOk(f);
    }
    SubsetSize(first + {tab[r]}, l.used);
  }

  lemma CutRoot(l: Ledger, mem: Memory, tab: Tables, r: Node)
    requires Consistent(l, mem, tab) && r in tab
    ensures tab[r] !in Cut(tab, r).Values && forall k :: k in Cut(l.maps, r) ==>
      k in l.maps && Cut(l.maps, r)[k] == l.maps[k]
  {
  }

  /** A page costs its owner at least its own frame, the tables on its stems and the top table. */
  lemma PageCost(l: Ledger, mem: Memory, tab: Tables, s: PageMap, k: Node, first: set<nat>)
    requires Good(l, mem, tab, s) && k in s && forall f: nat :: f in first <==> f < |l.refs| && f in l.reserved
    ensures |first| + 2 + |Stems(s, k.root)| <= |l.used|
  {
    hide Consistent, SharingOk, ReadsAs, Stems;
    KeysOf(l, mem, tab, s);
    var f := l.maps[k].frame;
    FramesApart(l, mem, tab, k, first);
    OwnTables(l, mem, tab, s, k);
    SubsetSize(first + tab.Values + {f}, l.used);
  }

  /** The kernel's frames, the tables and a mapped frame are different frames in use. */
  lemma FramesApart(l: Ledger, mem: Memory, tab: Tables, k: Node, first: set<nat>)
    requires Consistent(l, mem, tab) && k in l.maps && forall f: nat :: f in first <==> f < |l.refs| && f in l.reserved
    ensures var f := l.maps[k].frame;
        f !in first && f !in tab.Values && first * tab.Values == {} && first + tab.Values + {f} <= l.used
    ensures |tab.Values| == |tab.Keys|
  {
    DataFrame(l, mem, tab, k);
    TablesUsed(l, mem, tab);
    forall g | g in first ensures g in l.used && g !in tab.Values {
      assert l.FrameOk(g);
    }
  }

  lemma TopTable(l: Ledger, mem: Memory, tab: Tables, s: PageMap, k: Node)
    requires Good(l, mem, tab, s) && k in s
    ensures Node(k.root, []) in tab
  {
    hide Ledger.Ok, SharingOk;
    RootOf(mem, tab, l.maps, k.Parent());
  }

  lemma OwnTables(l: Ledger, mem: Memory, tab: Tables, s: PageMap, k: Node)
    requires Good(l, mem, tab, s) && k in s
    ensures 1 + |Stems(s, k.root)| <= |tab.Keys|
  {
    hide Consistent, SharingOk, ReadsAs, Stems;
    TopTable(l, mem, tab, s, k);
    forall p | p in Stems(s, k.root) ensures Node(k.root, p) in tab {
      StemsAreTables(l, mem, tab, s, k.root, p);
    }
    StemsLong(s, k.root);
    var tables := set p | p in Stems(s, k.root) :: Node(k.root, p);
    CountPaths(tables, Stems(s, k.root), k.root);
    SubsetSize(tables + {Node(k.root, [])}, tab.Keys);
  }

  /** A mapped page has three stems. */
  lemma PageStems(s: PageMap, k: Node)
    requires k in s && |k.path| == 4
    ensures |Stems(s, k.root)| >= 3
  {
    var a, b, c := k.path[..1], k.path[..2], k.path[..3];
    assert |a| == 1 && |b| == 2 && |c| == 3;
    SubsetSize({a, b, c}, Stems(s, k.root));
  }

  /** The top table of a destroyed address space is free again. */
  lemma RootFreed(l: Ledger, mem: Memory, tab: Tables, r: Node, l': Ledger, tab': Tables)
    requires Consistent(l, mem, tab) && Consistent(l', mem, tab') && r in tab
    requires l'.reserved == l.reserved && l'.loose == l.loose && tab[r] !in tab'.Values && l'.used <= l.used
    requires forall k :: k in l'.maps ==> k in l.maps && l'.maps[k] == l.maps[k]
    ensures |l'.used| < |l.used|
  {
    var f := tab[r];
    assert f in tab.Values && l.FrameOk(f) && l'.FrameOk(f);
    assert Users(l'.maps, f) <= Users(l.maps, f);
    SubsetSize(l'.used + {f}, l.used);
  }

  lemma KeysOf(l: Ledger, mem: Memory, tab: Tables, spec: PageMap)
    requires Good(l, mem, tab, spec)
    ensures l.maps.Keys == spec.Keys
  {
  }

  /** At most as many entries map a frame as there are address spaces, so its 8-bit count has room for one more. */
  lemma NotSaturated(l: Ledger, mem: Memory, tab: Tables, k: Node, c: Node)
    requires Consistent(l, mem, tab) && SharingOk(l.maps, l.loose)
    requires k in l.maps && c !in l.maps && c.path == k.path && Node(c.root, []) in tab
    requires |Roots(tab)| + |l.loose| <= MAX_REFS
    ensures l.refs[l.maps[k].frame] < MAX_REFS
  {
    var f := l.maps[k].frame;
    DataFrame(l, mem, tab, k);
    forall m | m in Users(l.maps, f) ensures Node(m.root, []) in Roots(tab) && m.root != c.root {
      RootOf(mem, tab, l.maps, m.Parent());
      assert m.path == k.path;
    }
    UsersBounded(Users(l.maps, f), Roots(tab), Node(c.root, []));
    assert l.loose[f] <= |l.loose|;
  }
}
