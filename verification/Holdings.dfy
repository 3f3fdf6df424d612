/** Which frames the address spaces of kernel/memory/user_vm.c hold: what a request takes and gives back. */
module Holdings {
  import opened PageTable
  import opened UserVm

  /** The tables there are, the frame of every page, and the references nobody accounts for. */
  datatype Estate = Estate(tables: set<Node>, frames: map<Node, nat>, loose: multiset<nat>)

  ghost function EstateOf(tab: Tables, maps: Mappings, loose: multiset<nat>): Estate {
    Estate(tab.Keys, map k | k in maps :: maps[k].frame, loose)
  }

  /** The frames that hold pages, or whose references were lost. */
  ghost function Data(h: Estate): set<nat> { h.frames.Values + set f | f in h.loose }

  /** How many frames are taken. */
  ghost function Size(h: Estate): nat { |h.tables| + |Data(h)| }

  /** The references to the frame of a page. */
  ghost function Refs(h: Estate, k: Node): nat
    requires k in h.frames
  {
    |set q | q in h.frames && h.frames[q] == h.frames[k]| + h.loose[h.frames[k]]
  }

  /** The frame holds nothing. */
  ghost predicate Unused(h: Estate, f: nat) { f !in Data(h) }

  /** The tables on the way to the page at `p`, down to depth `d`. */
  ghost function Way(root: nat, p: seq<nat>, d: nat): set<Node> {
    set j | 1 <= j <= d && j <= |p| :: Node(root, p[..j])
  }

  /** The tables below the top one that these pages of an address space need. */
  ghost function Trunk(pages: set<Node>, root: nat): set<Node> {
    set q, d | q in pages && q.root == root && 1 <= d <= 3 && d <= |q.path| :: Node(root, q.path[..d])
  }

  /** Where the pages of an address space are; and those the walk comes to before `k`. */
  ghost function Paths(h: Estate, root: nat): set<seq<nat>> { set q | q in h.frames && q.root == root :: q.path }

  ghost function Early(h: Estate, root: nat, k: Node): set<seq<nat>> {
    set q | q in h.frames && q.root == root && Sooner(q.path, k.path) :: q.path
  }

  /** The parent's pages at `ps` are shared with a new address space, which has the tables it needs for them. */
  ghost function Copy(h: Estate, parent: nat, child: nat, ps: set<seq<nat>>): Estate {
    var frames := map q | q in h.frames.Keys + (set p | p in ps :: Node(child, p)) ::
      if q in h.frames then h.frames[q]
      else if Node(parent, q.path) in h.frames then h.frames[Node(parent, q.path)]
      else 0;
    Estate(h.tables + {Node(child, [])} + Trunk(frames.Keys, child), frames, h.loose)
  }

  /** A fork that ran out of memory at page `k`: the pages before it, `d` tables on its way, and a reference to it. */
  ghost predicate Stopped(h: Estate, h': Estate, parent: nat, child: nat, k: Node, d: nat) {
    && k in h.frames && k.root == parent && d < 3 && |k.path| == 4
    && var c := Copy(h, parent, child, Early(h, parent, k));
    && h' == c.(tables := c.tables + Way(child, k.path, d), loose := h.loose + multiset{h.frames[k]})
    && Node(child, k.path[..d + 1]) !in h'.tables
  }

  /** The address space is gone. */
  ghost function Gone(h: Estate, root: nat): Estate {
    Estate(set n | n in h.tables && n.root != root, map q | q in h.frames && q.root != root :: h.frames[q], h.loose)
  }

  /** Whatever is held belongs to an address space there is. */
  ghost predicate Rooted(h: Estate) {
    && (forall n :: n in h.tables ==> Node(n.root, []) in h.tables)
    && forall q :: q in h.frames ==> |q.path| == 4 && Node(q.root, []) in h.tables
  }

  lemma RootedNow(l: Ledger, mem: Memory, tab: Tables)
    requires Consistent(l, mem, tab)
    ensures Rooted(EstateOf(tab, l.maps, l.loose))
  {
    TreeShape(l, mem, tab);
    hide Consistent;
    forall n | n in tab ensures Node(n.root, []) in tab {
      RootOf(mem, tab, l.maps, n);
    }
    forall q | q in l.maps ensures |q.path| == 4 && Node(q.root, []) in tab {
      RootOf(mem, tab, l.maps, q.Parent());
    }
  }

  // ----- the estate after mapping or moving a page -----

  ghost function WithPage(h: Estate, k: Node, f: nat): Estate {
    h.(tables := h.tables + Way(k.root, k.path, 3), frames := h.frames[k := f])
  }

  /** Only the first `d` tables on the way to the page could be made. */
  ghost predicate WithWay(h: Estate, h': Estate, k: Node, d: nat) {
    && d < 3 && |k.path| == 4 && h' == h.(tables := h.tables + Way(k.root, k.path, d))
    && Node(k.root, k.path[..d + 1]) !in h'.tables
  }

  /** A page whose frame has other references moves to an unused one; a page whose frame has none stays. */
  ghost predicate Rehomed(h: Estate, h': Estate, k: Node, g: nat) {
    k in h.frames && if Refs(h, k) == 1 then h' == h else Unused(h, g) && h' == h.(frames := h.frames[k := g])
  }

  lemma UnusedIs(tab: Tables, maps: Mappings, loose: multiset<nat>, f: nat)
    requires Users(maps, f) == {} && loose[f] == 0
    ensures Unused(EstateOf(tab, maps, loose), f)
  {
    forall k | k in maps ensures maps[k].frame != f {
      assert k !in Users(maps, f);
    }
  }

  lemma PageMade(tab: Tables, maps: Mappings, loose: multiset<nat>, tab': Tables, maps': Mappings, k: Node, f: nat)
    requires k in maps' && maps' == maps[k := maps'[k]] && maps'[k].frame == f
    requires tab'.Keys == tab.Keys + Way(k.root, k.path, 3)
    ensures EstateOf(tab', maps', loose) == WithPage(EstateOf(tab, maps, loose), k, f)
  {
    hide Way;
    assert EstateOf(tab', maps', loose).frames == WithPage(EstateOf(tab, maps, loose), k, f).frames;
  }

  lemma WayMade(tab: Tables, maps: Mappings, loose: multiset<nat>, tab': Tables, k: Node, d: nat)
    requires d < 3 && |k.path| == 4 && tab'.Keys == tab.Keys + Way(k.root, k.path, d)
    requires Node(k.root, k.path[..d + 1]) !in tab'
    ensures WithWay(EstateOf(tab, maps, loose), EstateOf(tab', maps, loose), k, d)
  {
    hide Way;
  }

  lemma RefsCounted(l: Ledger, mem: Memory, tab: Tables, k: Node)
    requires Consistent(l, mem, tab) && k in l.maps
    ensures var h := EstateOf(tab, l.maps, l.loose);
            k in h.frames && l.maps[k].frame < |l.refs| && Refs(h, k) == l.refs[l.maps[k].frame]
  {
    hide Consistent;
    DataFrame(l, mem, tab, k);
    var h := EstateOf(tab, l.maps, l.loose);
    assert (set q | q in h.frames && h.frames[q] == h.frames[k]) == Users(l.maps, l.maps[k].frame);
  }

  /** A writable page has its frame for itself. */
  lemma AloneIs(l: Ledger, mem: Memory, tab: Tables, s: PageMap, k: Node)
    requires Good(l, mem, tab, s) && k in l.maps && l.maps[k].flags.writable
    ensures var h := EstateOf(tab, l.maps, l.loose); k in h.frames && Refs(h, k) == 1
  {
    hide Consistent, ReadsAs;
    RefsCounted(l, mem, tab, k);
    DataFrame(l, mem, tab, k);
    assert Users(l.maps, l.maps[k].frame) == {k};
  }

  /** The owner may store to a page that is writable or would be copied. */
  lemma StoreRight(l: Ledger, mem: Memory, tab: Tables, s: PageMap, k: Node)
    requires Good(l, mem, tab, s) && k in l.maps
    ensures k in s && (s[k].flags.writable <==> l.maps[k].flags.writable || l.maps[k].flags.cow)
  {
    hide Consistent, SharingOk;
  }

  lemma Stays(tab: Tables, maps: Mappings, loose: multiset<nat>, k: Node, w: Word)
    requires k in maps && w.frame == maps[k].frame && Refs(EstateOf(tab, maps, loose), k) == 1
    ensures Rehomed(EstateOf(tab, maps, loose), EstateOf(tab, maps[k := w], loose), k, 0)
  {
    hide Refs;
    assert EstateOf(tab, maps[k := w], loose).frames == EstateOf(tab, maps, loose).frames;
  }

  lemma FreeIs(l: Ledger, mem: Memory, tab: Tables, f: nat)
    requires Consistent(l, mem, tab) && f < |l.refs| && f !in l.used
    ensures Users(l.maps, f) == {} && l.loose[f] == 0
  {
    hide Tree, Ledger.Ok;
    l.Fresh(f);
  }

  lemma MovesTo(l: Ledger, mem: Memory, tab: Tables, k: Node, w: Word)
    requires Consistent(l, mem, tab) && k in l.maps && w.frame < |l.refs| && w.frame !in l.used
    requires Refs(EstateOf(tab, l.maps, l.loose), k) != 1
    ensures Rehomed(EstateOf(tab, l.maps, l.loose), EstateOf(tab, l.maps[k := w], l.loose), k, w.frame)
  {
    hide Refs, Consistent, Unused, Users;
    FreeIs(l, mem, tab, w.frame);
    UnusedIs(tab, l.maps, l.loose, w.frame);
    assert EstateOf(tab, l.maps[k := w], l.loose).frames == EstateOf(tab, l.maps, l.loose).frames[k := w.frame];
  }

  lemma TreeShape(l: Ledger, mem: Memory, tab: Tables)
    requires Consistent(l, mem, tab)
    ensures Shape(mem, tab, l.maps) && |mem| == |l.refs|
  {
  }

  lemma CutGone(tab: Tables, maps: Mappings, loose: multiset<nat>, root: nat)
    ensures EstateOf(Cut(tab, Node(root, [])), Cut(maps, Node(root, [])), loose) ==
      Gone(EstateOf(tab, maps, loose), root)
  {
    var r := Node(root, []);
    assert forall n: Node :: Under(r, n) <==> n.root == root;
    var a, b := EstateOf(Cut(tab, r), Cut(maps, r), loose), Gone(EstateOf(tab, maps, loose), root);
    assert a.tables == b.tables && a.frames == b.frames;
  }

  /** The tables above a table exist. */
  lemma {:induction false} Above(mem: Memory, tab: Tables, maps: Mappings, n: Node, j: nat)
    requires Shape(mem, tab, maps) && n in tab && j <= |n.path|
    ensures Node(n.root, n.path[..j]) in tab
    decreases |n.path|
  {
    if j == |n.path| {
      assert n.path[..j] == n.path;
    } else {
      Above(mem, tab, maps, n.Parent(), j);
      assert n.Parent().path[..j] == n.path[..j];
    }
  }

  /** A table on the way to a page is no deeper than the way goes. */
  lemma OnTheWay(mem: Memory, tab: Tables, maps: Mappings, n: Node, p: seq<nat>, d: nat)
    requires Shape(mem, tab, maps) && n in tab && n.path != [] && n.path <= p && |p| == 4
    requires d < 3 ==> Node(n.root, p[..d + 1]) !in tab
    requires d <= 3
    ensures n in Way(n.root, p, d)
  {
    var j := |n.path|;
    assert n.path == p[..j] && 1 <= j <= 3;
    if j > d {
      assert n.path[..d + 1] == p[..d + 1];
      Above(mem, tab, maps, n, d + 1);
    }
  }

  lemma WayThere(mem: Memory, tab: Tables, maps: Mappings, root: nat, p: seq<nat>, d: nat)
    requires Shape(mem, tab, maps) && d <= |p| && (d == 0 || Node(root, p[..d]) in tab)
    ensures Way(root, p, d) <= tab.Keys
  {
    forall n | n in Way(root, p, d) ensures n in tab {
      Above(mem, tab, maps, Node(root, p[..d]), |n.path|);
      assert p[..d][..|n.path|] == p[..|n.path|];
    }
  }

  /** The new tables of an address space on the way to one page are the first of it. */
  lemma WayTables(mem: Memory, tab: Tables, tab': Tables, maps: Mappings, root: nat, p: seq<nat>, d: nat)
    requires Shape(mem, tab', maps) && tab.Keys <= tab'.Keys && |p| == 4 && d <= 3
    requires forall n :: n in tab' && n !in tab ==> n.root == root && n.path != [] && n.path <= p
    requires d == 0 || Node(root, p[..d]) in tab'
    requires d < 3 ==> Node(root, p[..d + 1]) !in tab'
    ensures tab'.Keys == tab.Keys + Way(root, p, d)
  {
    hide Shape, Way;
    forall n | n in tab' && n !in tab ensures n in Way(root, p, d) {
      OnTheWay(mem, tab', maps, n, p, d);
    }
    WayThere(mem, tab', maps, root, p, d);
  }

  /** How far the tables go on a way that breaks off. */
  lemma BreaksAt(tab: Tables, c: Node) returns (d: nat)
    requires WayBroken(tab, c) && |c.path| == 4
    ensures d < 3 && (d == 0 || Node(c.root, c.path[..d]) in tab) && Node(c.root, c.path[..d + 1]) !in tab
  {
    var e :| 1 <= e <= 3 && e <= |c.path| && Node(c.root, c.path[..e]) !in tab;
    d := if Node(c.root, c.path[..1]) !in tab then 0 else if Node(c.root, c.path[..2]) !in tab then 1 else 2;
  }

  lemma MapTables(l: Ledger, mem: Memory, tab: Tables, l': Ledger, mem': Memory, tab': Tables, maps': Mappings, k: Node)
    returns (d: nat)
    requires Grew(k.root, l, mem, tab, l', mem', tab') && OnWay(tab, tab', k) && Shape(mem', tab', maps') && k.Page?()
    requires k in maps' || WayBroken(tab', k)
    ensures d <= 3 && tab'.Keys == tab.Keys + Way(k.root, k.path, d)
    ensures k in maps' ==> d == 3
    ensures k !in maps' ==> d < 3 && Node(k.root, k.path[..d + 1]) !in tab'
  {
    if k in maps' {
      hide Grew, OnWay;
      d := 3;
    } else {
      hide Shape, Grew, OnWay;
      d := BreaksAt(tab', k);
    }
    WayTables(mem', tab, tab', maps', k.root, k.path, d);
  }

  // ----- the estate after a fork -----

  lemma TrunkThere(l: Ledger, mem: Memory, tab: Tables, s: PageMap, root: nat)
    requires Good(l, mem, tab, s)
    ensures forall n :: n in Trunk(s.Keys, root) ==> n in tab
  {
    hide Good;
    forall n | n in Trunk(s.Keys, root) ensures n in tab {
      assert n.path in Stems(s, root);
      StemsAreTables(l, mem, tab, s, root, n.path);
    }
  }

  lemma StemTable(l: Ledger, mem: Memory, tab: Tables, s: PageMap, n: Node)
    requires Good(l, mem, tab, s) && n in tab && n.path != [] && OnStem(s, n)
    ensures n in Trunk(s.Keys, n.root)
  {
    hide Ledger.Ok, SharingOk, ReadsAs;
    var q :| q in s && q.root == n.root && n.path <= q.path;
    assert n.path == q.path[..|n.path|] && 1 <= |n.path| <= 3;
  }

  lemma GoodShape(l: Ledger, mem: Memory, tab: Tables, s: PageMap)
    requires Good(l, mem, tab, s)
    ensures Shape(mem, tab, l.maps) && l.maps.Keys == s.Keys
  {
  }

  /** The child's tables are those its pages need, and the first on the way to the page it stopped at. */
  lemma ForkTables(l: Ledger, mem: Memory, tab: Tables, tab': Tables, s: PageMap, child: nat, p: seq<nat>, d: nat)
    requires Good(l, mem, tab', s) && tab.Keys <= tab'.Keys && Wanted(tab, tab', s, child, p)
    requires if p == [] then d == 0 else |p| == 4 && d < 3 && Node(child, p[..d + 1]) !in tab'
    requires d == 0 || Node(child, p[..d]) in tab'
    ensures tab'.Keys == tab.Keys + Trunk(s.Keys, child) + Way(child, p, d)
  {
    GoodShape(l, mem, tab', s);
    hide Good, Shape, Way, Trunk, OnStem;
    TrunkThere(l, mem, tab', s, child);
    forall n | n in tab' && n !in tab ensures n in Trunk(s.Keys, child) + Way(child, p, d) {
      if OnStem(s, n) {
        StemTable(l, mem, tab', s, n);
      } else {
        OnTheWay(mem, tab', l.maps, n, p, d);
      }
    }
    WayThere(mem, tab', l.maps, child, p, d);
  }

  /** The estate of a fork, from its frames and its tables. */
  lemma CopyIs(h: Estate, tab: Tables, maps: Mappings, loose: multiset<nat>, parent: nat, child: nat, ps: set<seq<nat>>,
               extra: set<Node>)
    requires (map k | k in maps :: maps[k].frame) == Copy(h, parent, child, ps).frames
    requires tab.Keys == h.tables + {Node(child, [])} + Trunk(maps.Keys, child) + extra
    ensures var c := Copy(h, parent, child, ps);
            EstateOf(tab, maps, loose) == c.(tables := c.tables + extra, loose := loose) && c.loose == h.loose
  {
    hide Trunk;
    var c := Copy(h, parent, child, ps);
    assert c.frames.Keys == maps.Keys;
    assert c.tables == h.tables + {Node(child, [])} + Trunk(c.frames.Keys, child);
  }

  lemma ForkedPages(s: PageMap, s': PageMap, maps: Mappings, maps': Mappings, h: Estate, parent: nat, child: nat)
    requires Forked(s, s', parent, child) && s.Keys == maps.Keys == h.frames.Keys && s'.Keys == maps'.Keys
    ensures forall q: Node :: q in maps' <==> q in maps || (q.root == child && q.path in Paths(h, parent))
  {
    forall q: Node ensures q in maps' <==> q in maps || (q.root == child && q.path in Paths(h, parent)) {
      if q.path in Paths(h, parent) {
        assert Node(parent, q.path) in maps;
      }
    }
  }

  /** A fork that came to its end. */
  lemma ForkDone(l: Ledger, mem: Memory, tab: Tables, maps: Mappings, loose: multiset<nat>, tab1: Tables, s: PageMap,
                 tab': Tables, s': PageMap, parent: nat, child: nat)
    requires Good(l, mem, tab', s') && l.loose == loose && Shares(maps, l.maps, parent, child)
    requires tab1 == tab[Node(child, []) := child] && tab1.Keys <= tab'.Keys && Wanted(tab1, tab', s', child, [])
    requires Forked(s, s', parent, child) && s.Keys == maps.Keys
    ensures var h := EstateOf(tab, maps, loose);
            EstateOf(tab', l.maps, loose) == Copy(h, parent, child, Paths(h, parent))
  {
    hide Trunk, Shares, Wanted, Good, Shape, Copy, Paths, Forked, EstateOf;
    var h := EstateOf(tab, maps, loose);
    EstateParts(tab, maps, loose);
    GoodShape(l, mem, tab', s');
    ForkedPages(s, s', maps, l.maps, h, parent, child);
    ForkFrames(maps, l.maps, h, parent, child, Paths(h, parent));
    ForkTables(l, mem, tab1, tab', s', child, [], 0);
    assert Way(child, [], 0) == {};
    assert tab1.Keys == tab.Keys + {Node(child, [])};
    CopyIs(h, tab', l.maps, loose, parent, child, Paths(h, parent), {});
    assert Copy(h, parent, child, Paths(h, parent)).tables + {} == Copy(h, parent, child, Paths(h, parent)).tables;
  }

  lemma EstateParts(tab: Tables, maps: Mappings, loose: multiset<nat>)
    ensures var h := EstateOf(tab, maps, loose);
            h.tables == tab.Keys && h.loose == loose && h.frames == map k | k in maps :: maps[k].frame
  {
  }

  lemma StopTables(l: Ledger, mem: Memory, tab: Tables, tab1: Tables, tab': Tables, s: PageMap, child: nat, p: seq<nat>)
    returns (d: nat)
    requires Good(l, mem, tab', s) && Wanted(tab1, tab', s, child, p) && |p| == 4 && WayBroken(tab', Node(child, p))
    requires tab1 == tab[Node(child, []) := child] && tab1.Keys <= tab'.Keys
    ensures d < 3 && Node(child, p[..d + 1]) !in tab'
    ensures tab'.Keys == tab.Keys + {Node(child, [])} + Trunk(l.maps.Keys, child) + Way(child, p, d)
  {
    hide Trunk, Wanted, Good, Way, WayBroken, Shape;
    GoodShape(l, mem, tab', s);
    d := BreaksAt(tab', Node(child, p));
    ForkTables(l, mem, tab1, tab', s, child, p, d);
    assert tab1.Keys == tab.Keys + {Node(child, [])};
  }

  lemma StopIs(h: Estate, tab: Tables, maps: Mappings, loose: multiset<nat>, parent: nat, child: nat, k: Node, d: nat)
    requires k in h.frames && k.root == parent && |k.path| == 4 && loose == h.loose + multiset{h.frames[k]} && d < 3
    requires (map q | q in maps :: maps[q].frame) == Copy(h, parent, child, Early(h, parent, k)).frames
    requires tab.Keys == h.tables + {Node(child, [])} + Trunk(maps.Keys, child) + Way(child, k.path, d)
    requires Node(child, k.path[..d + 1]) !in tab
    ensures Stopped(h, EstateOf(tab, maps, loose), parent, child, k, d)
  {
    hide Trunk, Copy, Early, Way;
    CopyIs(h, tab, maps, loose, parent, child, Early(h, parent, k), Way(child, k.path, d));
  }

  /** A fork that ran out of memory. */
  lemma ForkStopped(l: Ledger, mem: Memory, tab: Tables, maps: Mappings, loose: multiset<nat>, tab1: Tables, s: PageMap,
                    tab': Tables, s': PageMap, parent: nat, child: nat, k: Node) returns (d: nat)
    requires Good(l, mem, tab', s') && Shares(maps, l.maps, parent, child) && Pages(s')
    requires tab1 == tab[Node(child, []) := child] && tab1.Keys <= tab'.Keys && Wanted(tab1, tab', s', child, k.path)
    requires HalfCopied(s, s', Node(parent, []), k, child) && s.Keys == maps.Keys && NoneBelow(s, child, [])
    requires WayBroken(tab', Node(child, k.path)) && k in maps && l.loose == loose + multiset{maps[k].frame}
    ensures Stopped(EstateOf(tab, maps, loose), EstateOf(tab', l.maps, l.loose), parent, child, k, d)
  {
    hide Trunk, Shares, Wanted, Good, Shape, Copy, Early, Way, WayBroken, HalfCopied, Pages, NoneBelow, EstateOf,
         Stopped;
    var h := EstateOf(tab, maps, loose);
    EstateParts(tab, maps, loose);
    GoodShape(l, mem, tab', s');
    HalfPages(s, s', parent, child, k);
    d := StopTables(l, mem, tab, tab1, tab', s', child, k.path);
    HalfFrames(s, s', maps, l.maps, h, parent, child, k);
    StopIs(h, tab', l.maps, l.loose, parent, child, k, d);
  }

  lemma HalfFrames(s: PageMap, s': PageMap, maps: Mappings, maps': Mappings, h: Estate, parent: nat, child: nat,
                   k: Node)
    requires Shares(maps, maps', parent, child) && h.frames == map q | q in maps :: maps[q].frame
    requires HalfCopied(s, s', Node(parent, []), k, child) && s.Keys == maps.Keys && s'.Keys == maps'.Keys
    requires NoneBelow(s, child, []) && forall q: Node :: q in s' ==> q.path != []
    ensures (map q | q in maps' :: maps'[q].frame) == Copy(h, parent, child, Early(h, parent, k)).frames
  {
    hide HalfCopied, Shares, Copy, Early, NoneBelow;
    EarlyPages(s, s', maps, maps', h, parent, child, k);
    ForkFrames(maps, maps', h, parent, child, Early(h, parent, k));
  }

  lemma HalfPages(s: PageMap, s': PageMap, parent: nat, child: nat, k: Node)
    requires HalfCopied(s, s', Node(parent, []), k, child) && Pages(s')
    ensures k.root == parent && k.Page?() && forall q: Node :: q in s' ==> q.path != []
  {
  }

  lemma EarlyPages(s: PageMap, s': PageMap, maps: Mappings, maps': Mappings, h: Estate, parent: nat, child: nat,
                   k: Node)
    requires HalfCopied(s, s', Node(parent, []), k, child) && s.Keys == maps.Keys && s'.Keys == maps'.Keys
    requires NoneBelow(s, child, []) && h.frames.Keys == maps.Keys && forall q: Node :: q in s' ==> q.path != []
    ensures forall q: Node :: q in maps' <==> q in maps || (q.root == child && q.path in Early(h, parent, k))
  {
    hide Sooner;
    forall q: Node ensures q in maps' <==> q in maps || (q.root == child && q.path in Early(h, parent, k)) {
      assert [] <= q.path;
      var p := Node(parent, q.path);
      if q.path in Early(h, parent, k) {
        assert p in s && Sooner(p.path, k.path);
        assert p in s';
      }
    }
  }

  /** The frames of the child are those of the pages it shares. */
  lemma ForkFrames(maps: Mappings, maps': Mappings, h: Estate, parent: nat, child: nat, ps: set<seq<nat>>)
    requires Shares(maps, maps', parent, child) && h.frames == map k | k in maps :: maps[k].frame
    requires forall q: Node :: q in maps' <==> q in maps || (q.root == child && q.path in ps)
    ensures (map k | k in maps' :: maps'[k].frame) == Copy(h, parent, child, ps).frames
  {
    var a, b := map k | k in maps' :: maps'[k].frame, Copy(h, parent, child, ps).frames;
    forall q: Node ensures q in a <==> q in b {
      if q.root == child && q.path in ps {
        assert q == Node(child, q.path);
      }
    }
  }

  // ----- counting frames -----

  /** Every frame in use is the kernel's, a table's, or in the estate's data. */
  lemma FrameCount(l: Ledger, mem: Memory, tab: Tables, first: set<nat>)
    requires Consistent(l, mem, tab) && (forall f: nat :: f in l.used ==> f < |l.refs|)
      && (forall f: nat :: f in l.loose ==> f < |l.refs|)
    requires forall f: nat :: f in first <==> f < |l.refs| && f in l.reserved
    ensures |l.used| == |first| + Size(EstateOf(tab, l.maps, l.loose))
  {
    hide Tree, Ledger.Ok;
    var data := Data(EstateOf(tab, l.maps, l.loose));
    forall f: nat ensures f in data <==> f < |l.refs| && (Users(l.maps, f) != {} || l.loose[f] > 0) {
      DataIs(tab, l.maps, l.loose, f);
    }
    TablesUsed(l, mem, tab);
    forall f | f in tab.Values ensures f < |l.refs| {
      TableFrame(mem, tab, l.maps, f);
    }
    UsedSplits(l, first, tab.Values, data);
  }

  lemma TableFrame(mem: Memory, tab: Tables, maps: Mappings, f: nat)
    requires Tree(mem, tab, maps) && f in tab.Values
    ensures f < |mem|
  {
  }

  lemma DataIs(tab: Tables, maps: Mappings, loose: multiset<nat>, f: nat)
    ensures f in Data(EstateOf(tab, maps, loose)) <==> Users(maps, f) != {} || loose[f] > 0
  {
    var h := EstateOf(tab, maps, loose);
    if Users(maps, f) != {} {
      var k :| k in Users(maps, f);
      assert h.frames[k] == f;
    }
    if f in h.frames.Values {
      var k :| k in h.frames && h.frames[k] == f;
      assert k in Users(maps, f);
    }
  }

  lemma UsedSplits(l: Ledger, first: set<nat>, tables: set<nat>, data: set<nat>)
    requires l.Ok() && l.tables == tables && (forall f: nat :: f in l.used ==> f < |l.refs|)
      && (forall f: nat :: f in tables ==> f < |l.refs|)
    requires forall f: nat :: f in first <==> f < |l.refs| && f in l.reserved
    requires forall f: nat :: f in data <==> f < |l.refs| && (Users(l.maps, f) != {} || l.loose[f] > 0)
    ensures |l.used| == |first| + |tables| + |data|
  {
    hide Users;
    forall f: nat ensures f in l.used <==> f in first || f in tables || f in data {
      if f < |l.refs| {
        assert l.FrameOk(f);
      }
    }
    forall f: nat | f < |l.refs| ensures !(f in first && f in tables) && !(f in data && (f in first || f in tables)) {
      assert l.FrameOk(f);
    }
    assert l.used == first + tables + data;
    assert first !! tables && (first + tables) !! data;
  }

  /** The tables missing on the way to a page. */
  ghost function Missing(h: Estate, k: Node): set<Node> { Way(k.root, k.path, 3) - h.tables }

  /** A page takes its frame and the tables missing on its way. */
  lemma PageSize(h: Estate, k: Node, f: nat)
    requires k !in h.frames && Unused(h, f)
    ensures Size(WithPage(h, k, f)) == Size(h) + 1 + |Missing(h, k)|
  {
    hide Way;
    var h' := WithPage(h, k, f);
    assert h'.tables == h.tables + Missing(h, k);
    PutFrame(h, k, f);
    assert Data(h') == Data(h) + {f};
  }

  lemma PutFrame(h: Estate, k: Node, f: nat)
    requires k !in h.frames
    ensures h.frames[k := f].Values == h.frames.Values + {f}
  {
    var after := h.frames[k := f];
    forall g | g in h.frames.Values ensures g in after.Values {
      var q :| q in h.frames && h.frames[q] == g;
      assert after[q] == g;
    }
    assert after[k] == f;
  }

  /** Tables that lead nowhere yet are fewer than those missing. */
  lemma WaySize(h: Estate, h': Estate, k: Node, d: nat)
    requires WithWay(h, h', k, d)
    ensures Size(h) <= Size(h') < Size(h) + |Missing(h, k)|
  {
    var more, n := Way(k.root, k.path, d) - h.tables, Node(k.root, k.path[..d + 1]);
    assert h'.tables == h.tables + more && Data(h') == Data(h);
    assert n in Missing(h, k) && n !in more;
    SubsetSize(more + {n}, Missing(h, k));
  }

  /** A page that moves leaves its frame to the other references. */
  lemma MoveSize(h: Estate, h': Estate, k: Node, g: nat)
    requires Rehomed(h, h', k, g)
    ensures Size(h') == Size(h) + if Refs(h, k) == 1 then 0 else 1
  {
    if Refs(h, k) != 1 {
      var f, us := h.frames[k], set q | q in h.frames && h.frames[q] == h.frames[k];
      if us == {k} {
        assert |us| == 1;
        assert f in h.loose;
      } else {
        assert k in us;
        var q :| q in us && q != k;
        assert h'.frames[q] == f;
      }
      forall x | x in h.frames.Values && x != f ensures x in h'.frames.Values {
        var q :| q in h.frames && h.frames[q] == x;
        assert h'.frames[q] == x;
      }
      assert h'.frames[k] == g;
      assert Data(h') == Data(h) + {g};
    }
  }

  lemma SameFrames(h: Estate, parent: nat, child: nat, ps: set<seq<nat>>)
    requires forall p :: p in ps ==> Node(parent, p) in h.frames
    ensures Copy(h, parent, child, ps).frames.Values == h.frames.Values
  {
    hide Trunk;
    var h' := Copy(h, parent, child, ps);
    forall f | f in h.frames.Values ensures f in h'.frames.Values {
      var q :| q in h.frames && h.frames[q] == f;
      assert h'.frames[q] == f;
    }
    forall f | f in h'.frames.Values ensures f in h.frames.Values {
      var q :| q in h'.frames && h'.frames[q] == f;
      if q !in h.frames {
        assert q.path in ps;
      }
    }
  }

  lemma CopyParts(h: Estate, parent: nat, child: nat, ps: set<seq<nat>>)
    ensures var c := Copy(h, parent, child, ps);
            c.tables == h.tables + ({Node(child, [])} + Trunk(c.frames.Keys, child)) && c.loose == h.loose
    ensures forall n :: n in Trunk(Copy(h, parent, child, ps).frames.Keys, child) ==> n.root == child && n.path != []
  {
  }

  /** A fork takes the child's top table and the tables its pages need. */
  lemma ForkSize(h: Estate, parent: nat, child: nat)
    requires (forall n :: n in h.tables ==> n.root != child) && (forall q :: q in h.frames ==> q.root != child)
      && forall q :: q in h.frames ==> |q.path| == 4
    ensures Size(Copy(h, parent, child, Paths(h, parent))) == Size(h) + 1 + |Trunk(h.frames.Keys, parent)|
  {
    hide Trunk, Copy;
    var ps := Paths(h, parent);
    assert forall p :: p in ps ==> Node(parent, p) in h.frames;
    hide Paths;
    TrunksMatch(h, parent, child);
    SameFrames(h, parent, child, ps);
    CopyParts(h, parent, child, ps);
    var h' := Copy(h, parent, child, ps);
    assert h.tables !! {Node(child, [])} + Trunk(h'.frames.Keys, child);
    assert Data(h') == Data(h);
  }

  lemma TrunksMatch(h: Estate, parent: nat, child: nat)
    requires (forall q :: q in h.frames ==> q.root != child) && forall q :: q in h.frames ==> |q.path| == 4
    ensures |Trunk(Copy(h, parent, child, Paths(h, parent)).frames.Keys, child)| == |Trunk(h.frames.Keys, parent)|
  {
    var h' := Copy(h, parent, child, Paths(h, parent));
    var src, dst := Trunk(h.frames.Keys, parent), Trunk(h'.frames.Keys, child);
    var ps := set n | n in src :: n.path;
    hide Copy, Trunk, Paths;
    forall n | n in src ensures n == Node(parent, n.path) {
      var q, d := TrunkOf(h.frames.Keys, parent, n);
    }
    CountPaths(src, ps, parent);
    forall n | n in dst ensures n == Node(child, n.path) && n.path in ps {
      var q, d := TrunkOf(h'.frames.Keys, child, n);
      CopyHas(h, parent, child, q.path);
      InTrunk(h.frames.Keys, parent, Node(parent, q.path), d);
    }
    forall p | p in ps ensures Node(child, p) in dst {
      var n :| n in src && n.path == p;
      var q, d := TrunkOf(h.frames.Keys, parent, n);
      CopyHas(h, parent, child, q.path);
      InTrunk(h'.frames.Keys, child, Node(child, q.path), d);
    }
    CountPaths(dst, ps, child);
  }

  lemma TrunkOf(pages: set<Node>, root: nat, n: Node) returns (q: Node, d: nat)
    requires n in Trunk(pages, root)
    ensures q in pages && q.root == root && 1 <= d <= 3 && d <= |q.path| && n == Node(root, q.path[..d])
  {
    q, d :| q in pages && q.root == root && 1 <= d <= 3 && d <= |q.path| && n == Node(root, q.path[..d]);
  }

  lemma InTrunk(pages: set<Node>, root: nat, q: Node, d: nat)
    requires q in pages && q.root == root && 1 <= d <= 3 && d <= |q.path|
    ensures Node(root, q.path[..d]) in Trunk(pages, root)
  {
  }

  /** The copy has the child's page exactly if the parent has it. */
  lemma CopyHas(h: Estate, parent: nat, child: nat, path: seq<nat>)
    requires forall q :: q in h.frames ==> q.root != child
    ensures Node(child, path) in Copy(h, parent, child, Paths(h, parent)).frames <==> Node(parent, path) in h.frames
  {
    assert path in Paths(h, parent) <==> Node(parent, path) in h.frames;
  }

  /** The tables of an address space. */
  ghost function Top(h: Estate, root: nat): set<Node> { set n | n in h.tables && n.root == root }

  /** The frames only this address space refers to. */
  ghost function Own(h: Estate, root: nat): set<nat> {
    set f | f in h.frames.Values && f !in h.loose && forall q :: q in h.frames && h.frames[q] == f ==> q.root == root
  }

  /** A destruction gives back its tables and the frames nobody else refers to. */
  lemma GoneSize(h: Estate, root: nat)
    ensures Size(Gone(h, root)) + |Top(h, root)| + |Own(h, root)| == Size(h)
  {
    hide Own, Data;
    TwoParts(h.tables, Gone(h, root).tables, Top(h, root));
    hide Gone, Top;
    forall f ensures f in Data(h) <==> f in Data(Gone(h, root)) || f in Own(h, root)
      ensures !(f in Data(Gone(h, root)) && f in Own(h, root))
    {
      OwnOrOther(h, root, f);
    }
    TwoParts(Data(h), Data(Gone(h, root)), Own(h, root));
  }

  lemma TwoParts<T>(all: set<T>, a: set<T>, b: set<T>)
    requires forall x :: (x in all <==> x in a || x in b) && !(x in a && x in b)
    ensures |all| == |a| + |b|
  {
    assert all == a + b && a !! b;
  }

  lemma OwnOrOther(h: Estate, root: nat, f: nat)
    ensures f in Data(h) <==> f in Data(Gone(h, root)) || f in Own(h, root)
    ensures !(f in Data(Gone(h, root)) && f in Own(h, root))
  {
    var h' := Gone(h, root);
    if f in h.frames.Values && f !in Own(h, root) && f !in h.loose {
      var q :| q in h.frames && h.frames[q] == f && q.root != root;
      assert h'.frames[q] == f;
    }
    if f in h'.frames.Values {
      var q :| q in h'.frames && h'.frames[q] == f;
      assert h.frames[q] == f;
    }
  }

  // ----- where a fork stops -----

  lemma {:induction false} SoonerTotal(p: seq<nat>, q: seq<nat>, d: nat)
    requires |p| == |q| && d <= |p| && p[..d] == q[..d]
    ensures p == q || Sooner(p, q) || Sooner(q, p)
    decreases |p| - d
  {
    if d == |p| {
      assert p == p[..d] && q == q[..d];
    } else if p[d] == q[d] {
      assert p[..d + 1] == p[..d] + [p[d]] && q[..d + 1] == q[..d] + [q[d]];
      SoonerTotal(p, q, d + 1);
    } else if p[d] < q[d] {
      assert Sooner(p, q);
    } else {
      assert Sooner(q, p);
    }
  }

  lemma SoonerTrans(p: seq<nat>, q: seq<nat>, r: seq<nat>)
    requires Sooner(p, q) && Sooner(q, r)
    ensures Sooner(p, r)
  {
    var d: nat :| d < |p| && d < |q| && p[..d] == q[..d] && p[d] < q[d];
    var e: nat :| e < |q| && e < |r| && q[..e] == r[..e] && q[e] < r[e];
    var f := if d < e then d else e;
    assert p[..f] == p[..d][..f] && q[..f] == q[..d][..f] && q[..f] == q[..e][..f] && r[..f] == r[..e][..f];
    if d < e {
      assert q[d] == q[..e][d] == r[..e][d] == r[d];
    } else if e < d {
      assert p[e] == p[..d][e] == q[..d][e] == q[e];
    }
    assert p[f] < r[f];
  }

  /** A fork that stops at a later page has more tables. */
  lemma LaterMore(h: Estate, h1: Estate, h2: Estate, parent: nat, child: nat, k1: Node, d1: nat, k2: Node, d2: nat)
    requires Stopped(h, h1, parent, child, k1, d1) && Stopped(h, h2, parent, child, k2, d2)
    requires Sooner(k1.path, k2.path) || (k1 == k2 && d1 < d2)
    ensures |h1.tables| < |h2.tables|
  {
    hide Copy, Early, Way, Sooner;
    var n := Node(child, k1.path[..d1 + 1]);
    EarlyTables(h, parent, child, k1, d1, k2, d2);
    assert h1.tables <= h2.tables && n in h2.tables && n !in h1.tables;
    SubsetSize(h1.tables + {n}, h2.tables);
  }

  lemma EarlyTables(h: Estate, parent: nat, child: nat, k1: Node, d1: nat, k2: Node, d2: nat)
    requires k1 in h.frames && k1.root == parent && |k1.path| == 4 == |k2.path| && d1 < 3 && d2 < 3
    requires Sooner(k1.path, k2.path) || (k1 == k2 && d1 < d2)
    ensures var a, b := Copy(h, parent, child, Early(h, parent, k1)), Copy(h, parent, child, Early(h, parent, k2));
            && a.tables + Way(child, k1.path, d1) <= b.tables + Way(child, k2.path, d2)
            && Node(child, k1.path[..d1 + 1]) in b.tables + Way(child, k2.path, d2)
  {
    hide Sooner;
    var a, b := Copy(h, parent, child, Early(h, parent, k1)), Copy(h, parent, child, Early(h, parent, k2));
    if !Sooner(k1.path, k2.path) {
      WayMore(child, k1.path, d1 + 1, d2);
      WayMore(child, k1.path, d1, d2);
    } else {
      forall p | p in Early(h, parent, k1) ensures p in Early(h, parent, k2) {
        SoonerTrans(p, k1.path, k2.path);
      }
      assert a.frames.Keys <= b.frames.Keys;
      TrunkMore(a.frames.Keys, b.frames.Keys, child);
      var c := Node(child, k1.path);
      assert k1.path in Early(h, parent, k2) && c in b.frames;
      assert forall j :: 1 <= j <= 3 ==> Node(child, c.path[..j]) in Trunk(b.frames.Keys, child);
    }
  }

  lemma WayMore(root: nat, p: seq<nat>, d: nat, e: nat)
    requires d <= e <= |p|
    ensures Way(root, p, d) <= Way(root, p, e) && (0 < d ==> Node(root, p[..d]) in Way(root, p, e))
  {
    assert 0 < d ==> Node(root, p[..d]) in Way(root, p, d);
  }

  lemma TrunkMore(a: set<Node>, b: set<Node>, root: nat)
    requires a <= b
    ensures Trunk(a, root) <= Trunk(b, root)
  {
  }

  /** So the frames there are determine the page a fork stops at, and the tables it leaves. */
  lemma StopsOnce(h: Estate, h1: Estate, h2: Estate, parent: nat, child: nat, k1: Node, d1: nat, k2: Node, d2: nat)
    requires Stopped(h, h1, parent, child, k1, d1) && Stopped(h, h2, parent, child, k2, d2)
    requires |h1.tables| == |h2.tables|
    ensures k1 == k2 && d1 == d2 && h1 == h2
  {
    hide Copy, Early, Way, Sooner;
    SoonerTotal(k1.path, k2.path, 0);
    if Sooner(k1.path, k2.path) || (k1 == k2 && d1 < d2) {
      LaterMore(h, h1, h2, parent, child, k1, d1, k2, d2);
    } else if Sooner(k2.path, k1.path) || (k1 == k2 && d2 < d1) {
      LaterMore(h, h2, h1, parent, child, k2, d2, k1, d1);
    }
  }
}
