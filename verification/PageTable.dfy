/**
 Four-level page tables in physical memory (kernel/memory/user_vm.c).

 Memory is untyped: a frame is 512 64-bit words, and a word is read either as
 data or as a page-table entry.  A word is represented by the two parts the code
 cuts it into, the frame number under PTE_ADDR_MASK and the remaining flag bits.
 A user virtual page is the path of its four table indices.
 */
module PageTable {

  /** The bits outside PTE_ADDR_MASK; `rest` stands for those the code never looks at. */
  datatype Flags = Flags(present: bool, writable: bool, user: bool, huge: bool, cow: bool, rest: nat)
  datatype Word = Word(frame: nat, flags: Flags)
  type Page = p: seq<Word> | |p| == 512 witness seq(512, _ => ZERO)
  type Memory = seq<Page>

  const ZERO := Word(0, Flags(false, false, false, false, false, 0))
  const ZERO_PAGE: Page := seq(512, _ => ZERO)
  const TABLE_FLAGS := Flags(true, true, true, false, false, 0)

  /** A position in the tables of the address space `root`: a table for up to three indices, a page for four. */
  datatype Node = Node(root: nat, path: seq<nat>) {
    function Child(i: nat): Node { Node(root, path + [i]) }

    function Parent(): Node
      requires path != []
    {
      Node(root, path[..|path| - 1])
    }

    function Last(): nat
      requires path != []
    {
      path[|path| - 1]
    }

    /** Every index is in range; the upper half of the top table belongs to the kernel. */
    predicate Proper() {
      |path| <= 4 && (forall k :: 0 <= k < |path| ==> path[k] < 512) && (path != [] ==> path[0] < 256)
    }

    predicate Has(i: nat) {
      |path| < 4 && i < (if path == [] then 256 else 512)
    }

    predicate Page?() { |path| == 4 && Proper() }
  }

  type Tables = map<Node, nat>   // the frame holding each table
  type Mappings = map<Node, Word>  // the entry of each mapped page

  /** The entry for `i` in the table at node `n` says what the maps say. */
  ghost predicate EntryOk(mem: Memory, tab: Tables, maps: Mappings, n: Node, i: nat)
    requires n in tab && tab[n] < |mem| && n.Has(i)
  {
    var w := mem[tab[n]][i];
    var c := n.Child(i);
    if |n.path| < 3 then
      && (w.flags.present <==> c in tab)
      && (c in tab ==> w.frame == tab[c] && !w.flags.huge && w.flags.user && w.flags.writable)
    else
      (w.flags.present <==> c in maps) && (c in maps ==> w == maps[c])
  }

  ghost predicate Shape(mem: Memory, tab: Tables, maps: Mappings) {
    && (forall n :: n in tab ==> n.Proper() && |n.path| <= 3 && tab[n] < |mem|)
    && (forall n :: n in tab && n.path == [] ==> tab[n] == n.root)
    && (forall n :: n in tab && n.path != [] ==> n.Parent() in tab)
    && (forall k :: k in maps ==> k.Page?() && k.Parent() in tab)
    && (forall m, n :: m in tab && n in tab && m != n ==> tab[m] != tab[n])
  }

  /** The tables in memory are disjoint trees and spell out exactly `maps`. */
  ghost predicate Tree(mem: Memory, tab: Tables, maps: Mappings) {
    && Shape(mem, tab, maps)
    && forall n, i: nat :: n in tab && n.Has(i) ==> EntryOk(mem, tab, maps, n, i)
  }

  lemma ChildParent(n: Node, i: nat)
    ensures n.Child(i).Parent() == n && n.Child(i).Last() == i
  {
    assert n.Child(i).path[..|n.path|] == n.path;
  }

  lemma ParentChild(c: Node)
    requires c.path != []
    ensures c.Parent().Child(c.Last()) == c
  {
    assert c.path[..|c.path| - 1] + [c.path[|c.path| - 1]] == c.path;
  }

  /** The ancestors of a page, one index at a time. */
  lemma PathStep(k: Node, d: nat)
    requires k.Page?() && d < 4
    ensures Node(k.root, k.path[..d]).Child(k.path[d]) == Node(k.root, k.path[..d + 1])
    ensures Node(k.root, k.path[..d]).Has(k.path[d])
  {
    assert k.path[..d] + [k.path[d]] == k.path[..d + 1];
  }

  lemma ChildInjective(m: Node, i: nat, n: Node, j: nat)
    requires m.Child(i) == n.Child(j)
    ensures m == n && i == j
  {
    ChildParent(m, i);
    ChildParent(n, j);
  }

  lemma ProperChild(n: Node, i: nat)
    requires n.Proper() && n.Has(i)
    ensures n.Child(i).Proper()
  {
  }

  lemma ProperParent(c: Node)
    requires c.Proper() && c.path != []
    ensures c.Parent().Proper() && c.Parent().Has(c.Last())
  {
  }

  // ----- the walk -----

  /** user_vm_get_pte from a table downward: the frame and index of the leaf entry. */
  datatype Slot = NoSlot | Slot(frame: nat, index: nat)

  function Walk(mem: Memory, table: nat, path: seq<nat>): (s: Slot)
    requires 1 <= |path| <= 4
    decreases |path|
  {
    if table >= |mem| || path[0] >= 512 then NoSlot
    else if |path| == 1 then Slot(table, path[0])
    else
      var w := mem[table][path[0]];
      if !w.flags.present then NoSlot
      else if |path| < 4 && w.flags.huge then NoSlot
      else Walk(mem, w.frame, path[1..])
  }

  /** The walk finds a page's entry exactly when its last table exists, and it is the right one. */
  lemma {:induction false} WalkFinds(mem: Memory, tab: Tables, maps: Mappings, n: Node, rest: seq<nat>)
    requires Tree(mem, tab, maps) && n in tab
    requires Node(n.root, n.path + rest).Page?() && 1 <= |rest|
    ensures var leaf := Node(n.root, n.path + rest).Parent();
            Walk(mem, tab[n], rest) == if leaf in tab then Slot(tab[leaf], rest[|rest| - 1]) else NoSlot
    decreases |rest|
  {
    var page := Node(n.root, n.path + rest);
    assert n.Has(rest[0]) by { assert page.path[|n.path|] == rest[0]; assert n.path == [] ==> page.path[0] == rest[0]; }
    assert EntryOk(mem, tab, maps, n, rest[0]);
    hide Tree, Shape;
    if |rest| == 1 {
      assert page == n.Child(rest[0]);
      ChildParent(n, rest[0]);
    } else {
      var c := n.Child(rest[0]);
      assert c.path + rest[1..] == page.path;
      if c in tab {
        WalkFinds(mem, tab, maps, c, rest[1..]);
      } else {
        NothingBelow(mem, tab, maps, c, page.Parent());
      }
    }
  }

  /** The leaf entry of the mapped page `k` is word `i` of the frame `t`. */
  ghost predicate Locates(mem: Memory, tab: Tables, maps: Mappings, k: Node, t: nat, i: nat) {
    && k in maps && k.Page?() && k.Parent() in tab && tab[k.Parent()] == t && k.Last() == i
    && t < |mem| && i < 512 && mem[t][i] == maps[k] && maps[k].flags.present
  }

  lemma PresentEntry(mem: Memory, tab: Tables, maps: Mappings, k: Node)
    requires Tree(mem, tab, maps) && k in maps
    ensures Locates(mem, tab, maps, k, tab[k.Parent()], k.Last())
  {
    ParentChild(k);
    assert EntryOk(mem, tab, maps, k.Parent(), k.Last());
  }

  ghost predicate Under(n: Node, m: Node) { n.root == m.root && n.path <= m.path }

  /** Below a node that has no table there are neither tables nor pages. */
  lemma {:induction false} NothingBelow(mem: Memory, tab: Tables, maps: Mappings, n: Node, m: Node)
    requires Shape(mem, tab, maps) && Under(n, m) && n !in tab
    ensures m !in tab
    ensures |n.path| <= 3 ==> m !in maps
    decreases |m.path|
  {
    if n != m {
      assert n.path <= m.path[..|m.path| - 1];
      NothingBelow(mem, tab, maps, n, m.Parent());
    }
  }

  // ----- the three ways memory is written -----

  /** A leaf entry is set. */
  lemma SetLeaf(mem: Memory, tab: Tables, maps: Mappings, n: Node, i: nat, w: Word)
    requires Tree(mem, tab, maps) && n in tab && |n.path| == 3 && i < 512 && w.flags.present
    ensures Tree(mem[tab[n] := mem[tab[n]][i := w]], tab, maps[n.Child(i) := w])
  {
    var mem' := mem[tab[n] := mem[tab[n]][i := w]];
    var maps' := maps[n.Child(i) := w];
    ChildParent(n, i);
    ProperChild(n, i);
    forall m, j: nat | m in tab && m.Has(j) ensures EntryOk(mem', tab, maps', m, j) {
      assert EntryOk(mem, tab, maps, m, j);
      if m.Child(j) == n.Child(i) {
        ChildInjective(m, j, n, i);
      }
    }
  }

  /** An upper entry that already points to a table gains permission bits. */
  lemma TouchEntry(mem: Memory, tab: Tables, maps: Mappings, n: Node, i: nat, w: Word)
    requires Tree(mem, tab, maps) && n in tab && |n.path| < 3 && n.Has(i)
    requires w.flags.present && mem[tab[n]][i].flags.present && w.frame == mem[tab[n]][i].frame && !w.flags.huge
    requires w.flags.user && w.flags.writable
    ensures Tree(mem[tab[n] := mem[tab[n]][i := w]], tab, maps)
  {
    var mem' := mem[tab[n] := mem[tab[n]][i := w]];
    forall m, j: nat | m in tab && m.Has(j) ensures EntryOk(mem', tab, maps, m, j) {
      TouchOne(mem, tab, maps, n, i, w, m, j);
    }
  }

  lemma TouchOne(mem: Memory, tab: Tables, maps: Mappings, n: Node, i: nat, w: Word, m: Node, j: nat)
    requires n in tab && tab[n] < |mem| && i < 512 && m in tab && m.Has(j)
    requires |n.path| < 3 && n.Has(i) && Tree(mem, tab, maps)
    requires w.flags.present && mem[tab[n]][i].flags.present && w.frame == mem[tab[n]][i].frame && !w.flags.huge
    requires w.flags.user && w.flags.writable
    ensures EntryOk(mem[tab[n] := mem[tab[n]][i := w]], tab, maps, m, j)
  {
    assert EntryOk(mem, tab, maps, m, j);
    assert m != n ==> tab[m] != tab[n];
    hide Tree;
  }

  lemma AddShape(mem: Memory, mem': Memory, tab: Tables, maps: Mappings, c: Node, f: nat)
    requires Shape(mem, tab, maps) && |mem'| == |mem|
    requires f < |mem| && f !in tab.Values && c !in tab && c.Proper() && |c.path| <= 3
    requires if c.path == [] then c.root == f else c.Parent() in tab
    ensures Shape(mem', tab[c := f], maps)
  {
    var tab' := tab[c := f];
    forall m, n | m in tab' && n in tab' && m != n ensures tab'[m] != tab'[n] {
      if m == c {
        assert tab[n] in tab.Values;
      } else if n == c {
        assert tab[m] in tab.Values;
      }
    }
  }

  /** An empty upper entry is pointed at a fresh, cleared frame. */
  lemma AddTable(mem: Memory, tab: Tables, maps: Mappings, n: Node, i: nat, f: nat, w: Word)
    requires Tree(mem, tab, maps) && n in tab && |n.path| < 3 && n.Has(i)
    requires !mem[tab[n]][i].flags.present
    requires f < |mem| && f !in tab.Values && mem[f] == ZERO_PAGE
    requires w.flags.present && w.frame == f && !w.flags.huge && w.flags.user && w.flags.writable
    ensures n.Child(i) !in tab
    ensures Tree(mem[tab[n] := mem[tab[n]][i := w]], tab[n.Child(i) := f], maps)
  {
    var c := n.Child(i);
    var mem' := mem[tab[n] := mem[tab[n]][i := w]];
    ChildParent(n, i);
    ProperChild(n, i);
    assert EntryOk(mem, tab, maps, n, i);
    assert tab[n] in tab.Values;
    AddShape(mem, mem', tab, maps, c, f);
    forall m, j: nat | m in tab[c := f] && m.Has(j) ensures EntryOk(mem', tab[c := f], maps, m, j) {
      AddTableEntry(mem, tab, maps, n, i, f, w, m, j);
    }
  }

  lemma AddTableEntry(mem: Memory, tab: Tables, maps: Mappings, n: Node, i: nat, f: nat, w: Word, m: Node, j: nat)
    requires Tree(mem, tab, maps) && n in tab && |n.path| < 3 && n.Has(i)
    requires f < |mem| && f !in tab.Values && mem[f] == ZERO_PAGE && n.Child(i) !in tab
    requires w.flags.present && w.frame == f && !w.flags.huge && w.flags.user && w.flags.writable
    requires m in tab[n.Child(i) := f] && m.Has(j)
    ensures EntryOk(mem[tab[n] := mem[tab[n]][i := w]], tab[n.Child(i) := f], maps, m, j)
  {
    var c := n.Child(i);
    ChildParent(m, j);
    assert tab[n] in tab.Values;
    if m == c {
      assert m.Child(j).Parent() == c;
      assert m.Child(j) !in tab && m.Child(j) !in maps && m.Child(j) != c;
    } else {
      assert EntryOk(mem, tab, maps, m, j);
      if m.Child(j) == c {
        ChildInjective(m, j, n, i);
      }
    }
  }

  /** A new address space starts with a cleared user half. */
  lemma AddRoot(mem: Memory, tab: Tables, maps: Mappings, f: nat)
    requires Tree(mem, tab, maps)
    requires f < |mem| && f !in tab.Values
    requires forall i :: 0 <= i < 256 ==> !mem[f][i].flags.present
    ensures Node(f, []) !in tab
    ensures Tree(mem, tab[Node(f, []) := f], maps)
  {
    var r := Node(f, []);
    assert forall n :: n in tab ==> tab[n] in tab.Values;
    AddShape(mem, mem, tab, maps, r, f);
    forall m, j: nat | m in tab[r := f] && m.Has(j) ensures EntryOk(mem, tab[r := f], maps, m, j) {
      ChildParent(m, j);
      if m == r {
        assert m.Child(j) !in tab && m.Child(j) != r;
      } else {
        assert EntryOk(mem, tab, maps, m, j);
      }
    }
  }

  /** Frames that hold no table may be written freely. */
  lemma DataWrite(mem: Memory, tab: Tables, maps: Mappings, f: nat, p: Page)
    requires Tree(mem, tab, maps) && f < |mem| && f !in tab.Values
    ensures Tree(mem[f := p], tab, maps)
  {
    forall m, j: nat | m in tab && m.Has(j) ensures EntryOk(mem[f := p], tab, maps, m, j) {
      assert EntryOk(mem, tab, maps, m, j);
      assert tab[m] in tab.Values;
    }
  }
}
