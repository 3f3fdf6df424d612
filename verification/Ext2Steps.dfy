/** What each disk write of ext2 does to the volume and to the contents of its files. */
module Ext2Steps {
  import opened Bytes
  import opened Ext2Blocks
  import opened Ext2Layout

  type Inodes = map<nat, Inode>

  /** The volume is consistent, and its files are disjoint trees of blocks. */
  ghost predicate Good(l: Layout, kind: map<nat, Use>, d: Disk, owned: set<nat>, free: seq<nat>, sbFree: nat,
                       ins: Inodes) {
    VolumeOk(l, kind, d, owned, free, sbFree) && Trees(d, ins, Ptrs(l.bs), owned)
  }

  lemma BlockSize(l: Layout, kind: map<nat, Use>, d: Disk, owned: set<nat>, free: seq<nat>, sbFree: nat)
    requires VolumeOk(l, kind, d, owned, free, sbFree)
    ensures Sizes(l) && 4 * Ptrs(l.bs) == l.bs && 256 <= Ptrs(l.bs)
  {
    hide Padded, Counted, Claimed;
  }

  /** Every block of every file reads as before. */
  ghost predicate SameContents(d: Disk, ins: Inodes, d': Disk, ins': Inodes, bs: nat) {
    forall g: nat, j: nat :: Content(d', ins', g, j, bs) == Content(d, ins, g, j, bs)
  }

  /** Every block of every file, but for block `i` of file `f`, reads as before. */
  ghost predicate SameBut(d: Disk, ins: Inodes, d': Disk, ins': Inodes, bs: nat, f: nat, i: nat) {
    forall g: nat, j: nat :: g != f || j != i ==> Content(d', ins', g, j, bs) == Content(d, ins, g, j, bs)
  }

  /** Nothing a file system user can see has changed. */
  ghost predicate Unseen(d: Disk, ins: Inodes, d': Disk, ins': Inodes, bs: nat) {
    SameContents(d, ins, d', ins', bs) && SamePointers(d, ins, d', ins', Ptrs(bs))
  }

  lemma UnseenRefl(d: Disk, ins: Inodes, bs: nat)
    ensures Unseen(d, ins, d, ins, bs)
  {
  }

  /** Only block `i` of file `f` may be held elsewhere, or hold something else, than before. */
  ghost predicate OnlyBlock(d: Disk, ins: Inodes, d': Disk, ins': Inodes, bs: nat, f: nat, i: nat) {
    && SameBut(d, ins, d', ins', bs, f, i)
    && forall g: nat, j: nat :: g != f || j != i ==>
      At(d', ins', PlaceOf(g, j, Ptrs(bs))) == At(d, ins, PlaceOf(g, j, Ptrs(bs)))
  }

  lemma UnseenElsewhere(d: Disk, ins: Inodes, d': Disk, ins': Inodes, bs: nat, f: nat, i: nat)
    requires Unseen(d, ins, d', ins', bs)
    ensures OnlyBlock(d, ins, d', ins', bs, f, i)
    ensures At(d', ins', PlaceOf(f, i, Ptrs(bs))) == At(d, ins, PlaceOf(f, i, Ptrs(bs)))
    ensures Content(d', ins', f, i, bs) == Content(d, ins, f, i, bs)
  {
    hide At, Content, SamePointers, PlaceOf;
    forall g: nat, j: nat ensures At(d', ins', PlaceOf(g, j, Ptrs(bs))) == At(d, ins, PlaceOf(g, j, Ptrs(bs))) {
      SamePlace(d, ins, d', ins', bs, g, j);
    }
  }

  lemma OnlyTrans(d: Disk, ins: Inodes, d': Disk, ins': Inodes, d'': Disk, ins'': Inodes, bs: nat, f: nat, i: nat)
    requires OnlyBlock(d, ins, d', ins', bs, f, i) && OnlyBlock(d', ins', d'', ins'', bs, f, i)
    ensures OnlyBlock(d, ins, d'', ins'', bs, f, i)
  {
    hide At, Content, PlaceOf;
  }

  lemma RepointedElsewhere(d: Disk, ins: Inodes, d': Disk, ins': Inodes, bs: nat, f: nat, i: nat, b: nat)
    requires i < 12 + Ptrs(bs) && Repointed(d, ins, d', ins', Ptrs(bs), PlaceOf(f, i, Ptrs(bs)), b)
      && SameBut(d, ins, d', ins', bs, f, i)
    ensures OnlyBlock(d, ins, d', ins', bs, f, i) && At(d', ins', PlaceOf(f, i, Ptrs(bs))) == b
  {
    hide At, PlaceOf, IsPlace, Repointed, SameBut;
    ShallowPlace(f, i, Ptrs(bs));
    RepointedPlace(d, ins, d', ins', bs, PlaceOf(f, i, Ptrs(bs)), b, f, i);
    forall g: nat, j: nat | g != f || j != i
      ensures At(d', ins', PlaceOf(g, j, Ptrs(bs))) == At(d, ins, PlaceOf(g, j, Ptrs(bs)))
    {
      RepointedPlace(d, ins, d', ins', bs, PlaceOf(f, i, Ptrs(bs)), b, g, j);
      if PlaceOf(g, j, Ptrs(bs)) == PlaceOf(f, i, Ptrs(bs)) {
        PlaceOfInjective(g, j, f, i, Ptrs(bs));
      }
    }
  }

  /** Making an indirect block leaves the map of blocks as it is. */
  lemma TableUnmapped(d: Disk, ins: Inodes, d': Disk, ins': Inodes, bs: nat, f: nat, t: nat, g: nat, j: nat)
    requires Repointed(d, ins, d', ins', Ptrs(bs), InSlot(f, 12), t)
    ensures At(d', ins', PlaceOf(g, j, Ptrs(bs))) == At(d, ins, PlaceOf(g, j, Ptrs(bs)))
  {
    hide At, Repointed;
    RepointedPlace(d, ins, d', ins', bs, InSlot(f, 12), t, g, j);
  }

  lemma TableElsewhere(d: Disk, ins: Inodes, d': Disk, ins': Inodes, bs: nat, f: nat, t: nat, i: nat)
    requires Repointed(d, ins, d', ins', Ptrs(bs), InSlot(f, 12), t) && SameContents(d, ins, d', ins', bs)
    ensures OnlyBlock(d, ins, d', ins', bs, f, i)
    ensures At(d', ins', PlaceOf(f, i, Ptrs(bs))) == At(d, ins, PlaceOf(f, i, Ptrs(bs)))
  {
    hide At, Content, PlaceOf, Repointed;
    forall g: nat, j: nat ensures At(d', ins', PlaceOf(g, j, Ptrs(bs))) == At(d, ins, PlaceOf(g, j, Ptrs(bs))) {
      TableUnmapped(d, ins, d', ins', bs, f, t, g, j);
    }
  }

  /** In use, but not yet part of a file or of the metadata. */
  ghost predicate Loose(l: Layout, kind: map<nat, Use>, d: Disk, owned: set<nat>, b: nat) {
    InUse(l, d, b) && b !in kind && b !in owned && 0 < b < l.total
  }

  /** A write outside the blocks of files. */
  lemma OutsideWrite(d: Disk, ins: Inodes, bs: nat, owned: set<nat>, b: nat, c: Block)
    requires Trees(d, ins, Ptrs(bs), owned) && b in d && b !in owned
    ensures SamePointers(d, ins, d[b := c], ins, Ptrs(bs)) && SameContents(d, ins, d[b := c], ins, bs)
    ensures Trees(d[b := c], ins, Ptrs(bs), owned)
  {
    hide At, IsPlace, Trees, PlaceOf, SamePointers;
    var d' := d[b := c];
    UnnamedWrite(d, ins, Ptrs(bs), owned, b, c);
    TreesStay(d, ins, d', ins, Ptrs(bs), owned);
    forall g: nat, j: nat ensures Content(d', ins, g, j, bs) == Content(d, ins, g, j, bs) {
      SamePlace(d, ins, d', ins, bs, g, j);
      Named(d, ins, bs, owned, g, j);
    }
  }

  /** The pointer to a block of a file is one of the pointers of the tree, or there is none. */
  lemma Named(d: Disk, ins: Inodes, bs: nat, owned: set<nat>, g: nat, j: nat)
    requires Trees(d, ins, Ptrs(bs), owned)
    ensures var b := At(d, ins, PlaceOf(g, j, Ptrs(bs))); b != 0 ==> b in owned && b in d
  {
    hide At;
    var n := Ptrs(bs);
    if j < 12 + n + n * n {
      PlaceOfIsLeaf(g, j, n);
    } else {
      NoPlace(d, ins, n, g, j);
    }
  }

  lemma NoPlace(d: Disk, ins: Inodes, n: nat, g: nat, j: nat)
    requires j >= 12 + n + n * n
    ensures At(d, ins, PlaceOf(g, j, n)) == 0
  {
  }

  lemma SamePlace(d: Disk, ins: Inodes, d': Disk, ins': Inodes, bs: nat, g: nat, j: nat)
    requires SamePointers(d, ins, d', ins', Ptrs(bs))
    ensures At(d', ins', PlaceOf(g, j, Ptrs(bs))) == At(d, ins, PlaceOf(g, j, Ptrs(bs)))
  {
    hide At;
    var n := Ptrs(bs);
    if j < 12 + n + n * n {
      PlaceOfIsLeaf(g, j, n);
    } else {
      NoPlace(d, ins, n, g, j);
      NoPlace(d', ins', n, g, j);
    }
  }

  lemma RepointedPlace(d: Disk, ins: Inodes, d': Disk, ins': Inodes, bs: nat, p: Place, b: nat, g: nat, j: nat)
    requires Repointed(d, ins, d', ins', Ptrs(bs), p, b) && IsPlace(p, Ptrs(bs))
    ensures At(d', ins', PlaceOf(g, j, Ptrs(bs))) ==
      if PlaceOf(g, j, Ptrs(bs)) == p then b else At(d, ins, PlaceOf(g, j, Ptrs(bs)))
  {
    hide At;
    var n := Ptrs(bs);
    if j < 12 + n + n * n {
      PlaceOfIsLeaf(g, j, n);
    } else {
      NoPlace(d, ins, n, g, j);
      NoPlace(d', ins', n, g, j);
    }
  }

  /** Allocating a block of the bitmap. */
  lemma AllocStep(l: Layout, kind: map<nat, Use>, d: Disk, owned: set<nat>, free: seq<nat>, sbFree: nat, ins: Inodes,
                  g: nat, i: nat, d': Disk, free': seq<nat>)
    requires g < |l.bitmaps| == |free| && l.bitmaps[g] in d && i < l.bpg <= 8 * |d[l.bitmaps[g]]| && !Marked(l, d, g, i)
    requires d' == Mark(l, d, g, i) && 0 < free[g] && free' == free[g := free[g] - 1] && 0 < sbFree
    requires Good(l, kind, d, owned, free, sbFree, ins)
    ensures Good(l, kind, d', owned, free', sbFree - 1, ins)
    ensures Loose(l, kind, d', owned, BlockNo(l, g, i))
    ensures Unseen(d, ins, d', ins, l.bs)
  {
    hide InUse, Marked, BlockNo, Trees, SameContents, SamePointers, Padded, Counted;
    assert LayoutOk(l, kind) && DiskOk(l, d);
    TakeBlock(l, kind, d, owned, free, sbFree, g, i);
    BitmapKind(l, kind, g);
    hide LayoutOk;
    BlockSize(l, kind, d, owned, free, sbFree);
    OutsideWrite(d, ins, l.bs, owned, l.bitmaps[g], WithBit(d[l.bitmaps[g]], i));
  }

  /** Freeing a loose block. */
  lemma FreeStep(l: Layout, kind: map<nat, Use>, d: Disk, owned: set<nat>, free: seq<nat>, sbFree: nat, ins: Inodes,
                 g: nat, i: nat, d': Disk, free': seq<nat>)
    requires g < |l.bitmaps| == |free| && l.bitmaps[g] in d && i < l.bpg <= 8 * |d[l.bitmaps[g]]| && Marked(l, d, g, i)
    requires d' == Unmark(l, d, g, i) && free' == free[g := free[g] + 1] && Loose(l, kind, d, owned, BlockNo(l, g, i))
    requires Good(l, kind, d, owned, free, sbFree, ins)
    ensures Good(l, kind, d', owned, free', sbFree + 1, ins)
    ensures !InUse(l, d', BlockNo(l, g, i)) && Unseen(d, ins, d', ins, l.bs)
  {
    hide InUse, Marked, BlockNo, Trees, SameContents, SamePointers, Padded, Counted;
    assert LayoutOk(l, kind) && DiskOk(l, d);
    GiveBlock(l, kind, d, owned, free, sbFree, g, i);
    UnmarkUses(l, kind, d, g, i, BlockNo(l, g, i));
    BitmapKind(l, kind, g);
    hide LayoutOk;
    BlockSize(l, kind, d, owned, free, sbFree);
    OutsideWrite(d, ins, l.bs, owned, l.bitmaps[g], WithoutBit(d[l.bitmaps[g]], i));
  }

  /** A write to metadata other than the block bitmaps. */
  lemma MetaStep(l: Layout, kind: map<nat, Use>, d: Disk, owned: set<nat>, free: seq<nat>, sbFree: nat, ins: Inodes,
                 b: nat, c: Block)
    requires b in d && |c| == l.bs && b in kind && !kind[b].BlockMap?
    requires Good(l, kind, d, owned, free, sbFree, ins)
    ensures Good(l, kind, d[b := c], owned, free, sbFree, ins)
    ensures Unseen(d, ins, d[b := c], ins, l.bs)
  {
    hide Trees, SameContents, SamePointers, LayoutOk, Padded, Counted, InUse;
    BlockSize(l, kind, d, owned, free, sbFree);
    OtherWrite(l, kind, d, owned, free, sbFree, b, c);
    OutsideWrite(d, ins, l.bs, owned, b, c);
  }

  /** Writing a loose block. */
  lemma LooseStep(l: Layout, kind: map<nat, Use>, d: Disk, owned: set<nat>, free: seq<nat>, sbFree: nat, ins: Inodes,
                  b: nat, c: Block)
    requires Good(l, kind, d, owned, free, sbFree, ins) && Loose(l, kind, d, owned, b) && |c| == l.bs
    ensures b in d && Good(l, kind, d[b := c], owned, free, sbFree, ins) && Loose(l, kind, d[b := c], owned, b)
    ensures Unseen(d, ins, d[b := c], ins, l.bs)
  {
    hide Trees, SameContents, SamePointers, LayoutOk, Padded, Counted, InUse;
    BlockSize(l, kind, d, owned, free, sbFree);
    assert b in d;
    OtherWrite(l, kind, d, owned, free, sbFree, b, c);
    OtherWriteUse(l, kind, d, owned, free, sbFree, b, c, b);
    OutsideWrite(d, ins, l.bs, owned, b, c);
  }

  lemma OtherWriteUse(l: Layout, kind: map<nat, Use>, d: Disk, owned: set<nat>, free: seq<nat>, sbFree: nat, b: nat,
                      c: Block, n: nat)
    requires VolumeOk(l, kind, d, owned, free, sbFree) && b in d && |c| == l.bs
    requires b in kind ==> !kind[b].BlockMap?
    ensures InUse(l, d[b := c], n) == InUse(l, d, n)
  {
    hide Padded, Counted, Claimed;
    var d' := d[b := c];
    forall g: nat, i: nat ensures Marked(l, d', g, i) == Marked(l, d, g, i) {
      if g < |l.bitmaps| {
        BitmapKind(l, kind, g);
      }
    }
    hide Marked, BlockNo, LayoutOk;
  }

  /** Hanging a loose block on an empty pointer. */
  lemma AttachStep(l: Layout, kind: map<nat, Use>, d: Disk, owned: set<nat>, free: seq<nat>, sbFree: nat, ins: Inodes,
                   d': Disk, ins': Inodes, p: Place, b: nat)
    requires VolumeOk(l, kind, d', owned, free, sbFree) && Trees(d, ins, Ptrs(l.bs), owned) && d'.Keys == d.Keys
    requires Repointed(d, ins, d', ins', Ptrs(l.bs), p, b) && Loose(l, kind, d', owned, b)
    ensures Good(l, kind, d', owned + {b}, free, sbFree, ins')
  {
    hide Trees, Repointed, LayoutOk, Padded, Counted, InUse, Claimed;
    Claim(l, kind, d', owned, free, sbFree, b);
    assert b in d;
    TreesGrow(d, ins, d', ins', Ptrs(l.bs), owned, p, b);
  }

  /** ext2_set_block below 12: the pointer goes into the inode. */
  lemma DirectStep(l: Layout, kind: map<nat, Use>, d: Disk, owned: set<nat>, free: seq<nat>, sbFree: nat, ins: Inodes,
                   f: nat, i: nat, b: nat, ins': Inodes)
    requires f in ins && i < 12 && Slot(ins[f], i) == 0 && ins' == ins[f := WithSlot(ins[f], i, b)]
    requires Good(l, kind, d, owned, free, sbFree, ins) && Loose(l, kind, d, owned, b)
    ensures Good(l, kind, d, owned + {b}, free, sbFree, ins')
    ensures Repointed(d, ins, d, ins', Ptrs(l.bs), PlaceOf(f, i, Ptrs(l.bs)), b)
    ensures SameBut(d, ins, d, ins', l.bs, f, i)
  {
    hide Trees, Repointed, LayoutOk, Padded, Counted, InUse, Claimed, At, IsPlace, PlaceOf, SameBut, Slot;
    BlockSize(l, kind, d, owned, free, sbFree);
    assert b in d && b < 0x1_0000_0000;
    ShallowPlace(f, i, Ptrs(l.bs));
    SlotFilled(d, ins, Ptrs(l.bs), f, i, b);
    AttachStep(l, kind, d, owned, free, sbFree, ins, d, ins', InSlot(f, i), b);
    LeafRepointed(d, ins, d, ins', l.bs, owned, f, i, b);
  }

  /** Pointing block `i` of `f` somewhere else, with nothing else written to a block of a file but tables. */
  lemma LeafRepointed(d: Disk, ins: Inodes, d': Disk, ins': Inodes, bs: nat, owned: set<nat>, f: nat, i: nat, b: nat)
    requires Repointed(d, ins, d', ins', Ptrs(bs), PlaceOf(f, i, Ptrs(bs)), b) && i < 12 + Ptrs(bs)
    requires Trees(d, ins, Ptrs(bs), owned) && d'.Keys == d.Keys && OnlyTables(d, ins, d', Ptrs(bs))
    ensures SameBut(d, ins, d', ins', bs, f, i)
  {
    hide At, IsPlace, Trees, PlaceOf, Repointed, OnlyTables;
    assert IsPlace(PlaceOf(f, i, Ptrs(bs)), Ptrs(bs)) by { ShallowPlace(f, i, Ptrs(bs)); }
    forall g: nat, j: nat | g != f || j != i ensures Content(d', ins', g, j, bs) == Content(d, ins, g, j, bs) {
      RepointedPlace(d, ins, d', ins', bs, PlaceOf(f, i, Ptrs(bs)), b, g, j);
      if PlaceOf(g, j, Ptrs(bs)) == PlaceOf(f, i, Ptrs(bs)) {
        PlaceOfInjective(g, j, f, i, Ptrs(bs));
      }
      DataKept(d, ins, d', bs, owned, g, j);
    }
  }

  lemma ShallowPlace(f: nat, i: nat, n: nat)
    requires i < 12 + n
    ensures IsPlace(PlaceOf(f, i, n), n) && !IsTable(PlaceOf(f, i, n))
    ensures PlaceOf(f, i, n) == if i < 12 then InSlot(f, i) else InTable(InSlot(f, 12), i - 12)
  {
  }

  /** Only blocks of pointers, and blocks of no file, differ. */
  ghost predicate OnlyTables(d: Disk, ins: Inodes, d': Disk, n: nat) {
    forall p :: IsPlace(p, n) && !IsTable(p) && At(d, ins, p) != 0 && At(d, ins, p) in d ==>
      At(d, ins, p) in d' && d'[At(d, ins, p)] == d[At(d, ins, p)]
  }

  lemma DataKept(d: Disk, ins: Inodes, d': Disk, bs: nat, owned: set<nat>, g: nat, j: nat)
    requires Trees(d, ins, Ptrs(bs), owned) && OnlyTables(d, ins, d', Ptrs(bs))
    ensures var b := At(d, ins, PlaceOf(g, j, Ptrs(bs))); b != 0 ==> b in d && b in d' && d'[b] == d[b]
  {
    hide At;
    var n := Ptrs(bs);
    if j < 12 + n + n * n {
      PlaceOfIsLeaf(g, j, n);
    } else {
      NoPlace(d, ins, n, g, j);
    }
  }

  /** A new, blank indirect block. */
  lemma TableStep(l: Layout, kind: map<nat, Use>, d: Disk, owned: set<nat>, free: seq<nat>, sbFree: nat, ins: Inodes,
                  f: nat, t: nat, d': Disk, ins': Inodes)
    requires f in ins && Slot(ins[f], 12) == 0 && d' == d[t := Zeros(l.bs)] && ins' == ins[f := WithSlot(ins[f], 12, t)]
    requires Good(l, kind, d, owned, free, sbFree, ins) && Loose(l, kind, d, owned, t)
    ensures Good(l, kind, d', owned + {t}, free, sbFree, ins')
    ensures Repointed(d, ins, d', ins', Ptrs(l.bs), InSlot(f, 12), t)
    ensures SameContents(d, ins, d', ins', l.bs)
  {
    hide Trees, Repointed, LayoutOk, Padded, Counted, InUse, Claimed, At, IsPlace, PlaceOf, SameContents, SamePointers,
         Slot;
    BlockSize(l, kind, d, owned, free, sbFree);
    LooseStep(l, kind, d, owned, free, sbFree, ins, t, Zeros(l.bs));
    assert t < 0x1_0000_0000;
    SlotFilled(d', ins, Ptrs(l.bs), f, 12, t);
    AttachStep(l, kind, d', owned, free, sbFree, ins, d', ins', InSlot(f, 12), t);
    Chained(d, ins, d', ins, d', ins', Ptrs(l.bs), InSlot(f, 12), t);
    TableContents(d', ins, ins', l.bs, owned, f, t);
    SameTrans(d, ins, d', ins, d', ins', l.bs);
  }

  lemma Chained(d: Disk, ins: Inodes, d': Disk, ins': Inodes, d'': Disk, ins'': Inodes, n: nat, p: Place, b: nat)
    requires SamePointers(d, ins, d', ins', n) && Repointed(d', ins', d'', ins'', n, p, b)
    ensures Repointed(d, ins, d'', ins'', n, p, b)
  {
    hide At, IsPlace;
  }

  lemma SameTrans(d: Disk, ins: Inodes, d': Disk, ins': Inodes, d'': Disk, ins'': Inodes, bs: nat)
    requires SameContents(d, ins, d', ins', bs) && SameContents(d', ins', d'', ins'', bs)
    ensures SameContents(d, ins, d'', ins'', bs)
  {
    hide Content;
  }

  lemma TableContents(d: Disk, ins: Inodes, ins': Inodes, bs: nat, owned: set<nat>, f: nat, t: nat)
    requires Trees(d, ins, Ptrs(bs), owned) && Repointed(d, ins, d, ins', Ptrs(bs), InSlot(f, 12), t)
    ensures SameContents(d, ins, d, ins', bs)
  {
    hide At, Trees, Repointed;
    forall g: nat, j: nat ensures Content(d, ins', g, j, bs) == Content(d, ins, g, j, bs) {
      RepointedPlace(d, ins, d, ins', bs, InSlot(f, 12), t, g, j);
    }
  }

  /** ext2_set_block from 12 on: the pointer goes into the indirect block. */
  lemma EntryStep(l: Layout, kind: map<nat, Use>, d: Disk, owned: set<nat>, free: seq<nat>, sbFree: nat, ins: Inodes,
                  f: nat, i: nat, b: nat, t: nat, d': Disk)
    requires f in ins && 12 <= i < 12 + Ptrs(l.bs) && t == Slot(ins[f], 12) != 0
    requires t in d && 4 * (i - 12) + 4 <= |d[t]| && d' == d[t := WithWord(d[t], i - 12, b)]
    requires Good(l, kind, d, owned, free, sbFree, ins) && Loose(l, kind, d, owned, b)
    ensures Good(l, kind, d', owned + {b}, free, sbFree, ins)
    ensures Repointed(d, ins, d', ins, Ptrs(l.bs), PlaceOf(f, i, Ptrs(l.bs)), b)
    ensures SameBut(d, ins, d', ins, l.bs, f, i)
  {
    hide Repointed, LayoutOk, Padded, Counted, InUse, SameBut, WithWord, OnlyTables, Trees, At, IsPlace, PlaceOf,
         IsTable, Slot;
    BlockSize(l, kind, d, owned, free, sbFree);
    var n := Ptrs(l.bs);
    IndirectPlace(d, ins, n, owned, f, i);
    ShallowPlace(f, i, n);
    assert b in d && b < 0x1_0000_0000;
    TableWrite(d, ins, n, owned, InSlot(f, 12), d'[t]);
    EntryFilled(d, ins, n, owned, InSlot(f, 12), i - 12, b);
    OtherWrite(l, kind, d, owned, free, sbFree, t, d'[t]);
    OtherWriteUse(l, kind, d, owned, free, sbFree, t, d'[t], b);
    AttachStep(l, kind, d, owned, free, sbFree, ins, d', ins, PlaceOf(f, i, n), b);
    LeafRepointed(d, ins, d', ins, l.bs, owned, f, i, b);
  }

  lemma IndirectPlace(d: Disk, ins: Inodes, n: nat, owned: set<nat>, f: nat, i: nat)
    requires Trees(d, ins, n, owned) && f in ins && Slot(ins[f], 12) != 0 && 12 <= i < 12 + n
    ensures At(d, ins, InSlot(f, 12)) == Slot(ins[f], 12) && Slot(ins[f], 12) in owned && IsPlace(InSlot(f, 12), n)
      && IsTable(InSlot(f, 12))
  {
    var p := InSlot(f, 12);
    assert IsPlace(p, n) && At(d, ins, p) != 0;
  }

  lemma TableWrite(d: Disk, ins: Inodes, n: nat, owned: set<nat>, p: Place, c: Block)
    requires Trees(d, ins, n, owned) && IsPlace(p, n) && IsTable(p) && At(d, ins, p) != 0
    ensures OnlyTables(d, ins, d[At(d, ins, p) := c], n)
  {
    hide At;
  }

  /** Writing a data block of a file. */
  lemma DataStep(l: Layout, kind: map<nat, Use>, d: Disk, owned: set<nat>, free: seq<nat>, sbFree: nat, ins: Inodes,
                 f: nat, i: nat, c: Block)
    requires Good(l, kind, d, owned, free, sbFree, ins) && |c| == l.bs
    requires At(d, ins, PlaceOf(f, i, Ptrs(l.bs))) != 0
    ensures var b := At(d, ins, PlaceOf(f, i, Ptrs(l.bs)));
            && b in d && b !in kind && Good(l, kind, d[b := c], owned, free, sbFree, ins)
            && OnlyBlock(d, ins, d[b := c], ins, l.bs, f, i)
            && At(d[b := c], ins, PlaceOf(f, i, Ptrs(l.bs))) == b && Content(d[b := c], ins, f, i, l.bs) == c
  {
    hide LayoutOk, Padded, Counted, InUse, At, SameBut, IsPlace, PlaceOf, SamePointers, Trees;
    var n := Ptrs(l.bs);
    var p := PlaceOf(f, i, n);
    var b := At(d, ins, p);
    var d' := d[b := c];
    RealPlace(d, ins, n, f, i);
    Named(d, ins, l.bs, owned, f, i);
    LeafWrite(d, ins, n, owned, p, c);
    TreesStay(d, ins, d', ins, n, owned);
    OtherWrite(l, kind, d, owned, free, sbFree, b, c);
    DataContents(d, ins, l.bs, owned, f, i, c);
    forall g: nat, j: nat ensures At(d', ins, PlaceOf(g, j, n)) == At(d, ins, PlaceOf(g, j, n)) {
      SamePlace(d, ins, d', ins, l.bs, g, j);
    }
  }

  lemma RealPlace(d: Disk, ins: Inodes, n: nat, f: nat, i: nat)
    requires At(d, ins, PlaceOf(f, i, n)) != 0
    ensures IsPlace(PlaceOf(f, i, n), n) && !IsTable(PlaceOf(f, i, n))
  {
    hide At;
    if i < 12 + n + n * n {
      PlaceOfIsLeaf(f, i, n);
    } else {
      NoPlace(d, ins, n, f, i);
    }
  }

  lemma DataContents(d: Disk, ins: Inodes, bs: nat, owned: set<nat>, f: nat, i: nat, c: Block)
    requires Trees(d, ins, Ptrs(bs), owned) && At(d, ins, PlaceOf(f, i, Ptrs(bs))) != 0
    requires SamePointers(d, ins, d[At(d, ins, PlaceOf(f, i, Ptrs(bs))) := c], ins, Ptrs(bs))
    ensures SameBut(d, ins, d[At(d, ins, PlaceOf(f, i, Ptrs(bs))) := c], ins, bs, f, i)
  {
    hide At, IsPlace, PlaceOf, SamePointers, Trees;
    var b := At(d, ins, PlaceOf(f, i, Ptrs(bs)));
    var d' := d[b := c];
    forall g: nat, j: nat | g != f || j != i ensures Content(d', ins, g, j, bs) == Content(d, ins, g, j, bs) {
      SamePlace(d, ins, d', ins, bs, g, j);
      DistinctBlocks(d, ins, bs, owned, f, i, g, j);
    }
  }

  /** Two blocks of files never share a disk block. */
  lemma DistinctBlocks(d: Disk, ins: Inodes, bs: nat, owned: set<nat>, f: nat, i: nat, g: nat, j: nat)
    requires Trees(d, ins, Ptrs(bs), owned) && (g != f || j != i)
    requires At(d, ins, PlaceOf(f, i, Ptrs(bs))) != 0
    ensures At(d, ins, PlaceOf(g, j, Ptrs(bs))) != At(d, ins, PlaceOf(f, i, Ptrs(bs)))
  {
    hide At, PlaceOf, IsPlace;
    var n := Ptrs(bs);
    if At(d, ins, PlaceOf(g, j, n)) == At(d, ins, PlaceOf(f, i, n)) {
      RealPlace(d, ins, n, f, i);
      RealPlace(d, ins, n, g, j);
      PlaceOfInjective(f, i, g, j, n);
    }
  }

  /** Changing fields of an inode other than its block pointers. */
  lemma FieldStep(l: Layout, kind: map<nat, Use>, d: Disk, owned: set<nat>, free: seq<nat>, sbFree: nat, ins: Inodes,
                  f: nat, inode: Inode)
    requires f in ins && (forall k :: 0 <= k < 15 ==> Slot(inode, k) == Slot(ins[f], k))
    requires Good(l, kind, d, owned, free, sbFree, ins)
    ensures Good(l, kind, d, owned, free, sbFree, ins[f := inode])
    ensures Unseen(d, ins, d, ins[f := inode], l.bs)
  {
    hide Trees, SameContents, SamePointers, LayoutOk, Padded, Counted, InUse, At, Slot, IsPlace;
    BlockSize(l, kind, d, owned, free, sbFree);
    var ins' := ins[f := inode];
    FieldPointers(d, ins, Ptrs(l.bs), f, inode);
    TreesStay(d, ins, d, ins', Ptrs(l.bs), owned);
    FieldContents(d, ins, ins', l.bs);
  }

  lemma FieldPointers(d: Disk, ins: Inodes, n: nat, f: nat, inode: Inode)
    requires f in ins && forall k :: 0 <= k < 15 ==> Slot(inode, k) == Slot(ins[f], k)
    ensures SamePointers(d, ins, d, ins[f := inode], n)
  {
    hide At, Slot;
    var ins' := ins[f := inode];
    forall q | IsPlace(q, n) ensures At(d, ins', q) == At(d, ins, q) {
      FieldAt(d, ins, f, inode, q);
    }
  }

  lemma FieldContents(d: Disk, ins: Inodes, ins': Inodes, bs: nat)
    requires SamePointers(d, ins, d, ins', Ptrs(bs))
    ensures SameContents(d, ins, d, ins', bs)
  {
    hide At, SamePointers, PlaceOf;
    forall g: nat, j: nat ensures Content(d, ins', g, j, bs) == Content(d, ins, g, j, bs) {
      SamePlace(d, ins, d, ins', bs, g, j);
    }
  }

  lemma {:induction false} FieldAt(d: Disk, ins: Inodes, f: nat, inode: Inode, q: Place)
    requires f in ins && forall k :: 0 <= k < 15 ==> Slot(inode, k) == Slot(ins[f], k)
    ensures At(d, ins[f := inode], q) == At(d, ins, q)
  {
    hide Slot, Word;
    match q
    case InSlot(_, _) =>
    case InTable(of, _) => FieldAt(d, ins, f, inode, of);
  }
}
