/** ext2 block allocation and file access (kernel/fs/ext2.c). */
module Ext2 {
  import opened Arith
  import opened Bytes
  import opened Ext2Blocks
  import opened Ext2Layout
  import opened Ext2Steps

  /** The first `n` bits of a bitmap are all set. */
  predicate Full(b: Block, n: nat)
    requires n <= 8 * |b|
  {
    forall i :: 0 <= i < n ==> BitAt(b, i)
  }

  /** Looks for the first clear bit; `n` if there is none. */
  method FindClear(b: Block, n: nat) returns (i: nat)
    requires n <= 8 * |b|
    ensures i <= n && Full(b, i) && (i < n ==> !BitAt(b, i))
  {
    i := 0;
    while i < n
      invariant i <= n && Full(b, i)
    {
      if !BitAt(b, i) {
        return;
      }
      i := i + 1;
    }
  }

  lemma BitmapReady(l: Layout, kind: map<nat, Use>, d: Disk, owned: set<nat>, free: seq<nat>, sbFree: nat, g: nat)
    requires g < |l.bitmaps| && VolumeOk(l, kind, d, owned, free, sbFree)
    ensures l.bitmaps[g] in d && |d[l.bitmaps[g]]| == l.bs && l.bpg <= 8 * l.bs
  {
    hide Padded, Counted, Claimed;
  }

  /** No group has a clear bit: the counters say so. */
  lemma AllFull(l: Layout, kind: map<nat, Use>, d: Disk, owned: set<nat>, free: seq<nat>, sbFree: nat)
    requires VolumeOk(l, kind, d, owned, free, sbFree)
    requires forall g :: 0 <= g < |l.bitmaps| ==>
      l.bitmaps[g] in d && l.bpg <= 8 * |d[l.bitmaps[g]]| && Full(d[l.bitmaps[g]], l.bpg)
    ensures sbFree == 0
  {
    hide LayoutOk, Padded, Claimed, DiskOk, BitAt, Sum;
    forall g | 0 <= g < |free| ensures free[g] == 0 {
      NoClearBits(d[l.bitmaps[g]], l.bpg);
    }
    SumZero(free);
  }

  /** A group with a zero counter has no clear bit. */
  lemma EmptyGroup(l: Layout, kind: map<nat, Use>, d: Disk, owned: set<nat>, free: seq<nat>, sbFree: nat, g: nat)
    requires g < |l.bitmaps| == |free| && l.bitmaps[g] in d && l.bpg <= 8 * |d[l.bitmaps[g]]|
    requires VolumeOk(l, kind, d, owned, free, sbFree) && free[g] == 0
    ensures Full(d[l.bitmaps[g]], l.bpg)
  {
    hide LayoutOk, Padded, Claimed, DiskOk, BitAt, Sum;
    forall i | 0 <= i < l.bpg ensures BitAt(d[l.bitmaps[g]], i) {
      if !BitAt(d[l.bitmaps[g]], i) {
        ClearBitCounts(d[l.bitmaps[g]], l.bpg, i);
      }
    }
  }

  /** The inode of file `f`. */
  ghost predicate Holds(ins: Inodes, f: nat, inode: Inode) { f in ins && ins[f] == inode }

  /** i_block[12], the indirect block. */
  function Indirect(inode: Inode): nat { Slot(inode, 12) }

  class Volume {
    const layout: Layout
    ghost const kind: map<nat, Use>
    const sbHead: seq<byte>             // the superblock before and after its free block count
    const sbTail: seq<byte>
    const groupTails: seq<seq<byte>>    // each group descriptor after its free block count
    var disk: Disk
    var groupFree: seq<nat>   // bg_free_blocks_count of each group
    var sbFree: nat           // s_free_blocks_count
    var blockBuf: Block       // scratch shared by all operations
    var indBuf: Block
    ghost var owned: set<nat> // the blocks of files
    ghost var ins: Inodes     // the inode of every file, as its present holder knows it

    /** What ext2_init leaves: the disk's layout and counters, and two scratch buffers. */
    constructor (layout: Layout, ghost kind: map<nat, Use>, sbHead: seq<byte>, sbTail: seq<byte>,
                 groupTails: seq<seq<byte>>,
                 disk: Disk, groupFree: seq<nat>, sbFree: nat, ghost owned: set<nat>, ghost ins: Inodes)
      ensures this.layout == layout && this.kind == kind
      ensures this.sbHead == sbHead && this.sbTail == sbTail && this.groupTails == groupTails
      ensures this.disk == disk && this.groupFree == groupFree && this.sbFree == sbFree
      ensures this.owned == owned && this.ins == ins && |blockBuf| == |indBuf| == layout.bs
    {
      this.layout, this.kind := layout, kind;
      this.sbHead, this.sbTail, this.groupTails := sbHead, sbTail, groupTails;
      this.disk, this.groupFree, this.sbFree := disk, groupFree, sbFree;
      this.owned, this.ins := owned, ins;
      blockBuf, indBuf := Zeros(layout.bs), Zeros(layout.bs);
    }

    ghost predicate Valid()
      reads this
    {
      && Sizes(layout) && |groupFree| == |layout.bitmaps| && |blockBuf| == |indBuf| == layout.bs
      && Good(layout, kind, disk, owned, groupFree, sbFree, ins)
    }

    /** The parts of superblock and descriptors that never change have their sizes. */
    predicate Mounted() {
      && |sbHead| == 12 && |sbTail| == 188 && |groupTails| == |layout.bitmaps|
      && forall g :: 0 <= g < |groupTails| ==> |groupTails[g]| == 18
    }

    /** What is known of the free blocks is on disk. */
    predicate Synced()
      reads this
    {
      Flushed(layout, disk, groupFree, sbFree, sbHead, sbTail, groupTails)
    }

    /** All inodes are on disk, but for that of `f`. */
    ghost predicate Stored(f: nat)
      reads this
    {
      StoredBut(layout, kind, disk, ins, f)
    }

    /** All inodes are on disk; there is no inode 0. */
    ghost predicate AllStored()
      reads this
    {
      StoredBut(layout, kind, disk, ins, 0)
    }

    /** The pointer to block `i` of file `f`. */
    ghost function Pointer(f: nat, i: nat): nat
      reads this
    {
      At(disk, ins, PlaceOf(f, i, Ptrs(layout.bs)))
    }

    ghost function BlockOf(f: nat, i: nat): Block
      reads this
    {
      Content(disk, ins, f, i, layout.bs)
    }

    /** The scan of ext2_alloc_block: a clear bit, or proof that there is none. */
    method FindFree() returns (bg: nat, i: nat)
      requires Valid()
      modifies `blockBuf
      ensures Valid() && bg <= |layout.bitmaps|
      ensures bg < |layout.bitmaps| ==>
        layout.bitmaps[bg] in disk && blockBuf == disk[layout.bitmaps[bg]] && groupFree[bg] != 0
      ensures bg < |layout.bitmaps| ==> i < layout.bpg <= 8 * |blockBuf| && !Marked(layout, disk, bg, i)
      ensures bg == |layout.bitmaps| ==> sbFree == 0
    {
      hide VolumeOk, Trees, BitAt, Sum, Full;
      assert forall g :: 0 <= g < |layout.bitmaps| ==>
        layout.bitmaps[g] in disk && |disk[layout.bitmaps[g]]| == layout.bs by {
        forall g | 0 <= g < |layout.bitmaps|
          ensures layout.bitmaps[g] in disk && |disk[layout.bitmaps[g]]| == layout.bs {
          BitmapReady(layout, kind, disk, owned, groupFree, sbFree, g);
        }
      }
      bg, i := 0, 0;
      while bg < |layout.bitmaps|
        invariant bg <= |layout.bitmaps| && Valid()
        invariant forall g :: 0 <= g < bg ==> Full(disk[layout.bitmaps[g]], layout.bpg)
      {
        if groupFree[bg] != 0 {
          blockBuf := disk[layout.bitmaps[bg]];
          i := FindClear(blockBuf, layout.bpg);
          if i < layout.bpg {
            return;
          }
        } else {
          EmptyGroup(layout, kind, disk, owned, groupFree, sbFree, bg);
        }
        bg := bg + 1;
      }
      AllFull(layout, kind, disk, owned, groupFree, sbFree);
    }

    /** ext2_alloc_block. */
    method AllocBlock(ghost f: nat) returns (b: nat)
      requires Valid()
      modifies `disk, `groupFree, `sbFree, `blockBuf
      ensures Valid() && (old(Stored(f)) ==> Stored(f))
      ensures b == 0 <==> old(sbFree) == 0
      ensures b == 0 ==> disk == old(disk) && groupFree == old(groupFree) && sbFree == old(sbFree)
      ensures b != 0 ==> sbFree == old(sbFree) - 1 && Loose(layout, kind, disk, owned, b)
      ensures b != 0 ==> Took(layout, old(disk), disk, b)
      ensures Unseen(old(disk), ins, disk, ins, layout.bs)
    {
      hide VolumeOk, Trees, Unseen, BitAt, Marked, BlockNo, InUse, StoredBut, Sum, Loose, Took;
      UnseenRefl(disk, ins, layout.bs);
      var bg, i := FindFree();
      if bg == |layout.bitmaps| {
        return 0;
      }
      ghost var d, free, sb := disk, groupFree, sbFree;
      TakeBlockFacts(layout, kind, disk, owned, groupFree, sbFree, bg, i);
      blockBuf := WithBit(blockBuf, i);
      disk := disk[layout.bitmaps[bg] := blockBuf];
      groupFree := groupFree[bg := groupFree[bg] - 1];
      sbFree := sbFree - 1;
      b := BlockNo(layout, bg, i);
      AllocStep(layout, kind, d, owned, free, sb, ins, bg, i, disk, groupFree);
      if old(Stored(f)) {
        AllocStored(layout, kind, d, owned, free, sb, ins, bg, blockBuf, f);
      }
    }

    /**
     * ext2_free_block. The bitmap and both counts give the block back; the volume stays
     * consistent exactly if there is nothing to do or the block was in use and belonged to
     * no file and no metadata.
     */
    method FreeBlock(b: nat, ghost f: nat)
      requires Valid() && b < WORD32
      modifies `disk, `groupFree, `sbFree, `blockBuf
      ensures Valid() <==> b == 0 || |layout.bitmaps| <= GroupOf(layout, b) || old(Loose(layout, kind, disk, owned, b))
      ensures b == 0 || |layout.bitmaps| <= GroupOf(layout, b) ==>
        disk == old(disk) && groupFree == old(groupFree) && sbFree == old(sbFree)
      ensures old(Loose(layout, kind, disk, owned, b)) ==> (old(Stored(f)) ==> Stored(f)) && sbFree == old(sbFree) + 1
      ensures old(Loose(layout, kind, disk, owned, b)) ==> Gave(layout, old(disk), disk, old(groupFree), groupFree, b)
      ensures old(Loose(layout, kind, disk, owned, b)) ==> Unseen(old(disk), ins, disk, ins, layout.bs)
    {
      hide VolumeOk, Trees, Unseen, BitAt, Marked, BlockNo, InUse, StoredBut, Sum, Loose, Gave, GroupOf, IndexOf;
      var g, i := GroupOf(layout, b), IndexOf(layout, b);
      BlockTarget(layout, kind, disk, owned, b);
      if b == 0 || g >= |layout.bitmaps| {
        return;
      }
      BitmapReady(layout, kind, disk, owned, groupFree, sbFree, g);
      ghost var d, free, sb := disk, groupFree, sbFree;
      blockBuf := disk[layout.bitmaps[g]];
      blockBuf := WithoutBit(blockBuf, i);
      disk := disk[layout.bitmaps[g] := blockBuf];
      groupFree := groupFree[g := groupFree[g] + 1];
      sbFree := sbFree + 1;
      if Loose(layout, kind, d, owned, b) {
        FreeStep(layout, kind, d, owned, free, sb, ins, g, i, disk, groupFree);
        GaveIs(layout, d, disk, free, groupFree, b, g, i);
        if old(Stored(f)) {
          AllocStored(layout, kind, d, owned, free, sb, ins, g, blockBuf, f);
        }
      } else {
        WrongFree(layout, kind, d, owned, free, sb, g, i, disk, groupFree);
      }
    }

    /** ext2_get_block. */
    method GetBlock(inode: Inode, idx: nat, ghost f: nat) returns (b: nat)
      requires Valid() && Holds(ins, f, inode)
      modifies `indBuf
      ensures Valid() && b == Pointer(f, idx)
    {
      hide VolumeOk, Trees, Slot, Word;
      var n := layout.bs / 4;
      if idx < 12 {
        return Slot(inode, idx);
      }
      var k: nat := idx - 12;
      if k < n {
        var t := Indirect(inode);
        assert At(disk, ins, InSlot(f, 12)) == t;
        if t == 0 {
          return 0;
        }
        TableReady(layout, kind, disk, owned, groupFree, sbFree, ins, InSlot(f, 12));
        indBuf := disk[t];
        return Word(indBuf, k);
      }
      k := k - n;
      if k < n * n {
        var t := Slot(inode, 13);
        assert At(disk, ins, InSlot(f, 13)) == t;
        if t == 0 {
          assert At(disk, ins, InTable(InSlot(f, 13), k / n)) == 0;
          return 0;
        }
        TableReady(layout, kind, disk, owned, groupFree, sbFree, ins, InSlot(f, 13));
        indBuf := disk[t];
        QuotientBelow(k, n, n);
        ghost var p := InTable(InSlot(f, 13), k / n);
        t := Word(indBuf, k / n);
        assert At(disk, ins, p) == t;
        if t == 0 {
          return 0;
        }
        TableReady(layout, kind, disk, owned, groupFree, sbFree, ins, p);
        indBuf := disk[t];
        return Word(indBuf, k % n);
      }
      return 0;
    }

    /** The first part of ext2_set_block beyond block 12: makes the indirect block when there is none. */
    method MakeTable(inode: Inode, ghost f: nat, ghost idx: nat, ghost b: nat) returns (inode': Inode, ok: bool)
      requires Valid() && Holds(ins, f, inode) && Stored(f) && Indirect(inode) == 0
        && Loose(layout, kind, disk, owned, b)
      modifies `disk, `groupFree, `sbFree, `blockBuf, `owned, `ins
      ensures Valid() && Stored(f) && Loose(layout, kind, disk, owned, b) && ins == old(ins)[f := inode']
      ensures ok <==> old(sbFree) != 0
      ensures !ok ==>
        disk == old(disk) && groupFree == old(groupFree) && sbFree == old(sbFree) && owned == old(owned)
        && inode' == inode
      ensures ok ==>
        sbFree == old(sbFree) - 1 && Indirect(inode') != 0 && SameKind(inode', inode)
        && SectorsOf(inode') == SectorsOf(inode)
      ensures OnlyBlock(old(disk), old(ins), disk, ins, layout.bs, f, idx) && Pointer(f, idx) == old(Pointer(f, idx))
    {
      hide VolumeOk, Trees, Slot, Unseen, OnlyBlock, At, PlaceOf, InUse, StoredBut, Loose, Took, SizeOf, ModeOf,
           SectorsOf, SameContents, Repointed;
      ghost var d := disk;
      var t := AllocBlock(f);
      UnseenElsewhere(d, ins, disk, ins, layout.bs, f, idx);
      if t == 0 {
        assert ins == ins[f := inode];
        return inode, false;
      }
      LooseSurvives(layout, kind, d, disk, owned, b, t);
      ghost var d1, ins0, owned0 := disk, ins, owned;
      inode' := WithSlot(inode, 12, t);
      blockBuf := Zeros(layout.bs);
      disk := disk[t := blockBuf];
      owned := owned + {t};
      ins := ins[f := inode'];
      TableStep(layout, kind, d1, owned0, groupFree, sbFree, ins0, f, t, disk, ins);
      TableElsewhere(d1, ins0, disk, ins, layout.bs, f, t, idx);
      OnlyTrans(d, ins0, d1, ins0, disk, ins, layout.bs, f, idx);
      LooseWrite(layout, kind, d1, owned0, groupFree, sbFree, b, t, blockBuf);
      LooseFits(layout, kind, d1, owned0, groupFree, sbFree, t);
      SlotUpdates(inode, 12, t, 12);
      FileWriteStored(layout, kind, d1, ins0, f, t, blockBuf, inode');
      ok := true;
    }

    /** ext2_set_block. */
    method SetBlock(inode: Inode, idx: nat, b: nat, ghost f: nat) returns (inode': Inode, ok: bool)
      requires Valid() && Holds(ins, f, inode) && Stored(f) && Loose(layout, kind, disk, owned, b)
        && Pointer(f, idx) == 0
      modifies `disk, `groupFree, `sbFree, `blockBuf, `indBuf, `owned, `ins
      ensures Valid() && Stored(f) && ins == old(ins)[f := inode'] && SameKind(inode', inode)
        && SectorsOf(inode') == SectorsOf(inode)
      ensures OnlyBlock(old(disk), old(ins), disk, ins, layout.bs, f, idx)
      ensures ok <==> idx < 12 + Ptrs(layout.bs) && (idx < 12 || Indirect(inode) != 0 || old(sbFree) != 0)
      ensures ok ==> Pointer(f, idx) == b && sbFree == old(sbFree) - NewTable(inode, idx)
      ensures ok ==> (Indirect(inode') == 0 <==> idx < 12 && Indirect(inode) == 0)
      ensures !ok ==>
        sbFree == old(sbFree) && inode' == inode && Pointer(f, idx) == 0 && Loose(layout, kind, disk, owned, b)
    {
      hide VolumeOk, Trees, Slot, Unseen, OnlyBlock, At, PlaceOf, StoredBut, SizeOf, ModeOf, SectorsOf, SameBut,
           Repointed, InUse, Loose, WithWord, Word;
      ghost var d0, ins0 := disk, ins;
      LooseFits(layout, kind, disk, owned, groupFree, sbFree, b);
      UnseenRefl(disk, ins, layout.bs);
      UnseenElsewhere(disk, ins, disk, ins, layout.bs, f, idx);
      if idx < 12 {
        SlotEmpty(disk, ins, Ptrs(layout.bs), f, idx);
        inode' := WithSlot(inode, idx, b);
        SlotUpdates(inode, idx, b, 12);
        ghost var owned0 := owned;
        owned := owned + {b};
        ins := ins[f := inode'];
        DirectStep(layout, kind, disk, owned0, groupFree, sbFree, ins0, f, idx, b, ins);
        RepointedElsewhere(disk, ins0, disk, ins, layout.bs, f, idx, b);
        FieldStored(layout, kind, disk, ins0, f, inode');
        return inode', true;
      }
      var k: nat := idx - 12;
      if k >= layout.bs / 4 {
        assert ins == ins[f := inode];
        return inode, false;
      }
      inode' := inode;
      assert ins == ins[f := inode];
      if Indirect(inode) == 0 {
        inode', ok := MakeTable(inode, f, idx, b);
        if !ok {
          return;
        }
      }
      ghost var d1, ins1, owned1 := disk, ins, owned;
      var t := Indirect(inode');
      SlotPlace(disk, ins, f);
      TableReady(layout, kind, disk, owned, groupFree, sbFree, ins, InSlot(f, 12));
      indBuf := disk[t];
      indBuf := WithWord(indBuf, k, b);
      disk := disk[t := indBuf];
      owned := owned + {b};
      EntryStep(layout, kind, d1, owned1, groupFree, sbFree, ins1, f, idx, b, t, disk);
      RepointedElsewhere(d1, ins1, disk, ins, layout.bs, f, idx, b);
      OnlyTrans(d0, ins0, d1, ins1, disk, ins, layout.bs, f, idx);
      TableStored(layout, kind, d1, owned1, groupFree, sbFree, ins1, f, t, indBuf);
      ok := true;
    }

    /** The part of ext2_write_file that allocates a missing block. */
    method MapBlock(inode: Inode, idx: nat, ghost f: nat) returns (inode': Inode, b: nat)
      requires Valid() && Holds(ins, f, inode) && Stored(f) && Pointer(f, idx) == 0
      modifies `disk, `groupFree, `sbFree, `blockBuf, `indBuf, `owned, `ins
      ensures Valid() && Stored(f) && ins == old(ins)[f := inode'] && SameKind(inode', inode)
      ensures OnlyBlock(old(disk), old(ins), disk, ins, layout.bs, f, idx) && BlockOf(f, idx) == old(BlockOf(f, idx))
      ensures b == 0 <==> old(sbFree) == 0
      ensures b == 0 ==> disk == old(disk) && inode' == inode && sbFree == old(sbFree)
      ensures b != 0 ==> HasBlock(disk, b, layout.bs) && SectorsOf(inode') == MoreSectors(inode, layout.bs)
      ensures b != 0 ==> Pointer(f, idx) == (if Reachable(inode, idx, old(sbFree), layout.bs) then b else 0)
      ensures b != 0 && Pointer(f, idx) == 0 ==> Loose(layout, kind, disk, owned, b)
      ensures Pointer(f, idx) != 0 ==> sbFree == old(sbFree) - 1 - NewTable(inode, idx)
      ensures Pointer(f, idx) != 0 ==> (Indirect(inode') == 0 <==> idx < 12 && Indirect(inode) == 0)
      ensures b != 0 && Pointer(f, idx) == 0 ==> sbFree == old(sbFree) - 1 && Indirect(inode') == Indirect(inode)
    {
      hide VolumeOk, Trees, Indirect, Unseen, OnlyBlock, At, PlaceOf, StoredBut, SizeOf, ModeOf, InUse, Loose, Took,
           WithSectors, SectorsOf;
      HoleContent(disk, ins, layout.bs, f, idx);
      ghost var d0, ins0 := disk, ins;
      b := AllocBlock(f);
      UnseenElsewhere(d0, ins0, disk, ins, layout.bs, f, idx);
      if b == 0 {
        assert ins == ins[f := inode];
        return inode, 0;
      }
      ghost var d1 := disk;
      var ok;
      inode', ok := SetBlock(inode, idx, b, f);
      OnlyTrans(d0, ins0, d1, ins0, disk, ins, layout.bs, f, idx);
      ghost var d2, ins2 := disk, ins;
      ghost var wasPointer := Pointer(f, idx);
      inode' := AddSectors(inode', f);
      UnseenElsewhere(d2, ins2, disk, ins, layout.bs, f, idx);
      OnlyTrans(d0, ins0, d2, ins2, disk, ins, layout.bs, f, idx);
      assert Pointer(f, idx) == wasPointer;
      ghost var d3, ins3 := disk, ins;
      blockBuf := Zeros(layout.bs);
      WriteData(b, f, idx);
      OnlyTrans(d0, ins0, d3, ins3, disk, ins, layout.bs, f, idx);
      if !ok {
        HoleContent(disk, ins, layout.bs, f, idx);
      }
    }

    /** Counts the sectors of a new block in i_blocks. */
    method AddSectors(inode: Inode, ghost f: nat) returns (inode': Inode)
      requires Valid() && Holds(ins, f, inode) && Stored(f)
      modifies `ins
      ensures Valid() && Stored(f) && ins == old(ins)[f := inode'] && SameKind(inode', inode)
        && Indirect(inode') == Indirect(inode)
      ensures SectorsOf(inode') == MoreSectors(inode, layout.bs)
      ensures Unseen(disk, old(ins), disk, ins, layout.bs)
    {
      hide VolumeOk, Trees, Unseen, StoredBut, SizeOf, ModeOf, Slot, WithSectors, SectorsOf;
      var n := (SectorsOf(inode) + layout.bs / 512) % 0x1_0000_0000;
      inode' := WithSectors(inode, n);
      forall k | 0 <= k < 15
        ensures Slot(inode', k) == Slot(inode, k) && SameKind(inode', inode) && SectorsOf(inode') == n {
        SizeUpdates(inode, n, k);
      }
      assert Slot(inode', 0) == Slot(inode, 0);
      FieldStep(layout, kind, disk, owned, groupFree, sbFree, ins, f, inode');
      FieldStored(layout, kind, disk, ins, f, inode');
      ins := ins[f := inode'];
    }

    /** ext2_write_block of the scratch buffer to a data block, or to a block that was not attached. */
    method WriteData(b: nat, ghost f: nat, ghost idx: nat)
      requires Valid() && f in ins && Stored(f)
      requires Pointer(f, idx) == b != 0 || Loose(layout, kind, disk, owned, b)
      modifies `disk
      ensures Valid() && Stored(f) && (old(AllStored()) ==> AllStored()) && b in old(disk)
        && disk == old(disk)[b := blockBuf]
      ensures OnlyBlock(old(disk), ins, disk, ins, layout.bs, f, idx) && Pointer(f, idx) == old(Pointer(f, idx))
      ensures old(Loose(layout, kind, disk, owned, b)) ==>
        Loose(layout, kind, disk, owned, b) && BlockOf(f, idx) == old(BlockOf(f, idx))
      ensures !old(Loose(layout, kind, disk, owned, b)) ==> BlockOf(f, idx) == blockBuf
    {
      hide VolumeOk, Trees, Unseen, OnlyBlock, At, PlaceOf, StoredBut, InUse, Loose;
      if Loose(layout, kind, disk, owned, b) {
        LooseFits(layout, kind, disk, owned, groupFree, sbFree, b);
        LooseStep(layout, kind, disk, owned, groupFree, sbFree, ins, b, blockBuf);
        UnseenElsewhere(disk, ins, disk[b := blockBuf], ins, layout.bs, f, idx);
      } else {
        Named(disk, ins, layout.bs, owned, f, idx);
        DataStep(layout, kind, disk, owned, groupFree, sbFree, ins, f, idx, blockBuf);
      }
      StoredKept(layout, kind, disk, ins, f, b, blockBuf);
      if AllStored() {
        StoredKept(layout, kind, disk, ins, 0, b, blockBuf);
      }
      disk := disk[b := blockBuf];
    }

    /** One turn of the loop of ext2_write_file: bytes for one block. */
    method StoreChunk(inode: Inode, idx: nat, off: nat, chunk: seq<byte>, ghost f: nat)
      returns (inode': Inode, stored: bool)
      requires Valid() && Holds(ins, f, inode) && Stored(f) && off + |chunk| <= layout.bs
      modifies `disk, `groupFree, `sbFree, `blockBuf, `indBuf, `owned, `ins
      ensures Valid() && Stored(f) && ins == old(ins)[f := inode'] && SameKind(inode', inode)
      ensures OnlyBlock(old(disk), old(ins), disk, ins, layout.bs, f, idx)
      ensures Pointer(f, idx) != 0 <==> old(Pointer(f, idx)) != 0 || Reachable(inode, idx, old(sbFree), layout.bs)
      ensures !stored <==> old(Pointer(f, idx)) == 0 && old(sbFree) == 0
      ensures !stored ==> disk == old(disk) && inode' == inode && Pointer(f, idx) == 0 && sbFree == old(sbFree)
      ensures BlockOf(f, idx) ==
        if Pointer(f, idx) != 0 then Patched(old(BlockOf(f, idx)), off, chunk) else old(BlockOf(f, idx))
      ensures old(Pointer(f, idx)) != 0 ==>
        sbFree == old(sbFree) && inode' == inode && Pointer(f, idx) == old(Pointer(f, idx))
      ensures old(Pointer(f, idx)) == 0 && Pointer(f, idx) != 0 ==> sbFree == old(sbFree) - 1 - NewTable(inode, idx)
      ensures old(Pointer(f, idx)) == 0 && Pointer(f, idx) != 0 ==>
        (Indirect(inode') == 0 <==> idx < 12 && Indirect(inode) == 0)
      ensures stored && Pointer(f, idx) == 0 ==> sbFree == old(sbFree) - 1 && Indirect(inode') == Indirect(inode)
      ensures stored && old(Pointer(f, idx)) == 0 ==> SectorsOf(inode') == MoreSectors(inode, layout.bs)
    {
      hide VolumeOk, Trees, Indirect, Unseen, OnlyBlock, At, PlaceOf, StoredBut, SizeOf, ModeOf, InUse, Loose,
           Reachable, NewTable, SectorsOf;
      ghost var d0, ins0 := disk, ins;
      UnseenRefl(disk, ins, layout.bs);
      UnseenElsewhere(disk, ins, disk, ins, layout.bs, f, idx);
      inode' := inode;
      var b := GetBlock(inode, idx, f);
      assert ins == ins[f := inode];
      if b == 0 {
        inode', b := MapBlock(inode, idx, f);
        if b == 0 {
          assert !Reachable(inode, idx, 0, layout.bs) by { NeedsRoom(inode, idx, layout.bs); }
          return inode', false;
        }
      }
      ghost var d1, ins1 := disk, ins;
      BlockReady(layout, kind, disk, owned, groupFree, sbFree, ins, b, f, idx);
      if off != 0 || |chunk| != layout.bs {
        blockBuf := disk[b];
      }
      blockBuf := Splice(blockBuf, off, chunk);
      assert blockBuf == Patched(d1[b], off, chunk);
      WriteData(b, f, idx);
      OnlyTrans(d0, ins0, d1, ins1, disk, ins, layout.bs, f, idx);
      stored := true;
    }

    /** ext2_write_inode. */
    method WriteInode(inode: Inode, f: nat) returns (ok: bool)
      requires Valid() && Holds(ins, f, inode) && Stored(f)
      modifies `disk, `blockBuf
      ensures ok && Valid() && AllStored() && Unseen(old(disk), ins, disk, ins, layout.bs)
    {
      hide VolumeOk, Trees, Unseen, OnDisk, LayoutOk;
      StoreInode(layout, kind, disk, ins, f);
      InodeThere(layout, kind, disk, ins, f);
      var group, index := (f - 1) / layout.ipg, (f - 1) % layout.ipg;
      var b := layout.tables[group] + index * layout.isz / layout.bs;
      var off := index * layout.isz % layout.bs;
      ghost var d := disk;
      blockBuf := disk[b];
      blockBuf := Splice(blockBuf, off, inode);
      disk := disk[b := blockBuf];
      MetaStep(layout, kind, d, owned, groupFree, sbFree, ins, b, blockBuf);
      ok := true;
    }

    /** ext2_read_inode. */
    method ReadInode(f: nat) returns (inode: Inode)
      requires Valid() && f in ins && AllStored()
      modifies `blockBuf
      ensures Valid() && Holds(ins, f, inode)
    {
      hide VolumeOk, Trees, LayoutOk;
      InodeThere(layout, kind, disk, ins, f);
      var group, index := (f - 1) / layout.ipg, (f - 1) % layout.ipg;
      var b := layout.tables[group] + index * layout.isz / layout.bs;
      var off := index * layout.isz % layout.bs;
      blockBuf := disk[b];
      inode := blockBuf[off..off + INODE_BYTES];
      assert inode == OnDisk(layout, kind, disk, f);
    }

    /** ext2_flush_metadata. */
    method Flush(ghost f: nat)
      requires Valid() && Mounted() && Stored(f)
      modifies `disk, `blockBuf
      ensures Valid() && Stored(f) && Unseen(old(disk), ins, disk, ins, layout.bs)
      ensures Synced()
    {
      hide Trees, Unseen, OnDisk, LayoutOk, Padded, Counted, Claimed, SuperBytes, DescriptorTable, Flushed, StoredBut;
      ghost var d := disk;
      MetaThere(layout, kind, disk);
      var sb, off := 1024 / layout.bs, 1024 % layout.bs;
      disk := disk[sb := Splice(disk[sb], off, SuperBytes(sbHead, sbFree, sbTail))];
      MetaStep(layout, kind, d, owned, groupFree, sbFree, ins, sb, disk[sb]);
      StoredKept(layout, kind, d, ins, f, sb, disk[sb]);
      ghost var d1 := disk;
      var gdt := if layout.bs == 1024 then 2 else 1;
      blockBuf := disk[gdt];
      blockBuf := Splice(blockBuf, 0, DescriptorTable(layout, groupFree, groupTails, |groupFree|));
      disk := disk[gdt := blockBuf];
      MetaStep(layout, kind, d1, owned, groupFree, sbFree, ins, gdt, blockBuf);
      StoredKept(layout, kind, d1, ins, f, gdt, blockBuf);
      UnseenTrans(d, ins, d1, ins, disk, ins, layout.bs);
      FlushedNow(layout, d, groupFree, sbFree, sbHead, sbTail, groupTails, disk);
    }
  }

  // ----- superblock and group descriptors -----

  /** The 1024 bytes written over the superblock. */
  function SuperBytes(head: seq<byte>, free: nat, tail: seq<byte>): (r: seq<byte>)
    requires |head| == 12 && |tail| == 188
    ensures |r| == 1024
  {
    head + Le(4, free) + tail + Zeros(820)
  }

  function DescriptorBytes(l: Layout, free: nat, tail: seq<byte>, g: nat): (r: seq<byte>)
    requires g < |l.bitmaps| == |l.inodeMaps| == |l.tables| && |tail| == 18
    ensures |r| == 32
  {
    Le(4, l.bitmaps[g]) + Le(4, l.inodeMaps[g]) + Le(4, l.tables[g]) + Le(2, free) + tail
  }

  function DescriptorTable(l: Layout, free: seq<nat>, tails: seq<seq<byte>>, n: nat): (r: seq<byte>)
    requires n <= |l.bitmaps| == |l.inodeMaps| == |l.tables| == |free| == |tails|
    requires forall g :: 0 <= g < |tails| ==> |tails[g]| == 18
    ensures |r| == 32 * n
  {
    if n == 0 then [] else DescriptorTable(l, free, tails, n - 1) + DescriptorBytes(l, free[n - 1], tails[n - 1], n - 1)
  }

  /** The superblock and the group descriptors on disk are those in memory. */
  predicate Flushed(l: Layout, d: Disk, free: seq<nat>, sbFree: nat, head: seq<byte>, tail: seq<byte>,
                    tails: seq<seq<byte>>)
  {
    && Sizes(l) && |free| == |l.bitmaps| == |tails| && HasBlock(d, SuperBlock(l), l.bs)
    && HasBlock(d, DescriptorBlock(l), l.bs)
    && |head| == 12 && |tail| == 188 && (forall g :: 0 <= g < |tails| ==> |tails[g]| == 18)
    && d[SuperBlock(l)][1024 % l.bs..1024 % l.bs + 1024] == SuperBytes(head, sbFree, tail)
    && d[DescriptorBlock(l)][..32 * |free|] == DescriptorTable(l, free, tails, |free|)
  }

  lemma UnseenTrans(d: Disk, ins: Inodes, d': Disk, ins': Inodes, d'': Disk, ins'': Inodes, bs: nat)
    requires Unseen(d, ins, d', ins', bs) && Unseen(d', ins', d'', ins'', bs)
    ensures Unseen(d, ins, d'', ins'', bs)
  {
    hide At, Content, IsPlace;
  }

  lemma MetaThere(l: Layout, kind: map<nat, Use>, d: Disk)
    requires LayoutOk(l, kind) && DiskOk(l, d)
    ensures HasBlock(d, 1024 / l.bs, l.bs) && 1024 / l.bs in kind && kind[1024 / l.bs] == Super
      && 1024 % l.bs + 1024 <= l.bs
    ensures var g := if l.bs == 1024 then 2 else 1;
            HasBlock(d, g, l.bs) && g in kind && kind[g] == Descriptors && g != 1024 / l.bs
  {
  }

  lemma FlushedNow(l: Layout, d: Disk, free: seq<nat>, sbFree: nat, head: seq<byte>, tail: seq<byte>,
                   tails: seq<seq<byte>>, d': Disk)
    requires Sizes(l) && |free| == |l.bitmaps| == |tails| && |head| == 12 && |tail| == 188
      && (forall h :: 0 <= h < |tails| ==> |tails[h]| == 18)
    requires HasBlock(d, SuperBlock(l), l.bs) && HasBlock(d, DescriptorBlock(l), l.bs)
    requires d' == d[SuperBlock(l) := Splice(d[SuperBlock(l)], 1024 % l.bs, SuperBytes(head, sbFree, tail))]
                    [DescriptorBlock(l) := Splice(d[DescriptorBlock(l)], 0, DescriptorTable(l, free, tails, |free|))]
    ensures Flushed(l, d', free, sbFree, head, tail, tails)
  {
    hide DescriptorTable, SuperBytes;
    var o := 1024 % l.bs;
    assert d'[SuperBlock(l)][o..o + 1024] == SuperBytes(head, sbFree, tail);
    assert d'[DescriptorBlock(l)][..32 * |free|] == DescriptorTable(l, free, tails, |free|);
  }

  /** `t` copied over the block at `off`. */
  function Patched(b: Block, off: nat, t: seq<byte>): Block {
    if off + |t| <= |b| then Splice(b, off, t) else b
  }

  lemma NeedsRoom(inode: Inode, idx: nat, bs: nat)
    ensures !Reachable(inode, idx, 0, bs)
  {
  }

  lemma BlockReady(l: Layout, kind: map<nat, Use>, d: Disk, owned: set<nat>, free: seq<nat>, sbFree: nat, ins: Inodes,
                   b: nat, f: nat, idx: nat)
    requires Good(l, kind, d, owned, free, sbFree, ins)
    requires At(d, ins, PlaceOf(f, idx, Ptrs(l.bs))) == b != 0 || Loose(l, kind, d, owned, b)
    ensures HasBlock(d, b, l.bs)
    ensures At(d, ins, PlaceOf(f, idx, Ptrs(l.bs))) == b != 0 ==>
      Content(d, ins, f, idx, l.bs) == d[b] && !Loose(l, kind, d, owned, b)
  {
    hide LayoutOk, Padded, Counted, Claimed, InUse, At, PlaceOf, Trees;
    Named(d, ins, l.bs, owned, f, idx);
  }

  lemma InodeThere(l: Layout, kind: map<nat, Use>, d: Disk, ins: Inodes, f: nat)
    requires StoredBut(l, kind, d, ins, 0) || StoredBut(l, kind, d, ins, f)
    requires f in ins
    ensures 0 < f && 0 < l.ipg && 0 < l.bs && IsInode(l, f) && InodeOffset(l, f) % l.bs + INODE_BYTES <= l.bs
    ensures HasBlock(d, InodeBlock(l, f), l.bs)
  {
    InodeFits(l, kind, f);
  }

  predicate HasBlock(d: Disk, b: nat, bs: nat) { b in d && |d[b]| == bs }

  /**
   * Block `idx` can be given a disk block: its pointer has a place, and there are blocks for it
   * and for a new table.
   */
  predicate Reachable(inode: Inode, idx: nat, sbFree: nat, bs: nat) {
    idx < 12 + Ptrs(bs) && 1 + NewTable(inode, idx) <= sbFree
  }

  lemma HoleContent(d: Disk, ins: Inodes, bs: nat, f: nat, i: nat)
    requires At(d, ins, PlaceOf(f, i, Ptrs(bs))) == 0
    ensures Content(d, ins, f, i, bs) == Zeros(bs)
  {
  }

  /** Whether reaching block `idx` takes a new indirect block. */
  function NewTable(inode: Inode, idx: nat): nat { if 12 <= idx && Indirect(inode) == 0 then 1 else 0 }

  /** A block of pointers is there to be read. */
  lemma TableReady(l: Layout, kind: map<nat, Use>, d: Disk, owned: set<nat>, free: seq<nat>, sbFree: nat, ins: Inodes,
                   p: Place)
    requires Good(l, kind, d, owned, free, sbFree, ins) && IsPlace(p, Ptrs(l.bs)) && At(d, ins, p) != 0
    ensures At(d, ins, p) in d && |d[At(d, ins, p)]| == l.bs
  {
    hide LayoutOk, Padded, Counted, Claimed, At, IsPlace;
  }

  lemma SlotPlace(d: Disk, ins: Inodes, f: nat)
    requires f in ins
    ensures At(d, ins, InSlot(f, 12)) == Slot(ins[f], 12)
  {
  }

  lemma SlotEmpty(d: Disk, ins: Inodes, n: nat, f: nat, idx: nat)
    requires f in ins && idx < 12 && At(d, ins, PlaceOf(f, idx, n)) == 0
    ensures Slot(ins[f], idx) == 0
  {
  }

  lemma LooseSurvives(l: Layout, kind: map<nat, Use>, d: Disk, d': Disk, owned: set<nat>, b: nat, t: nat)
    requires Took(l, d, d', t) && Loose(l, kind, d, owned, b)
    ensures Loose(l, kind, d', owned, b) && b != t
  {
    hide InUse;
  }

  lemma LooseFits(l: Layout, kind: map<nat, Use>, d: Disk, owned: set<nat>, free: seq<nat>, sbFree: nat, b: nat)
    requires VolumeOk(l, kind, d, owned, free, sbFree) && Loose(l, kind, d, owned, b)
    ensures b in d && 0 < b < 0x1_0000_0000 && b !in kind && |d[b]| == l.bs
  {
    hide Padded, Counted, Claimed, InUse;
  }

  lemma LooseWrite(l: Layout, kind: map<nat, Use>, d: Disk, owned: set<nat>, free: seq<nat>, sbFree: nat, b: nat,
                   t: nat, c: Block)
    requires VolumeOk(l, kind, d, owned, free, sbFree) && Loose(l, kind, d, owned, b) && Loose(l, kind, d, owned, t)
      && b != t && |c| == l.bs
    ensures Loose(l, kind, d[t := c], owned + {t}, b)
  {
    LooseFits(l, kind, d, owned, free, sbFree, t);
    hide VolumeOk, InUse;
    OtherWriteUse(l, kind, d, owned, free, sbFree, t, c, b);
  }

  lemma StoredWeaker(l: Layout, kind: map<nat, Use>, d: Disk, ins: Inodes, f: nat)
    requires StoredBut(l, kind, d, ins, 0)
    ensures StoredBut(l, kind, d, ins, f)
  {
    hide LayoutOk, DiskOk, OnDisk;
  }

  lemma FieldStored(l: Layout, kind: map<nat, Use>, d: Disk, ins: Inodes, f: nat, inode: Inode)
    requires StoredBut(l, kind, d, ins, f) && f in ins
    ensures StoredBut(l, kind, d, ins[f := inode], f)
  {
    hide LayoutOk, DiskOk, OnDisk;
  }

  lemma FileWriteStored(l: Layout, kind: map<nat, Use>, d: Disk, ins: Inodes, f: nat, b: nat, c: Block, inode: Inode)
    requires StoredBut(l, kind, d, ins, f) && f in ins && b in d && |c| == l.bs && b !in kind
    ensures StoredBut(l, kind, d[b := c], ins[f := inode], f)
  {
    hide LayoutOk, DiskOk, OnDisk;
    StoredKept(l, kind, d, ins, f, b, c);
    FieldStored(l, kind, d[b := c], ins, f, inode);
  }

  lemma TableStored(l: Layout, kind: map<nat, Use>, d: Disk, owned: set<nat>, free: seq<nat>, sbFree: nat, ins: Inodes,
                    f: nat, t: nat, c: Block)
    requires f in ins && t == Slot(ins[f], 12) != 0 && |c| == l.bs
    requires Good(l, kind, d, owned, free, sbFree, ins) && StoredBut(l, kind, d, ins, f)
    ensures StoredBut(l, kind, d[t := c], ins, f)
  {
    hide LayoutOk, Padded, Counted, InUse, OnDisk;
    assert IsPlace(InSlot(f, 12), Ptrs(l.bs)) && At(d, ins, InSlot(f, 12)) == t;
    StoredKept(l, kind, d, ins, f, t, c);
  }

  /** Exactly block `b` became used. */
  ghost predicate Took(l: Layout, d: Disk, d': Disk, b: nat) {
    !InUse(l, d, b) && forall n :: InUse(l, d', n) <==> InUse(l, d, n) || n == b
  }

  /** The bit of block `b` was cleared, and its group counts one more free block. */
  ghost predicate Gave(l: Layout, d: Disk, d': Disk, free: seq<nat>, free': seq<nat>, b: nat) {
    exists g: nat, i: nat :: GaveAt(l, d, d', free, free', b, g, i)
  }

  ghost predicate GaveAt(l: Layout, d: Disk, d': Disk, free: seq<nat>, free': seq<nat>, b: nat, g: nat, i: nat) {
    && g < |l.bitmaps| == |free| && i < l.bpg && b == BlockNo(l, g, i) && l.bitmaps[g] in d && i < 8 * |d[l.bitmaps[g]]|
    && d' == Unmark(l, d, g, i) && free' == free[g := free[g] + 1]
  }

  lemma GaveIs(l: Layout, d: Disk, d': Disk, free: seq<nat>, free': seq<nat>, b: nat, g: nat, i: nat)
    requires GaveAt(l, d, d', free, free', b, g, i)
    ensures Gave(l, d, d', free, free', b)
  {
  }

  /** Freeing a block just allocated gives back the bitmap and the counts as they were. */
  lemma FreeUndoesAlloc(l: Layout, d: Disk, free: seq<nat>, g: nat, i: nat)
    requires g < |l.bitmaps| == |free| && l.bitmaps[g] in d && i < 8 * |d[l.bitmaps[g]]| && !Marked(l, d, g, i)
      && 0 < free[g]
    ensures Unmark(l, Mark(l, d, g, i), g, i) == d && free[g := free[g] - 1][g := free[g] - 1 + 1] == free
  {
    WithoutUndoesWith(d[l.bitmaps[g]], i);
  }

  /** Block numbers are 32 bits wide. */
  const WORD32 := 0x1_0000_0000

  /** The group of a block, and its bit there: the difference may wrap. */
  function GroupOf(l: Layout, b: nat): nat { if 0 < l.bpg then (b - l.first) % WORD32 / l.bpg else 0 }

  function IndexOf(l: Layout, b: nat): nat { if 0 < l.bpg then (b - l.first) % WORD32 % l.bpg else 0 }

  /** The bit found from a block's number: it is the block's, or that of a number that is too large. */
  lemma BitFound(l: Layout, b: nat)
    requires 0 < l.bpg && b < WORD32
    ensures IndexOf(l, b) < l.bpg
    ensures if l.first <= b then BlockNo(l, GroupOf(l, b), IndexOf(l, b)) == b
      else WORD32 <= BlockNo(l, GroupOf(l, b), IndexOf(l, b))
  {
    var m := (b - l.first) % WORD32;
    assert m == m / l.bpg * l.bpg + m % l.bpg;
  }

  lemma BlockTarget(l: Layout, kind: map<nat, Use>, d: Disk, owned: set<nat>, b: nat)
    requires Sizes(l) && b < WORD32
    ensures IndexOf(l, b) < l.bpg
      && (Loose(l, kind, d, owned, BlockNo(l, GroupOf(l, b), IndexOf(l, b))) <==> Loose(l, kind, d, owned, b))
    ensures Loose(l, kind, d, owned, b) ==> b == BlockNo(l, GroupOf(l, b), IndexOf(l, b)) != 0
    ensures Loose(l, kind, d, owned, b) ==> GroupOf(l, b) < |l.bitmaps| && Marked(l, d, GroupOf(l, b), IndexOf(l, b))
  {
    hide Marked, GroupOf, IndexOf, BlockNo, InUse;
    BitFound(l, b);
    if Loose(l, kind, d, owned, b) {
      var g, i := UsedBit(l, d, b);
      BlockNoInverse(l, g, i, GroupOf(l, b), IndexOf(l, b));
    }
  }

  lemma UsedBit(l: Layout, d: Disk, b: nat) returns (g: nat, i: nat)
    requires InUse(l, d, b)
    ensures l.first <= b && g < |l.bitmaps| && i < l.bpg && b == BlockNo(l, g, i) && Marked(l, d, g, i)
  {
    hide Marked;
    g, i :| g < |l.bitmaps| && i < l.bpg && b == BlockNo(l, g, i) && Marked(l, d, g, i);
  }

  /** Freeing a block that is free, or belongs to a file or to the metadata, breaks the volume. */
  lemma WrongFree(l: Layout, kind: map<nat, Use>, d: Disk, owned: set<nat>, free: seq<nat>, sbFree: nat, g: nat, i: nat,
                  d': Disk, free': seq<nat>)
    requires VolumeOk(l, kind, d, owned, free, sbFree) && g < |l.bitmaps| == |free| && l.bitmaps[g] in d
      && i < l.bpg <= 8 * |d[l.bitmaps[g]]|
    requires d' == Unmark(l, d, g, i) && free' == free[g := free[g] + 1] && !Loose(l, kind, d, owned, BlockNo(l, g, i))
    ensures !VolumeOk(l, kind, d', owned, free', sbFree + 1)
  {
    hide BitAt, WithoutBit, ClearBits, Sum, BlockNo, LayoutOk, InUse;
    var n := BlockNo(l, g, i);
    ClearBitsChange(d[l.bitmaps[g]], i, l.bpg);
    UnmarkMarks(l, kind, d, g, i, g, i);
    if Marked(l, d, g, i) {
      UnmarkUses(l, kind, d, g, i, n);
      MarkedUsed(l, d, g, i);
    }
  }

  lemma MarkedUsed(l: Layout, d: Disk, g: nat, i: nat)
    requires g < |l.bitmaps| && i < l.bpg && Marked(l, d, g, i)
    ensures InUse(l, d, BlockNo(l, g, i))
  {
    hide Marked, BlockNo;
  }

  lemma TakeBlockFacts(l: Layout, kind: map<nat, Use>, d: Disk, owned: set<nat>, free: seq<nat>, sbFree: nat, g: nat,
                       i: nat)
    requires g < |l.bitmaps| == |free| && i < l.bpg && l.bitmaps[g] in d && i < 8 * |d[l.bitmaps[g]]|
      && !Marked(l, d, g, i)
    requires VolumeOk(l, kind, d, owned, free, sbFree)
    ensures 0 < sbFree && 0 < BlockNo(l, g, i) && Took(l, d, Mark(l, d, g, i), BlockNo(l, g, i))
  {
    hide InUse, Marked, BlockNo, Padded, Counted, Claimed;
    TakeBlock(l, kind, d, owned, free, sbFree, g, i);
    var d' := Mark(l, d, g, i);
    MarkUses(l, kind, d, g, i, 0);
    forall n ensures InUse(l, d', n) <==> InUse(l, d, n) || n == BlockNo(l, g, i) {
      MarkUses(l, kind, d, g, i, n);
    }
  }

  lemma AllocStored(l: Layout, kind: map<nat, Use>, d: Disk, owned: set<nat>, free: seq<nat>, sbFree: nat, ins: Inodes,
                    g: nat, c: Block, f: nat)
    requires g < |l.bitmaps| && VolumeOk(l, kind, d, owned, free, sbFree) && |c| == l.bs
      && StoredBut(l, kind, d, ins, f)
    ensures StoredBut(l, kind, d[l.bitmaps[g] := c], ins, f)
  {
    hide Padded, Counted, Claimed, OnDisk;
    BitmapKind(l, kind, g);
    StoredKept(l, kind, d, ins, f, l.bitmaps[g], c);
  }
}
